/**
 The vector machine in its own form: one vector per field, its own copy of the closing loops, and
 operations that go through a validated snapshot and the fixed machine.
 */
module MultiwayVectorState {
  import opened Wrappers
  import opened CommonTypes
  import opened MultiwayBetting
  import opened MultiwayFixedState
  import opened MultiwaySnapshot
  import opened MultiwayReplay

  predicate SameLengths(stacks: seq<int>, contributions: seq<int>, streetContributions: seq<int>, folded: seq<bool>,
                        allIn: seq<bool>, mayRaise: seq<bool>, pending: seq<bool>, hasActed: seq<bool>,
                        betFaced: seq<int>)
  {
    |stacks| == |contributions| == |streetContributions| == |folded| == |allIn| == |mayRaise| == |pending|
    == |hasActed| == |betFaced|
  }

  /** The seats whose fields the vectors hold. */
  function Zipped(stacks: seq<int>, contributions: seq<int>, streetContributions: seq<int>, folded: seq<bool>,
                  allIn: seq<bool>, mayRaise: seq<bool>, pending: seq<bool>, hasActed: seq<bool>, betFaced: seq<int>)
    : (seats: seq<Seat>)
    requires SameLengths(stacks, contributions, streetContributions, folded, allIn, mayRaise, pending, hasActed,
                         betFaced)
    ensures |seats| == |stacks|
    ensures forall i :: 0 <= i < |seats| ==>
                          seats[i] == Seat(stacks[i], contributions[i], streetContributions[i], folded[i], allIn[i],
                                           mayRaise[i], pending[i], hasActed[i], betFaced[i])
  {
    seq(|stacks|, i requires 0 <= i < |stacks| =>
      Seat(stacks[i], contributions[i], streetContributions[i], folded[i], allIn[i], mayRaise[i], pending[i],
           hasActed[i], betFaced[i]))
  }

  /** Seat `r` is the first that owes a response below `level`; -1 when there is none. */
  ghost predicate IsFirst(t: Table, r: int, level: int) {
    && -1 <= r < |t.seats|
    && (r >= 0 ==> t.seats[r].OwesResponse() && t.seats[r].street < level)
    && forall i :: 0 <= i < (if r < 0 then |t.seats| else r) ==>
         !(t.seats[i].OwesResponse() && t.seats[i].street < level)
  }

  lemma ClosedTable(t: Table, seats: seq<Seat>)
    requires AtMostOneLive(t.seats) && |seats| == |t.seats|
    requires forall i :: 0 <= i < |seats| ==> seats[i] == Clear(t.seats[i])
    ensures Refresh(t) == t.(current := -1, seats := seats)
  {
    assert seats == Refresh(t).seats;
  }

  lemma LoneTable(t: Table, lone: int)
    requires !AtMostOneLive(t.seats) && AtMostOneActionable(t.seats) && IsFirst(t, lone, t.bet)
    ensures Refresh(t) == t.(current := lone)
  {
  }

  lemma PendingTable(t: Table, first: int)
    requires !AtMostOneLive(t.seats) && !AtMostOneActionable(t.seats) && -1 <= first < |t.seats|
    requires first >= 0 ==> t.seats[first].OwesResponse()
    requires forall i :: 0 <= i < (if first < 0 then |t.seats| else first) ==> !t.seats[i].OwesResponse()
    ensures Refresh(t) == t.(current := if first < 0 || t.current < 0 then first else t.current)
  {
  }

  class VectorState {
    var stacks: seq<int>
    var contributions: seq<int>
    var streetContributions: seq<int>
    var folded: seq<bool>
    var allIn: seq<bool>
    var mayRaise: seq<bool>
    var pending: seq<bool>
    var hasActed: seq<bool>
    var betFaced: seq<int>
    var current: int
    var aggressor: int
    var bet: int
    var minRaise: int
    var bigBlind: int
    var street: Street

    ghost predicate Valid()
      reads this
    {
      SameLengths(stacks, contributions, streetContributions, folded, allIn, mayRaise, pending, hasActed, betFaced)
    }

    ghost function Seats(): (seats: seq<Seat>)
      requires Valid()
      reads this
      ensures |seats| == |stacks|
    {
      Zipped(stacks, contributions, streetContributions, folded, allIn, mayRaise, pending, hasActed, betFaced)
    }

    ghost function Value(): Table
      requires Valid()
      reads this
    {
      Table(Seats(), current, aggressor, bet, minRaise, bigBlind, street)
    }

    /** Copies a snapshot field by field. */
    constructor (t: Table)
      ensures Valid() && Value() == t
    {
      var n := |t.seats|;
      stacks := seq(n, i requires 0 <= i < n => t.seats[i].stack);
      contributions := seq(n, i requires 0 <= i < n => t.seats[i].total);
      streetContributions := seq(n, i requires 0 <= i < n => t.seats[i].street);
      folded := seq(n, i requires 0 <= i < n => t.seats[i].folded);
      allIn := seq(n, i requires 0 <= i < n => t.seats[i].allIn);
      mayRaise := seq(n, i requires 0 <= i < n => t.seats[i].mayRaise);
      pending := seq(n, i requires 0 <= i < n => t.seats[i].pending);
      hasActed := seq(n, i requires 0 <= i < n => t.seats[i].hasActed);
      betFaced := seq(n, i requires 0 <= i < n => t.seats[i].betFaced);
      current, aggressor, bet, minRaise, bigBlind, street :=
        t.current, t.aggressor, t.bet, t.minRaise, t.bigBlind, t.street;
    }

    method Snapshot() returns (t: Table)
      requires Valid()
      ensures t == Value()
    {
      var seats: seq<Seat> := [];
      for seat := 0 to |stacks|
        invariant seats == Seats()[..seat]
      {
        seats := seats + [Seat(stacks[seat], contributions[seat], streetContributions[seat], folded[seat], allIn[seat],
                               mayRaise[seat], pending[seat], hasActed[seat], betFaced[seat])];
      }
      t := Table(seats, current, aggressor, bet, minRaise, bigBlind, street);
    }

    predicate IsActionable(seat: nat)
      requires Valid() && seat < |stacks|
      reads this
    {
      !folded[seat] && !allIn[seat]
    }

    method LivePlayers() returns (count: nat)
      requires Valid()
      ensures count <= 1 <==> AtMostOneLive(Seats())
    {
      ghost var seats := Seats();
      count := 0;
      for seat := 0 to |folded|
        invariant count == CountLive(seats[..seat])
      {
        assert seats[..seat + 1][..seat] == seats[..seat];
        count := count + if folded[seat] then 0 else 1;
      }
      assert seats[..|seats|] == seats;
      LiveCountMeaning(seats);
    }

    method ActionablePlayers() returns (count: nat)
      requires Valid()
      ensures count <= 1 <==> AtMostOneActionable(Seats())
    {
      ghost var seats := Seats();
      count := 0;
      for seat := 0 to |stacks|
        invariant count == CountActionable(seats[..seat])
      {
        assert seats[..seat + 1][..seat] == seats[..seat];
        count := count + if IsActionable(seat) then 1 else 0;
      }
      assert seats[..|seats|] == seats;
      ActionableCountMeaning(seats);
    }

    /** The seat that alone can act and still faces the bet, or -1. */
    method LoneResponder() returns (lone: int)
      requires Valid()
      ensures IsFirst(Value(), lone, bet)
    {
      var seat := 0;
      while seat < |pending|
        invariant 0 <= seat <= |pending|
        invariant forall i :: 0 <= i < seat ==> !(Seats()[i].OwesResponse() && Seats()[i].street < bet)
      {
        if pending[seat] && IsActionable(seat) && streetContributions[seat] < bet {
          return seat;
        }
        seat := seat + 1;
      }
      return -1;
    }

    /** refresh_round_completion over vectors leaves the same table as the copy over fixed arrays. */
    method RefreshRoundCompletion()
      requires Valid()
      modifies this
      ensures Valid() && Value() == Refresh(old(Value()))
    {
      hide Refresh, Zipped;
      ghost var t := Value();
      var live := LivePlayers();
      if live <= 1 {
        current := -1;
        pending := seq(|pending|, _ => false);
        mayRaise := seq(|mayRaise|, _ => false);
        ClosedTable(t, Seats());
        return;
      }
      var actionable := ActionablePlayers();
      if actionable <= 1 {
        var lone := LoneResponder();
        current := if lone < 0 then -1 else lone;
        LoneTable(t, lone);
        return;
      }
      var hasPending := false;
      var first: int := -1;
      var seat := 0;
      while seat < |pending|
        invariant 0 <= seat <= |pending| && !hasPending && Valid() && Value() == t && first == -1
        invariant forall i :: 0 <= i < seat ==> !t.seats[i].OwesResponse()
      {
        if pending[seat] && IsActionable(seat) {
          hasPending := true;
          first := seat;
          if current < 0 {
            current := seat;
          }
          break;
        }
        seat := seat + 1;
      }
      if !hasPending {
        current := -1;
      }
      PendingTable(t, first);
    }

    method Apply(action: Action, target: int) returns (r: Result<VectorState, BettingError>)
      requires Valid()
      ensures Holds(r, VectorApply(Value(), action, target)) && (r.Success? ==> fresh(r.value))
    {
      if current < 0 {
        return Failure(RoundComplete);
      }
      var t := Snapshot();
      var fixed := FixedOf(t);
      if fixed.Failure? {
        return Failure(InvalidSnapshot);
      }
      hide MultiwayBetting.Apply, SnapshotValid;
      var next := fixed.value.Apply(action, target);
      r := Restored(next, MultiwayBetting.Apply(t, action, target));
    }

    method BeginNextStreet(next: Street, first: int) returns (r: Result<VectorState, BettingError>)
      requires Valid()
      ensures Holds(r, VectorBeginNextStreet(Value(), next, first)) && (r.Success? ==> fresh(r.value))
    {
      var t := Snapshot();
      var fixed := FixedOf(t);
      if fixed.Failure? {
        return Failure(InvalidSnapshot);
      }
      hide MultiwayBetting.BeginNextStreet, SnapshotValid;
      var moved := fixed.value.BeginNextStreet(next, first);
      r := Restored(moved, MultiwayBetting.BeginNextStreet(t, next, first));
    }
  }

  /** The object returned holds the table expected, or both are the same refusal. */
  ghost predicate Holds(r: Result<VectorState, BettingError>, expected: Result<Table, BettingError>)
    reads if r.Success? then {r.value} else {}
  {
    match r
    case Success(state) => state.Valid() && expected == Success(state.Value())
    case Failure(error) => expected == Failure(error)
  }

  /** make_multiway_fixed_state of a snapshot. */
  method FixedOf(t: Table) returns (r: Result<FixedState, BettingError>)
    ensures r == Failure(InvalidSnapshot) || (r.Success? && fresh(r.value) && r.value.Value() == t)
    ensures r.Success? <==> SnapshotValid(t)
  {
    var valid := ValidateSnapshot(t);
    if !valid {
      return Failure(InvalidSnapshot);
    }
    var fixed := new FixedState(t.seats, t.current, t.aggressor, t.bet, t.minRaise, t.bigBlind, t.street);
    return Success(fixed);
  }

  /** MultiwayState::from_snapshot. */
  method FromSnapshot(t: Table) returns (r: Result<VectorState, BettingError>)
    ensures Holds(r, if SnapshotValid(t) then Success(Refresh(t)) else Failure(InvalidSnapshot))
    ensures r.Success? ==> fresh(r.value)
  {
    var valid := ValidateSnapshot(t);
    if !valid {
      return Failure(InvalidSnapshot);
    }
    var state := new VectorState(t);
    state.RefreshRoundCompletion();
    return Success(state);
  }

  /** The snapshot of what the fixed machine returned, validated and restored; its refusals go through. */
  method Restored(next: Result<FixedState, BettingError>, ghost expected: Result<Table, BettingError>)
    returns (r: Result<VectorState, BettingError>)
    requires match next
             case Success(state) => expected == Success(state.Value())
             case Failure(error) => expected == Failure(error)
    ensures Holds(r, Rethrow(expected)) && (r.Success? ==> fresh(r.value))
  {
    hide SnapshotValid, FixedValid, Refresh;
    if next.Failure? {
      return Failure(next.error);
    }
    var state := next.value;
    var valid := state.CheckValid();
    if !valid {
      return Failure(InvalidState);
    }
    r := FromSnapshot(Table(state.seats, state.current, state.aggressor, state.bet, state.minRaise, state.bigBlind,
                            state.street));
  }
}
