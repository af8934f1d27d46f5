/**
 The fixed-capacity betting machine in its own form: an object whose helpers update the
 per-seat flags in loops, and whose operations work on a copy.  Each method is proved to
 compute the function of MultiwayBetting that specifies it.
 */
module MultiwayFixedState {
  import opened Arithmetic
  import opened Wrappers
  import opened CommonTypes
  import opened MultiwayBetting

  class FixedState {
    var seats: seq<Seat>
    var current: int
    var aggressor: int
    var bet: int
    var minRaise: int
    var bigBlind: int
    var street: Street

    ghost function Value(): Table
      reads this
    {
      Table(seats, current, aggressor, bet, minRaise, bigBlind, street)
    }

    constructor (seats: seq<Seat>, current: int, aggressor: int, bet: int, minRaise: int, bigBlind: int, street: Street)
      ensures Value() == Table(seats, current, aggressor, bet, minRaise, bigBlind, street)
    {
      this.seats, this.current, this.aggressor := seats, current, aggressor;
      this.bet, this.minRaise, this.bigBlind, this.street := bet, minRaise, bigBlind, street;
    }

    /** A copy of the state, as assigning the C++ value does. */
    constructor CopyOf(other: FixedState)
      ensures Value() == other.Value()
    {
      seats, current, aggressor := other.seats, other.current, other.aggressor;
      bet, minRaise, bigBlind, street := other.bet, other.minRaise, other.bigBlind, other.street;
    }

    method LiveSeats() returns (count: nat)
      ensures count == CountLive(seats)
      ensures count <= 1 <==> AtMostOneLive(seats)
    {
      count := 0;
      for seat := 0 to |seats|
        invariant count == CountLive(seats[..seat])
      {
        assert seats[..seat + 1][..seat] == seats[..seat];
        count := count + if seats[seat].folded then 0 else 1;
      }
      assert seats[..|seats|] == seats;
      LiveCountMeaning(seats);
    }

    method ActionableSeats() returns (count: nat)
      ensures count == CountActionable(seats)
      ensures count <= 1 <==> AtMostOneActionable(seats)
    {
      count := 0;
      for seat := 0 to |seats|
        invariant count == CountActionable(seats[..seat])
      {
        assert seats[..seat + 1][..seat] == seats[..seat];
        count := count + if seats[seat].Actionable() then 1 else 0;
      }
      assert seats[..|seats|] == seats;
      ActionableCountMeaning(seats);
    }

    method NextPending(player: int) returns (candidate: int)
      requires |seats| > 0 && -1 <= player < |seats|
      ensures candidate == NextPendingAfter(seats, player)
    {
      var offset := 1;
      while offset <= |seats|
        invariant 1 <= offset <= |seats| + 1
        invariant NextPendingFrom(seats, player, offset) == NextPendingFrom(seats, player, 1)
      {
        candidate := (player + offset + |seats|) % |seats|;
        RingPosition(player + offset, |seats|);
        if seats[candidate].OwesResponse() {
          return;
        }
        offset := offset + 1;
      }
      candidate := -1;
    }

    method RefreshRoundCompletion()
      modifies this
      ensures Value() == Refresh(old(Value()))
    {
      var live := LiveSeats();
      if live <= 1 {
        current := -1;
        for seat := 0 to |seats|
          invariant |seats| == old(|seats|)
          invariant forall i :: 0 <= i < seat ==> seats[i] == Clear(old(seats[i]))
          invariant forall i :: seat <= i < |seats| ==> seats[i] == old(seats[i])
          invariant Value() == old(Value()).(current := -1, seats := seats)
        {
          seats := seats[seat := seats[seat].(pending := false, mayRaise := false)];
        }
        return;
      }
      var actionable := ActionableSeats();
      if actionable <= 1 {
        var lone := -1;
        var seat := 0;
        while seat < |seats|
          invariant 0 <= seat <= |seats|
          invariant lone == -1
          invariant forall i :: 0 <= i < seat ==> !(seats[i].OwesResponse() && seats[i].street < bet)
        {
          if seats[seat].OwesResponse() && seats[seat].street < bet {
            lone := seat;
            break;
          }
          seat := seat + 1;
        }
        if lone < 0 {
          current := -1;
          return;
        }
        current := lone;
        return;
      }
      for seat := 0 to |seats|
        invariant Value() == old(Value())
        invariant forall i :: 0 <= i < seat ==> !seats[i].OwesResponse()
      {
        if seats[seat].OwesResponse() {
          if current < 0 {
            current := seat;
          }
          return;
        }
      }
      current := -1;
    }

    method ResetPendingAfterFullRaise(raiser: int)
      modifies `seats
      ensures seats == ReopenedBy(old(seats), raiser)
    {
      for seat := 0 to |seats|
        invariant |seats| == old(|seats|)
        invariant forall i :: 0 <= i < seat ==> seats[i] == ReopenedBy(old(seats), raiser)[i]
        invariant forall i :: seat <= i < |seats| ==> seats[i] == old(seats[i])
      {
        var owes := seat != raiser && seats[seat].Actionable();
        seats := seats[seat := seats[seat].(pending := owes, mayRaise := owes)];
      }
    }

    method RefreshRaiseRightsAfterShortRaise(raiser: int)
      modifies `seats
      ensures seats == ReopenedByShort(old(seats), raiser, bet, minRaise)
    {
      for seat := 0 to |seats|
        invariant |seats| == old(|seats|)
        invariant forall i :: 0 <= i < seat ==> seats[i] == ReopenedByShort(old(seats), raiser, bet, minRaise)[i]
        invariant forall i :: seat <= i < |seats| ==> seats[i] == old(seats[i])
      {
        if seat == raiser || !seats[seat].Actionable() {
          continue;
        }
        if seats[seat].street < bet {
          seats := seats[seat := seats[seat].(pending := true)];
        }
        seats := seats[seat := seats[seat].(
            mayRaise := !seats[seat].hasActed || bet - seats[seat].betFaced >= minRaise)];
      }
    }

    method NextKind() returns (kind: NodeKind)
      ensures kind == NextNodeKind(Value())
    {
      var live := LiveSeats();
      if live <= 1 {
        return FoldTerminal;
      }
      if current >= 0 {
        return BettingDecision;
      }
      var actionable := ActionableSeats();
      if actionable <= 1 && street != River {
        return BoardRunout;
      }
      return if street == River then ShowdownTerminal else StreetTransition;
    }

    method Menu() returns (menu: seq<Action>)
      requires current < |seats|
      ensures menu == LegalActions(Value())
    {
      menu := [];
      if current < 0 {
        return;
      }
      var s := seats[current];
      var toCall := bet - s.street;
      menu := menu + [if toCall > 0 then Fold else Check];
      if toCall > 0 {
        menu := menu + [Call];
      }
      var allInTarget := s.street + s.stack;
      var minimumFullRaise := bet + minRaise;
      var actionable := ActionableSeats();
      var hasOpponent := actionable > 1;
      var nobodyActed := true;
      for seat := 0 to |seats|
        invariant nobodyActed <==> forall i :: 0 <= i < seat ==> !seats[i].hasActed
      {
        nobodyActed := nobodyActed && !seats[seat].hasActed;
      }
      var openingPreflopAction := street == Preflop && nobodyActed;
      if hasOpponent && s.mayRaise && allInTarget > minimumFullRaise {
        menu := menu + [if toCall > 0 && !openingPreflopAction then Raise else Bet];
      }
      if hasOpponent && s.mayRaise && allInTarget > bet {
        menu := menu + [AllIn];
      }
    }

    method CheckValid() returns (valid: bool)
      ensures valid == FixedValid(Value())
    {
      if !(2 <= |seats| <= MAX_SEATS) || bigBlind <= 0 || minRaise <= 0 || bet < 0 || street.Showdown?
         || !(-1 <= current < |seats|) || !(-1 <= aggressor < |seats|) {
        return false;
      }
      for seat := 0 to |seats|
        invariant forall i :: 0 <= i < seat ==> FixedSeatValid(seats[i])
      {
        if !FixedSeatValid(seats[seat]) {
          return false;
        }
      }
      return true;
    }

    /** Moves chips from the acting seat's stack; refuses an amount outside the stack. */
    method PayFrom(seat: int, amount: int) returns (ok: bool)
      requires 0 <= seat < |seats|
      modifies `seats
      ensures ok <==> 0 <= amount <= old(seats[seat].stack)
      ensures seats == if ok then old(seats)[seat := Pay(old(seats[seat]), amount)] else old(seats)
    {
      if amount < 0 || amount > seats[seat].stack {
        return false;
      }
      seats := seats[seat := seats[seat].(
          stack := seats[seat].stack - amount,
          total := seats[seat].total + amount,
          street := seats[seat].street + amount)];
      seats := seats[seat := seats[seat].(allIn := seats[seat].stack == 0)];
      return true;
    }

    method MarkActed(seat: int)
      requires 0 <= seat < |seats|
      modifies `seats
      ensures seats == old(seats)[seat := Acted(old(seats[seat]), bet)]
    {
      seats := seats[seat := seats[seat].(pending := false, mayRaise := false, hasActed := true, betFaced := bet)];
    }

    /** The acting seat pays up to `target`, which becomes the bet, and the betting reopens. */
    method RaiseTo(target: int)
      requires 0 <= current < |seats|
      requires 0 <= target - seats[current].street <= seats[current].stack
      modifies this
      ensures Value() == Raised(old(Value()), target)
    {
      var seat := current;
      var ok := PayFrom(seat, target - seats[seat].street);
      var raiseSize := target - bet;
      bet := target;
      aggressor := seat;
      seats := seats[seat := seats[seat].(hasActed := true, betFaced := bet)];
      assert seats == old(seats)[seat := Pay(old(seats[seat]), target - old(seats[seat].street))
                                           .(hasActed := true, betFaced := target)];
      hide Pay;
      if raiseSize >= minRaise {
        minRaise := raiseSize;
        ResetPendingAfterFullRaise(seat);
      } else {
        ghost var paid := seats[seat];
        seats := seats[seat := seats[seat].(pending := false, mayRaise := false)];
        assert seats == old(seats)[seat := Clear(paid)];
        RefreshRaiseRightsAfterShortRaise(seat);
      }
    }

    /** The chips and flags of one listed action; on refusal the object is left to be discarded. */
    method Move(action: Action, target: int) returns (refusal: Option<BettingError>)
      requires 0 <= current < |seats|
      requires seats[current].stack >= 0 && (action.Call? ==> bet >= seats[current].street)
      requires action.AllIn? ==> bet < seats[current].street + seats[current].stack
      modifies this
      ensures refusal == TargetRefusal(old(Value()), action, target)
      ensures refusal.None? ==> Value() == Moved(old(Value()), action, target)
    {
      var seat := current;
      match action {
        case Fold =>
          seats := seats[seat := seats[seat].(folded := true)];
          MarkActed(seat);
        case Check =>
          MarkActed(seat);
        case Call =>
          var ok := PayFrom(seat, Min(bet - seats[seat].street, seats[seat].stack));
          MarkActed(seat);
        case AllIn =>
          RaiseTo(seats[seat].street + seats[seat].stack);
        case _ =>
          if target <= bet || target >= seats[seat].street + seats[seat].stack {
            return Some(InvalidRaiseTarget);
          }
          if target < seats[seat].street {
            return Some(ExceedsStack);
          }
          if target - bet < minRaise {
            return Some(BelowMinimumRaise);
          }
          RaiseTo(target);
      }
      return None;
    }

    method Apply(action: Action, target: int) returns (r: Result<FixedState, BettingError>)
      ensures r.Success? <==> MultiwayBetting.Apply(Value(), action, target).Success?
      ensures r.Success? ==> fresh(r.value) && r.value.Value() == MultiwayBetting.Apply(Value(), action, target).value
      ensures r.Failure? ==> r.error == MultiwayBetting.Apply(Value(), action, target).error
    {
      var valid := CheckValid();
      if !valid {
        return Failure(InvalidState);
      }
      var menu := Menu();
      if current < 0 || action !in menu {
        return Failure(IllegalAction);
      }
      MovedKeepsSelection(Value(), action, target);
      hide Moved, Refresh, NextPendingAfter, TargetRefusal, FixedValid;
      var next := new FixedState.CopyOf(this);
      var refusal := next.Move(action, target);
      if refusal.Some? {
        return Failure(refusal.value);
      }
      next.current := next.NextPending(current);
      next.RefreshRoundCompletion();
      return Success(next);
    }

    method OpenStreet(nextStreet: Street, first: int)
      requires 0 <= first < |seats|
      modifies this
      ensures Value() == StreetOpened(old(Value()), nextStreet, first)
    {
      street, bet, minRaise, aggressor := nextStreet, 0, bigBlind, -1;
      for seat := 0 to |seats|
        invariant |seats| == old(|seats|)
        invariant Value() == old(Value()).(
                    seats := seats, street := nextStreet, bet := 0, minRaise := old(bigBlind), aggressor := -1)
        invariant forall i :: 0 <= i < seat ==> seats[i] == FreshSeat(old(seats[i]))
        invariant forall i :: seat <= i < |seats| ==> seats[i] == old(seats[i])
      {
        var actionable := seats[seat].Actionable();
        seats := seats[seat := seats[seat].(
            street := 0, pending := actionable, mayRaise := actionable, hasActed := false, betFaced := 0)];
      }
      assert seats == FreshSeats(old(seats));
      current := NextPending(first - 1);
    }

    method BeginNextStreet(nextStreet: Street, first: int) returns (r: Result<FixedState, BettingError>)
      ensures r.Success? <==> MultiwayBetting.BeginNextStreet(Value(), nextStreet, first).Success?
      ensures r.Success? ==>
                fresh(r.value) && r.value.Value() == MultiwayBetting.BeginNextStreet(Value(), nextStreet, first).value
      ensures r.Failure? ==> r.error == MultiwayBetting.BeginNextStreet(Value(), nextStreet, first).error
    {
      var valid := CheckValid();
      if !valid {
        return Failure(InvalidState);
      }
      var kind := NextKind();
      if kind != StreetTransition || nextStreet.Showdown?
         || StreetIndex(nextStreet) != StreetIndex(street) + 1 || first < 0 || first >= |seats| {
        return Failure(InvalidTransition);
      }
      var next := new FixedState.CopyOf(this);
      next.OpenStreet(nextStreet, first);
      next.RefreshRoundCompletion();
      return Success(next);
    }
  }

  lemma MovedKeepsSelection(t: Table, action: Action, target: int)
    requires 0 <= t.current < |t.seats|
    ensures Moved(t, action, target).current == t.current && |Moved(t, action, target).seats| == |t.seats|
  {
    hide Pay, Acted;
  }

  method MakeFixedState(config: GameConfig) returns (r: Result<FixedState, BettingError>)
    ensures r.Success? <==> Root(config).Success?
    ensures r.Success? ==> fresh(r.value) && r.value.Value() == Root(config).value
    ensures r.Failure? ==> r.error == Root(config).error
  {
    hide Refresh, NextPendingAfter, HighestStreet, RootSeat;
    if !config.Valid() {
      return Failure(InvalidConfig);
    }
    var seats, bet := SeatUp(config);
    var state := new FixedState(seats, config.firstPlayer, -1, bet, config.bigBlind, config.bigBlind, config.street);
    state.current := state.NextPending(config.firstPlayer - 1);
    state.RefreshRoundCompletion();
    return Success(state);
  }

  /** The seat loop of make_multiway_fixed_state: seats filled in, the bet raised to the largest street total. */
  method SeatUp(config: GameConfig) returns (seats: seq<Seat>, bet: int)
    requires config.Valid()
    ensures seats == RootSeats(config) && bet == HighestStreet(seats)
  {
    hide RootSeat;
    ghost var all := RootSeats(config);
    seats, bet := [], 0;
    for seat := 0 to |config.startingStacks|
      invariant |seats| == seat && seats == all[..seat] && bet == HighestStreet(seats)
    {
      var s := RootSeat(config, seat);
      assert (seats + [s])[..seat] == seats;
      seats := seats + [s];
      bet := Max(bet, RootSeat(config, seat).street);
    }
    assert all[..|all|] == all;
  }
}
