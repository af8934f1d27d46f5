/**
 The validated snapshot, the vector machine that passes through it on every operation, and
 when that machine mirrors the fixed one.
 */
module MultiwaySnapshot {
  import opened Wrappers
  import opened CommonTypes
  import opened MultiwayBetting
  import opened MultiwayInvariant
  import opened MultiwayProgress

  function SumTotals(seats: seq<Seat>): int {
    if seats == [] then 0 else SumTotals(seats[..|seats| - 1]) + seats[|seats| - 1].total
  }

  function SumChips(seats: seq<Seat>): int {
    if seats == [] then 0
    else SumChips(seats[..|seats| - 1]) + seats[|seats| - 1].stack + seats[|seats| - 1].total
  }

  predicate SnapshotSeatValid(s: Seat, bet: int, minRaise: int) {
    && FixedSeatValid(s)
    && 0 <= s.betFaced <= bet
    && s.stack + s.total <= INT_MAX
    && (s.Actionable() ==>
          && (s.street < bet ==> s.pending)
          && (s.pending ==> !(s.hasActed && s.street == bet) && s.mayRaise == RaiseRight(s, bet, minRaise))
          && (!s.pending ==> !s.mayRaise))
  }

  /** MultiwayBettingSnapshot::validate, for the seats' fields kept as one record per seat. */
  predicate SnapshotValid(t: Table) {
    && FixedValid(t)
    && (forall i :: 0 <= i < |t.seats| ==> SnapshotSeatValid(t.seats[i], t.bet, t.minRaise))
    && SumTotals(t.seats) <= INT_MAX
    && HighestStreet(t.seats) == t.bet
    && t.bet + t.minRaise <= INT_MAX
    && (!AtMostOneActionable(t.seats) ==>
          forall i :: 0 <= i < |t.seats| && t.seats[i].Actionable() ==> t.seats[i].hasActed || t.seats[i].pending)
    && (t.current >= 0 ==> t.seats[t.current].OwesResponse())
    && (t.current < 0 ==> forall i :: 0 <= i < |t.seats| ==> !t.seats[i].OwesResponse())
  }

  /** The chip totals stay within the integer range the snapshot accepts. */
  ghost predicate Bounded(t: Table, cap: int) {
    && 0 < t.bigBlind <= cap && t.minRaise <= cap && 2 * cap <= INT_MAX
    && (forall i :: 0 <= i < |t.seats| ==> t.seats[i].stack + t.seats[i].total <= cap)
    && SumChips(t.seats) <= INT_MAX
  }

  // ---------------------------------------------------------------- exactly when a snapshot is valid

  /**
   Two seats are live, one alone can still act, and it has matched the bet without having acted:
   a forced bet that a shorter all-in stack did not raise.
   */
  predicate Stranded(t: Table) {
    && !AtMostOneLive(t.seats) && AtMostOneActionable(t.seats)
    && exists i :: 0 <= i < |t.seats| && t.seats[i].Actionable() && !t.seats[i].hasActed && t.seats[i].street == t.bet
  }

  lemma {:induction false} TotalsWithinChips(seats: seq<Seat>)
    requires forall i :: 0 <= i < |seats| ==> seats[i].stack >= 0
    ensures SumTotals(seats) <= SumChips(seats)
  {
    if seats != [] {
      TotalsWithinChips(seats[..|seats| - 1]);
    }
  }

  lemma BetIsHighest(t: Table, level: int)
    requires Inv(t, level)
    ensures HighestStreet(t.seats) == t.bet
  {
    var h :| 0 <= h < |t.seats| && Holds(t, t.seats[h], level);
    assert SeatInv(t, t.seats[h], level);
    if HighestStreet(t.seats) != 0 {
      var i :| 0 <= i < |t.seats| && t.seats[i].street == HighestStreet(t.seats);
      assert SeatInv(t, t.seats[i], level);
    }
  }

  lemma SeatsAreValid(t: Table, level: int)
    requires Inv(t, level)
    ensures forall i :: 0 <= i < |t.seats| ==>
                          (SnapshotSeatValid(t.seats[i], t.bet, t.minRaise) <==>
                             t.seats[i].stack + t.seats[i].total <= 0x7fff_ffff)
  {
    forall i | 0 <= i < |t.seats|
      ensures SnapshotSeatValid(t.seats[i], t.bet, t.minRaise) <==> t.seats[i].stack + t.seats[i].total <= 0x7fff_ffff
    {
      assert SeatInv(t, t.seats[i], level);
    }
  }

  lemma BoundedFits(t: Table, level: int, cap: int)
    requires Inv(t, level) && Bounded(t, cap)
    ensures forall i :: 0 <= i < |t.seats| ==> t.seats[i].stack + t.seats[i].total <= 0x7fff_ffff
    ensures SumTotals(t.seats) <= 0x7fff_ffff && t.bet + t.minRaise <= 0x7fff_ffff
  {
    forall i | 0 <= i < |t.seats| ensures t.seats[i].stack >= 0 {
      assert SeatInv(t, t.seats[i], level);
    }
    TotalsWithinChips(t.seats);
    var h :| 0 <= h < |t.seats| && Holds(t, t.seats[h], level);
    assert SeatInv(t, t.seats[h], level);
  }

  /** When one seat alone can act, no seat is selected exactly when that seat is stranded or has settled. */
  lemma OpenWithoutActorIsStranded(t: Table, level: int)
    requires Inv(t, level)
    ensures Stranded(t) <==> t.current < 0 && exists i :: 0 <= i < |t.seats| && t.seats[i].OwesResponse()
  {
    if Stranded(t) {
      var i :| 0 <= i < |t.seats| && t.seats[i].Actionable() && !t.seats[i].hasActed && t.seats[i].street == t.bet;
      assert t.seats[i].OwesResponse();
    }
    if t.current < 0 && exists i :: 0 <= i < |t.seats| && t.seats[i].OwesResponse() {
      var i :| 0 <= i < |t.seats| && t.seats[i].OwesResponse();
      assert SeatInv(t, t.seats[i], level);
      assert t.seats[i].street == t.bet && !t.seats[i].hasActed;
    }
  }

  /**
   Of all the clauses of the snapshot check, a table that betting leaves can break only these: somebody is
   stranded, or a sum of chips does not fit a 32-bit integer.
   */
  lemma SnapshotFitsExactly(t: Table, level: int)
    requires Inv(t, level)
    ensures SnapshotValid(t) <==>
            && !Stranded(t) && (forall i :: 0 <= i < |t.seats| ==> t.seats[i].stack + t.seats[i].total <= 0x7fff_ffff)
            && SumTotals(t.seats) <= 0x7fff_ffff && t.bet + t.minRaise <= 0x7fff_ffff
  {
    InvIsValid(t, level);
    SeatsAreValid(t, level);
    BetIsHighest(t, level);
    OpenWithoutActorIsStranded(t, level);
    hide SnapshotSeatValid, Stranded;
  }

  /** With bounded chips only the first can happen. */
  lemma SnapshotValidExactly(t: Table, level: int, cap: int)
    requires Inv(t, level) && Bounded(t, cap)
    ensures SnapshotValid(t) <==> !Stranded(t)
  {
    hide SnapshotValid, Stranded, Inv, Bounded;
    SnapshotFitsExactly(t, level);
    BoundedFits(t, level, cap);
  }

  /** Restoring a valid snapshot of a reachable table selects the seat that was already selected. */
  lemma RefreshIsNoOp(t: Table, level: int)
    requires Inv(t, level) && !Stranded(t)
    ensures Refresh(t) == t
  {
    OpenWithoutActorIsStranded(t, level);
    if AtMostOneLive(t.seats) {
      forall i | 0 <= i < |t.seats| ensures Clear(t.seats[i]) == t.seats[i] { assert SeatInv(t, t.seats[i], level); }
      assert Refresh(t).seats == t.seats;
    }
  }

  /**
   What a snapshot is not checked for: every seat able to act has put in `level` before the street, no seat more,
   a live seat holds the bet on top of it, and a seat left alone has been asked.
   */
  ghost predicate LevelSnapshot(t: Table, level: int) {
    && (forall i :: 0 <= i < |t.seats| ==> t.seats[i].total - t.seats[i].street <= level)
    && (forall i :: 0 <= i < |t.seats| && t.seats[i].Actionable() ==>
          t.seats[i].total - t.seats[i].street == level
          && (AtMostOneActionable(t.seats) ==> t.seats[i].hasActed || t.seats[i].pending))
    && HasHolder(t, level)
  }

  /** A snapshot from anywhere that passes the check and is level restores to a table that betting keeps sound. */
  lemma ValidSnapshotKeeps(t: Table, level: int)
    requires SnapshotValid(t) && LevelSnapshot(t, level)
    ensures Inv(Refresh(t), level)
  {
    forall i | 0 <= i < |t.seats|
      ensures SeatInv(t, t.seats[i], level)
      ensures t.seats[i].Actionable() && !t.seats[i].hasActed ==> t.seats[i].pending
    {
      assert SnapshotSeatValid(t.seats[i], t.bet, t.minRaise);
      assert t.seats[i].street <= HighestStreet(t.seats);
    }
    RefreshKeeps(t, level);
  }

  lemma {:induction false} TotalWithin(seats: seq<Seat>, i: nat)
    requires i < |seats| && forall k :: 0 <= k < |seats| ==> seats[k].total >= 0
    ensures 0 <= seats[i].total <= SumTotals(seats)
  {
    var front := seats[..|seats| - 1];
    if i < |front| {
      TotalWithin(front, i);
    } else if front != [] {
      TotalWithin(front, 0);
    }
  }

  /** No sum that betting forms from a valid snapshot leaves the range of a 32-bit integer. */
  lemma ValidSnapshotFits(t: Table, i: nat)
    requires SnapshotValid(t) && i < |t.seats|
    ensures var s := t.seats[i];
            && 0 <= s.street <= t.bet && s.street <= s.total <= SumTotals(t.seats) <= 0x7fff_ffff
            && 0 <= s.stack && s.stack + s.total <= 0x7fff_ffff && t.bet + t.minRaise <= 0x7fff_ffff
    ensures t.current >= 0 ==> t.current < |t.seats| && t.seats[t.current].OwesResponse()
  {
    assert forall k :: 0 <= k < |t.seats| ==> SnapshotSeatValid(t.seats[k], t.bet, t.minRaise);
    TotalWithin(t.seats, i);
    assert t.seats[i].street <= HighestStreet(t.seats);
  }

  // ---------------------------------------------------------------- the vector machine

  /** from_snapshot(make_multiway_betting_snapshot(next)). */
  function Restore(next: Table): Result<Table, BettingError> {
    if !FixedValid(next) then Failure(InvalidState)
    else if !SnapshotValid(next) then Failure(InvalidSnapshot)
    else Success(Refresh(next))
  }

  function Rethrow(r: Result<Table, BettingError>): Result<Table, BettingError> {
    match r
    case Failure(e) => Failure(e)
    case Success(next) => Restore(next)
  }

  /** MultiwayState::apply. */
  function VectorApply(t: Table, action: Action, target: int): Result<Table, BettingError> {
    if t.current < 0 then Failure(RoundComplete)
    else if !SnapshotValid(t) then Failure(InvalidSnapshot)
    else Rethrow(Apply(t, action, target))
  }

  /** MultiwayState::begin_next_street. */
  function VectorBeginNextStreet(t: Table, next: Street, first: int): Result<Table, BettingError> {
    if !SnapshotValid(t) then Failure(InvalidSnapshot)
    else Rethrow(BeginNextStreet(t, next, first))
  }

  /** MultiwayState::initial. */
  function VectorRoot(config: GameConfig): Result<Table, BettingError> {
    Rethrow(Root(config))
  }

  /** apply_multiway_replay_event. */
  function VectorStep(t: Table, event: Event): Result<Table, BettingError> {
    match event
    case Decision(seat, action, target) =>
      if NextNodeKind(t) != BettingDecision || seat != t.current then Failure(WrongActor)
      else VectorApply(t, action, target)
    case StreetStart(next, first) =>
      if NextNodeKind(t) != StreetTransition then Failure(InvalidTransition)
      else VectorBeginNextStreet(t, next, first)
  }

  function VectorRun(root: Table, events: seq<Event>): Result<Table, BettingError> {
    if events == [] then Success(root)
    else
      match VectorRun(root, events[..|events| - 1])
      case Failure(e) => Failure(e)
      case Success(t) => VectorStep(t, events[|events| - 1])
  }

  // ---------------------------------------------------------------- bounds over runs

  lemma {:induction false} SumChipsFixed(a: seq<Seat>, b: seq<Seat>)
    requires |a| == |b|
    requires forall i :: 0 <= i < |a| ==> a[i].stack + a[i].total == b[i].stack + b[i].total
    ensures SumChips(a) == SumChips(b)
  {
    if a != [] {
      SumChipsFixed(a[..|a| - 1], b[..|b| - 1]);
    }
  }

  lemma ApplyMinRaise(t: Table, action: Action, target: int, level: int, cap: int)
    requires Inv(t, level) && t.minRaise <= cap
    requires forall i :: 0 <= i < |t.seats| ==> t.seats[i].stack + t.seats[i].total <= cap
    requires Apply(t, action, target).Success?
    ensures Apply(t, action, target).value.minRaise <= cap
  {
    AcceptedIsSensible(t, action, target, level);
    PassTurnFrame(Moved(t, action, target));
    assert SeatInv(t, t.seats[t.current], level);
    assert t.seats[t.current].stack + t.seats[t.current].total <= cap;
  }

  lemma StepMinRaise(t: Table, event: Event, level: int, cap: int)
    requires Inv(t, level) && Bounded(t, cap)
    requires Step(t, event).Success?
    ensures Step(t, event).value.minRaise <= cap
  {
    match event
    case Decision(seat, action, target) => ApplyMinRaise(t, action, target, level, cap);
    case StreetStart(next, first) =>
  }

  lemma ChipsKeepBounded(t: Table, next: Table, cap: int)
    requires Bounded(t, cap) && SameChips(t, next) && next.minRaise <= cap
    ensures Bounded(next, cap)
  {
    SumChipsFixed(t.seats, next.seats);
  }

  lemma StepKeepsBounded(t: Table, event: Event, level: int, cap: int)
    requires Inv(t, level) && Bounded(t, cap)
    requires Step(t, event).Success?
    ensures Bounded(Step(t, event).value, cap)
  {
    StepKeepsChips(t, event);
    StepMinRaise(t, event, level, cap);
    ChipsKeepBounded(t, Step(t, event).value, cap);
  }

  lemma {:induction false} RunKeepsBounded(root: Table, events: seq<Event>, level: int, cap: int) returns (last: int)
    requires Inv(root, level) && Bounded(root, cap)
    requires Run(root, events).Success?
    ensures Inv(Run(root, events).value, last) && Bounded(Run(root, events).value, cap)
  {
    if events == [] {
      last := level;
    } else {
      var front, event := events[..|events| - 1], events[|events| - 1];
      var before := RunKeepsBounded(root, front, level, cap);
      StepKeepsBounded(Run(root, front).value, event, before, cap);
      last := StepKeeps(Run(root, front).value, event, before);
    }
  }

  // ---------------------------------------------------------------- mirroring

  /** One event: from a table that is not stranded, the two machines differ only on a stranded successor. */
  lemma StepMirrors(t: Table, event: Event, level: int, cap: int)
    requires Inv(t, level) && Bounded(t, cap) && !Stranded(t)
    ensures Step(t, event).Failure? ==> VectorStep(t, event) == Step(t, event)
    ensures Step(t, event).Success? ==>
              VectorStep(t, event) ==
              if Stranded(Step(t, event).value) then Failure(InvalidSnapshot) else Step(t, event)
  {
    InvIsValid(t, level);
    SnapshotValidExactly(t, level, cap);
    if Step(t, event).Success? {
      var nextLevel := StepKeeps(t, event, level);
      StepKeepsBounded(t, event, level, cap);
      var next := Step(t, event).value;
      InvIsValid(next, nextLevel);
      SnapshotValidExactly(next, nextLevel, cap);
      if !Stranded(next) {
        RefreshIsNoOp(next, nextLevel);
      }
    }
  }

  /** No table on the way through `events`, the root included, is stranded. */
  ghost predicate NeverStranded(root: Table, events: seq<Event>) {
    && (events != [] ==> NeverStranded(root, events[..|events| - 1]))
    && (Run(root, events).Success? ==> !Stranded(Run(root, events).value))
  }

  lemma {:induction false} FixedRunIgnoresSnapshots(root: Table, events: seq<Event>)
    ensures Run(root, events) != Failure(InvalidSnapshot)
  {
    if events != [] {
      FixedRunIgnoresSnapshots(root, events[..|events| - 1]);
    }
  }

  /**
   Over any list of events, accepted or not, the vector machine gives exactly the fixed machine's
   outcome if and only if no table on the way is stranded.
   */
  lemma {:induction false} RunMirrorsExactly(root: Table, events: seq<Event>, level: int, cap: int)
    requires Inv(root, level) && Bounded(root, cap) && !Stranded(root)
    ensures NeverStranded(root, events) <==> VectorRun(root, events) == Run(root, events)
    ensures !NeverStranded(root, events) ==> VectorRun(root, events) == Failure(InvalidSnapshot)
  {
    if events != [] {
      var front, event := events[..|events| - 1], events[|events| - 1];
      RunMirrorsExactly(root, front, level, cap);
      FixedRunIgnoresSnapshots(root, events);
      if NeverStranded(root, front) && Run(root, front).Success? {
        var before := RunKeepsBounded(root, front, level, cap);
        StepMirrors(Run(root, front).value, event, before, cap);
      }
    }
  }
}
