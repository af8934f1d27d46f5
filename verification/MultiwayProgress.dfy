/**
 Menus that are exact, runs that are never stuck, and runs that are finite with a bound
 linear in the chips behind.
 */
module MultiwayProgress {
  import opened Arithmetic
  import opened Wrappers
  import opened CommonTypes
  import opened MultiwayBetting
  import opened MultiwayInvariant

  // ---------------------------------------------------------------- the menu is exact

  predicate Sized(action: Action) {
    action.Bet? || action.Raise?
  }

  /** At least a full raise over the bet and short of all-in. */
  predicate RaiseTarget(t: Table, target: int)
    requires 0 <= t.current < |t.seats|
  {
    t.bet + t.minRaise <= target < t.seats[t.current].street + t.seats[t.current].stack
  }

  /**
   A decision always has an action, every listed action without a size is accepted, and a
   sized action is accepted exactly for targets from a full raise to just under all-in.
   */
  lemma MenuIsExact(t: Table, level: int, action: Action, target: int)
    requires Inv(t, level) && t.current >= 0
    ensures LegalActions(t) != []
    ensures Apply(t, action, target).Success? <==>
              && action in LegalActions(t)
              && (Sized(action) ==> RaiseTarget(t, target))
  {
    InvIsValid(t, level);
    assert SeatInv(t, t.seats[t.current], level);
  }

  /** A sized action is listed exactly when a seat with raise rights and an opponent has a target to name. */
  lemma SizedListedIffTargetExists(t: Table, level: int)
    requires Inv(t, level) && t.current >= 0
    ensures (Bet in LegalActions(t) || Raise in LegalActions(t)) <==>
              && t.seats[t.current].mayRaise && !AtMostOneActionable(t.seats)
              && exists target :: RaiseTarget(t, target)
    ensures !(Bet in LegalActions(t) && Raise in LegalActions(t))
    ensures Bet in LegalActions(t) || Raise in LegalActions(t) ==> AllIn in LegalActions(t)
  {
    var s := t.seats[t.current];
    if s.street + s.stack > t.bet + t.minRaise {
      assert RaiseTarget(t, t.bet + t.minRaise);
    }
  }

  /** Every non-terminal kind of state has an event that the machine accepts. */
  lemma NeverStuck(t: Table, level: int) returns (event: Event)
    requires Inv(t, level)
    requires NextNodeKind(t).BettingDecision? || NextNodeKind(t).StreetTransition?
    ensures Step(t, event).Success?
  {
    InvIsValid(t, level);
    if t.current >= 0 {
      var action := LegalActions(t)[0];
      event := Decision(t.current, action, 0);
      MenuIsExact(t, level, action, 0);
    } else {
      var next := if t.street == Preflop then Flop else if t.street == Flop then Turn else River;
      event := StreetStart(next, 0);
    }
  }

  // ---------------------------------------------------------------- runs are finite

  function Behind(seats: seq<Seat>): int {
    if seats == [] then 0 else Behind(seats[..|seats| - 1]) + seats[|seats| - 1].stack
  }

  /** Streets left plus chips behind, weighted so that either outranks every pending count. */
  function Measure(t: Table): int {
    (StreetIndex(River) - StreetIndex(t.street) + Behind(t.seats)) * (|t.seats| + 1) + CountPending(t.seats)
  }

  lemma {:induction false} BehindDiffers(a: seq<Seat>, b: seq<Seat>, k: nat)
    requires |a| == |b|
    requires forall i :: 0 <= i < |a| && i != k ==> a[i].stack == b[i].stack
    ensures Behind(a) - Behind(b) == if k < |a| then a[k].stack - b[k].stack else 0
  {
    if a != [] {
      BehindDiffers(a[..|a| - 1], b[..|b| - 1], k);
    }
  }

  lemma {:induction false} BehindNonNegative(seats: seq<Seat>)
    requires forall i :: 0 <= i < |seats| ==> seats[i].stack >= 0
    ensures Behind(seats) >= 0
  {
    if seats != [] {
      BehindNonNegative(seats[..|seats| - 1]);
    }
  }

  lemma {:induction false} FewerPending(a: seq<Seat>, b: seq<Seat>, k: nat)
    requires |a| == |b|
    requires forall i :: 0 <= i < |a| && b[i].pending ==> a[i].pending
    ensures CountPending(b) <= CountPending(a)
    ensures k < |a| && a[k].pending && !b[k].pending ==> CountPending(b) < CountPending(a)
  {
    if a != [] {
      FewerPending(a[..|a| - 1], b[..|b| - 1], k);
    }
  }

  /** Passing the turn moves no chips and makes nobody pending. */
  lemma PassTurnFrame(t: Table)
    requires 0 <= t.current < |t.seats|
    ensures var next := PassTurn(t);
            && |next.seats| == |t.seats| && next.street == t.street && next.bet == t.bet
            && next.minRaise == t.minRaise && next.bigBlind == t.bigBlind
            && forall i :: 0 <= i < |t.seats| ==> next.seats[i] == t.seats[i] || next.seats[i] == Clear(t.seats[i])
  {
  }

  lemma RaisedFrame(t: Table, target: int)
    requires 0 <= t.current < |t.seats|
    ensures var next := Raised(t, target);
            && |next.seats| == |t.seats| && next.street == t.street && next.current == t.current
            && next.bigBlind == t.bigBlind && next.bet == target
            && next.minRaise == Max(t.minRaise, target - t.bet)
            && (forall i :: 0 <= i < |t.seats| && i != t.current ==>
                              next.seats[i].(pending := false, mayRaise := false) == Clear(t.seats[i]))
            && Clear(next.seats[t.current])
               == Clear(Pay(t.seats[t.current], target - t.seats[t.current].street))
                  .(hasActed := true, betFaced := target)
  {
  }

  lemma MovedFrame(t: Table, action: Action, target: int)
    requires 0 <= t.current < |t.seats|
    ensures var next := Moved(t, action, target);
            && |next.seats| == |t.seats| && next.street == t.street && next.current == t.current
            && next.bigBlind == t.bigBlind
            && (forall i :: 0 <= i < |t.seats| && i != t.current ==> Clear(next.seats[i]) == Clear(t.seats[i]))
            && next.seats[t.current].stack + next.seats[t.current].total
               == t.seats[t.current].stack + t.seats[t.current].total
  {
    match action
    case Fold =>
    case Check =>
    case Call =>
    case AllIn => RaisedFrame(t, t.seats[t.current].street + t.seats[t.current].stack);
    case _ => RaisedFrame(t, target);
  }

  lemma WeightedDrop(units: int, units': int, n: nat, low: int, low': int)
    requires 0 <= low' <= n && 0 <= low
    requires units' < units || (units' == units && low' < low)
    ensures units' * (n + 1) + low' < units * (n + 1) + low
  {
    if units' < units {
      ProductAtLeast(units - units', n + 1);
      assert (units - units') * (n + 1) == units * (n + 1) - units' * (n + 1);
    }
  }

  lemma SpendsChips(t: Table, action: Action, target: int, level: int)
    requires Inv(t, level) && t.current >= 0 && Sensible(t, action, target)
    ensures action.Fold? || action.Check? ==>
              && Moved(t, action, target).seats[t.current].stack == t.seats[t.current].stack
              && !Moved(t, action, target).seats[t.current].pending
              && forall i :: 0 <= i < |t.seats| && i != t.current ==> Moved(t, action, target).seats[i] == t.seats[i]
    ensures !action.Fold? && !action.Check? ==>
              Moved(t, action, target).seats[t.current].stack < t.seats[t.current].stack
  {
    assert SeatInv(t, t.seats[t.current], level);
  }

  /** What one accepted action does to the quantities in the measure. */
  lemma ApplyEffect(t: Table, action: Action, target: int, level: int)
    requires Inv(t, level)
    requires Apply(t, action, target).Success?
    ensures t.current >= 0
    ensures var next := Apply(t, action, target).value; var k := t.current;
            && |next.seats| == |t.seats| && next.street == t.street
            && (forall i :: 0 <= i < |t.seats| && i != k ==> next.seats[i].stack == t.seats[i].stack)
            && (action.Fold? || action.Check? ==>
                  && next.seats[k].stack == t.seats[k].stack && t.seats[k].pending && !next.seats[k].pending
                  && forall i :: 0 <= i < |t.seats| && next.seats[i].pending ==> t.seats[i].pending)
            && (!action.Fold? && !action.Check? ==> next.seats[k].stack < t.seats[k].stack)
  {
    AcceptedIsSensible(t, action, target, level);
    SpendsChips(t, action, target, level);
    var moved := Moved(t, action, target);
    MovedFrame(t, action, target);
    PassTurnFrame(moved);
    var next := PassTurn(moved);
    forall i | 0 <= i < |t.seats|
      ensures next.seats[i].stack == moved.seats[i].stack
      ensures i != t.current ==> moved.seats[i].stack == t.seats[i].stack
      ensures next.seats[i].pending ==> moved.seats[i].pending
    {
      assert i != t.current ==> Clear(moved.seats[i]) == Clear(t.seats[i]);
    }
  }

  lemma MeasureDrops(a: Table, b: Table)
    requires |a.seats| == |b.seats|
    requires var units := StreetIndex(River) - StreetIndex(a.street) + Behind(a.seats);
             var units' := StreetIndex(River) - StreetIndex(b.street) + Behind(b.seats);
             units' < units || (units' == units && CountPending(b.seats) < CountPending(a.seats))
    ensures Measure(b) < Measure(a)
  {
    WeightedDrop(StreetIndex(River) - StreetIndex(a.street) + Behind(a.seats),
                 StreetIndex(River) - StreetIndex(b.street) + Behind(b.seats),
                 |a.seats|, CountPending(a.seats), CountPending(b.seats));
  }

  lemma ApplyDecreases(t: Table, action: Action, target: int, level: int)
    requires Inv(t, level)
    requires Apply(t, action, target).Success?
    ensures Measure(Apply(t, action, target).value) < Measure(t)
  {
    ApplyEffect(t, action, target, level);
    var next := Apply(t, action, target).value;
    BehindDiffers(t.seats, next.seats, t.current);
    if action.Fold? || action.Check? {
      FewerPending(t.seats, next.seats, t.current);
    }
    MeasureDrops(t, next);
  }

  lemma StreetFrame(t: Table, next: Street, first: int)
    requires BeginNextStreet(t, next, first).Success?
    ensures var after := BeginNextStreet(t, next, first).value;
            && |after.seats| == |t.seats| && after.street == next && StreetIndex(next) == StreetIndex(t.street) + 1
            && after.bigBlind == t.bigBlind
            && forall i :: 0 <= i < |t.seats| ==>
                             after.seats[i].stack == t.seats[i].stack && after.seats[i].total == t.seats[i].total
  {
  }

  lemma StreetDecreases(t: Table, next: Street, first: int)
    requires BeginNextStreet(t, next, first).Success?
    ensures Measure(BeginNextStreet(t, next, first).value) < Measure(t)
  {
    var after := BeginNextStreet(t, next, first).value;
    StreetFrame(t, next, first);
    BehindDiffers(t.seats, after.seats, |t.seats|);
    MeasureDrops(t, after);
  }

  /** Every accepted event, decision or street, lowers the measure. */
  lemma StepDecreases(t: Table, event: Event, level: int)
    requires Inv(t, level)
    requires Step(t, event).Success?
    ensures Measure(Step(t, event).value) < Measure(t)
  {
    match event
    case Decision(seat, action, target) => ApplyDecreases(t, action, target, level);
    case StreetStart(next, first) => StreetDecreases(t, next, first);
  }

  lemma MeasureNonNegative(t: Table, level: int)
    requires Inv(t, level)
    ensures Measure(t) >= 0
  {
    forall i | 0 <= i < |t.seats| ensures t.seats[i].stack >= 0 { assert SeatInv(t, t.seats[i], level); }
    BehindNonNegative(t.seats);
    assert BettingStreet(t.street);
    hide Inv, SeatInv, Behind, CountPending;
    var units := StreetIndex(River) - StreetIndex(t.street) + Behind(t.seats);
    assert units >= 0;
    assert units * (|t.seats| + 1) >= 0;
  }

  /** No run is longer than the measure of its root. */
  lemma {:induction false} RunsAreFinite(root: Table, events: seq<Event>, level: int)
    requires Inv(root, level)
    requires Run(root, events).Success?
    ensures 0 <= Measure(Run(root, events).value) <= Measure(root) - |events|
  {
    var last := RunKeeps(root, events, level);
    MeasureNonNegative(Run(root, events).value, last);
    if events != [] {
      var front := events[..|events| - 1];
      RunsAreFinite(root, front, level);
      var before := RunKeeps(root, front, level);
      StepDecreases(Run(root, front).value, events[|events| - 1], before);
    }
  }

  // ---------------------------------------------------------------- chips per seat

  ghost predicate SameChips(a: Table, b: Table) {
    && |a.seats| == |b.seats| && a.bigBlind == b.bigBlind
    && forall i :: 0 <= i < |a.seats| ==> a.seats[i].stack + a.seats[i].total == b.seats[i].stack + b.seats[i].total
  }

  lemma StepKeepsChips(t: Table, event: Event)
    requires Step(t, event).Success?
    ensures SameChips(t, Step(t, event).value)
  {
    match event
    case Decision(seat, action, target) =>
      MovedFrame(t, action, target);
      PassTurnFrame(Moved(t, action, target));
      var moved, next := Moved(t, action, target), PassTurn(Moved(t, action, target));
      forall i | 0 <= i < |t.seats|
        ensures t.seats[i].stack + t.seats[i].total == next.seats[i].stack + next.seats[i].total
      {
        assert i != t.current ==> Clear(moved.seats[i]) == Clear(t.seats[i]);
      }
    case StreetStart(next, first) => StreetFrame(t, next, first);
  }

  /** A seat's stack plus everything it has put in never changes over a run. */
  lemma {:induction false} RunKeepsChips(root: Table, events: seq<Event>)
    requires Run(root, events).Success?
    ensures SameChips(root, Run(root, events).value)
  {
    if events != [] {
      var front := events[..|events| - 1];
      RunKeepsChips(root, front);
      StepKeepsChips(Run(root, front).value, events[|events| - 1]);
    }
  }
}
