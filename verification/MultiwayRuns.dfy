/**
 Statements about whole runs: from the blind-posted rules root the vector machine mirrors the
 fixed one on every list of events, raise rights follow the betting actually seen, and closed
 rounds are matched.
 */
module MultiwayRuns {
  import opened Arithmetic
  import opened Wrappers
  import opened CommonTypes
  import opened MultiwayBetting
  import opened MultiwayInvariant
  import opened MultiwayProgress
  import opened MultiwaySnapshot

  // ---------------------------------------------------------------- equal stacks

  ghost predicate EqualStacks(t: Table, stack: int) {
    forall i :: 0 <= i < |t.seats| ==> t.seats[i].stack + t.seats[i].total == stack
  }

  /** With equal stacks an all-in seat has put in the most possible, so nobody behind has matched it. */
  lemma MatchedSeatHasNoAllInOpponent(t: Table, level: int, stack: int, i: nat, j: nat)
    requires Inv(t, level) && EqualStacks(t, stack)
    requires i < |t.seats| && j < |t.seats|
    requires t.seats[i].Actionable() && t.seats[i].street == t.bet && !t.seats[j].folded
    ensures t.seats[j].Actionable()
  {
    assert SeatInv(t, t.seats[i], level) && SeatInv(t, t.seats[j], level);
  }

  lemma EqualStacksNotStranded(t: Table, level: int, stack: int)
    requires Inv(t, level) && EqualStacks(t, stack)
    ensures !Stranded(t)
  {
    if i, j, k :| 0 <= i < |t.seats| && t.seats[i].Actionable() && t.seats[i].street == t.bet
                  && 0 <= j < k < |t.seats| && !t.seats[j].folded && !t.seats[k].folded {
      MatchedSeatHasNoAllInOpponent(t, level, stack, i, j);
      MatchedSeatHasNoAllInOpponent(t, level, stack, i, k);
    }
  }

  lemma {:induction false} EqualStacksNeverStranded(root: Table, events: seq<Event>, level: int, stack: int)
    requires Inv(root, level) && EqualStacks(root, stack)
    ensures NeverStranded(root, events)
  {
    if events != [] {
      EqualStacksNeverStranded(root, events[..|events| - 1], level, stack);
    }
    if Run(root, events).Success? {
      var last := RunKeeps(root, events, level);
      RunKeepsChips(root, events);
      EqualStacksNotStranded(Run(root, events).value, last, stack);
    }
  }

  // ---------------------------------------------------------------- the rules root

  lemma BlindConfigIsValid(rules: Rules, first: int)
    requires BlindConfig(rules, first).Success?
    ensures BlindConfig(rules, first).value.Valid() && LevelConfig(BlindConfig(rules, first).value, 0)
  {
  }

  lemma {:induction false} SumOfEqualChips(seats: seq<Seat>, stack: int)
    requires forall i :: 0 <= i < |seats| ==> seats[i].stack + seats[i].total == stack
    ensures SumChips(seats) == |seats| * stack
  {
    if seats != [] {
      SumOfEqualChips(seats[..|seats| - 1], stack);
    }
  }

  lemma RefreshKeepsChips(t: Table)
    ensures |Refresh(t).seats| == |t.seats|
    ensures Refresh(t).bigBlind == t.bigBlind && Refresh(t).minRaise == t.minRaise
    ensures forall i :: 0 <= i < |t.seats| ==> Clear(Refresh(t).seats[i]) == Clear(t.seats[i])
  {
  }

  /** Where runs start: every seat has the same chips and nothing from earlier streets. */
  lemma RulesRootInvariant(rules: Rules, first: int)
    requires rules.Valid() && 0 <= first < rules.playerCount
    ensures RulesRoot(rules, first).Success?
    ensures var root := RulesRoot(rules, first).value;
            && |root.seats| == rules.playerCount
            && Inv(root, 0) && EqualStacks(root, rules.initialStack)
            && root.bigBlind == root.minRaise == rules.bigBlind
  {
    var config := BlindConfig(rules, first).value;
    BlindConfigIsValid(rules, first);
    RootKeeps(config, 0);
    RefreshKeepsChips(Dealt(config));
    var root := Root(config).value;
    forall i | 0 <= i < |root.seats|
      ensures root.seats[i].stack + root.seats[i].total == rules.initialStack
    {
      assert Clear(root.seats[i]) == Clear(Dealt(config).seats[i]);
      assert Dealt(config).seats[i] == RootSeat(config, i);
    }
  }

  lemma TwiceAtMost(n: int, x: nat)
    requires n >= 2
    ensures 2 * x <= n * x
  {
    ProductAtLeast(n - 1, x);
    assert n * x == (n - 1) * x + x;
  }

  lemma RulesRootBounded(rules: Rules, first: int)
    requires rules.Valid() && 0 <= first < rules.playerCount
    requires rules.playerCount * rules.initialStack <= INT_MAX
    ensures RulesRoot(rules, first).Success? && Bounded(RulesRoot(rules, first).value, rules.initialStack)
  {
    RulesRootInvariant(rules, first);
    var root := RulesRoot(rules, first).value;
    SumOfEqualChips(root.seats, rules.initialStack);
    TwiceAtMost(rules.playerCount, rules.initialStack);
  }

  /**
   From the blind-posted root of any rules profile, and for every list of events, the vector machine
   and the fixed machine give the same table or the same refusal; every table reached passes the full
   snapshot check, and restoring it changes nothing.
   */
  lemma VectorMirrorsFromRules(rules: Rules, first: int, events: seq<Event>)
    requires rules.Valid() && 0 <= first < rules.playerCount
    requires rules.playerCount * rules.initialStack <= INT_MAX
    ensures RulesRoot(rules, first).Success?
    ensures VectorRoot(BlindConfig(rules, first).value) == RulesRoot(rules, first)
    ensures var root := RulesRoot(rules, first).value;
            && VectorRun(root, events) == Run(root, events)
            && (Run(root, events).Success? ==>
                  SnapshotValid(Run(root, events).value) && Refresh(Run(root, events).value) == Run(root, events).value)
  {
    hide Inv, Bounded, Stranded, SnapshotValid, FixedValid, Refresh, Run, VectorRun, EqualStacks, BlindConfig, Root;
    RulesRootInvariant(rules, first);
    RulesRootBounded(rules, first);
    var root := RulesRoot(rules, first).value;
    EqualStacksNotStranded(root, 0, rules.initialStack);
    InvIsValid(root, 0);
    SnapshotValidExactly(root, 0, rules.initialStack);
    RefreshIsNoOp(root, 0);
    EqualStacksNeverStranded(root, events, 0, rules.initialStack);
    RunMirrorsExactly(root, events, 0, rules.initialStack);
    if Run(root, events).Success? {
      var last := RunKeepsBounded(root, events, 0, rules.initialStack);
      RunKeepsChips(root, events);
      EqualStacksNotStranded(Run(root, events).value, last, rules.initialStack);
      SnapshotValidExactly(Run(root, events).value, last, rules.initialStack);
      RefreshIsNoOp(Run(root, events).value, last);
    }
  }

  const SHORT_BLIND := Seat(30, 50, 50, false, false, true, true, false, 0)
  const BIG_BLIND := Seat(900, 100, 100, false, false, true, true, false, 0)
  const SHORT_CALLED := Seat(0, 80, 80, false, true, false, false, true, 100)
  const SHORT_CONFIG := GameConfig([80, 1000], [50, 100], [50, 100], 0, 100, Preflop)
  const SHORT_ROOT := Table([SHORT_BLIND, BIG_BLIND], 0, -1, 100, 100, 100, Preflop)
  const SHORT_STRANDED := Table([SHORT_CALLED, BIG_BLIND], -1, -1, 100, 100, 100, Preflop)

  lemma ShortConfigRoot()
    ensures SHORT_CONFIG.Valid() && Root(SHORT_CONFIG) == Success(SHORT_ROOT)
  {
    assert RootSeats(SHORT_CONFIG) == [SHORT_BLIND, BIG_BLIND];
    assert [SHORT_BLIND, BIG_BLIND][..1] == [SHORT_BLIND];
    assert HighestStreet([SHORT_BLIND]) == 50;
    assert HighestStreet([SHORT_BLIND, BIG_BLIND]) == 100;
    assert !SHORT_ROOT.seats[0].folded && !SHORT_ROOT.seats[1].folded;
  }

  lemma ShortCallClosesTheRound()
    ensures Step(SHORT_ROOT, Decision(0, Call, 0)) == Success(SHORT_STRANDED)
    ensures Stranded(SHORT_STRANDED)
  {
    var moved := SHORT_STRANDED.(current := 0);
    assert !SHORT_ROOT.seats[0].folded && !SHORT_ROOT.seats[1].folded;
    assert !moved.seats[0].folded && !moved.seats[1].folded && moved.seats[1].Actionable();
    assert Moved(SHORT_ROOT, Call, 0) == moved;
    assert PassTurn(moved) == SHORT_STRANDED;
  }

  lemma ShortRootBounded()
    ensures LevelConfig(SHORT_CONFIG, 0) && Bounded(SHORT_ROOT, 1000) && !Stranded(SHORT_ROOT)
  {
    assert [SHORT_BLIND, BIG_BLIND][..1] == [SHORT_BLIND];
    assert SumChips([SHORT_BLIND]) == 80;
    assert SHORT_ROOT.seats[0].Actionable() && SHORT_ROOT.seats[1].Actionable();
  }

  /** A step that strands a seat is the step the vector machine refuses. */
  lemma StrandingStepIsRefused(config: GameConfig, root: Table, event: Event, next: Table, level: int, cap: int)
    requires config.Valid() && LevelConfig(config, level) && Root(config) == Success(root)
    requires Bounded(root, cap) && !Stranded(root)
    requires Step(root, event) == Success(next) && Stranded(next)
    ensures VectorStep(root, event) == Failure(InvalidSnapshot)
  {
    RootKeeps(config, level);
    StepMirrors(root, event, level, cap);
  }

  /** Unequal stacks break the mirror: a short all-in call of the big blind, and the vector machine refuses. */
  lemma ShortCallStrandsTheBigBlind()
    ensures SHORT_CONFIG.Valid() && LevelConfig(SHORT_CONFIG, 0) && Root(SHORT_CONFIG) == Success(SHORT_ROOT)
    ensures Run(SHORT_ROOT, [Decision(0, Call, 0)]) == Success(SHORT_STRANDED)
    ensures VectorRun(SHORT_ROOT, [Decision(0, Call, 0)]) == Failure(InvalidSnapshot)
  {
    var event := Decision(0, Call, 0);
    ShortConfigRoot();
    ShortCallClosesTheRound();
    ShortRootBounded();
    StrandingStepIsRefused(SHORT_CONFIG, SHORT_ROOT, event, SHORT_STRANDED, 0, 1000);
    assert [event][..0] == [];
    assert Run(SHORT_ROOT, []) == Success(SHORT_ROOT);
    assert VectorRun(SHORT_ROOT, []) == Success(SHORT_ROOT);
  }

  // ---------------------------------------------------------------- raise rights follow the betting seen

  /** The bet on the table just after `seat` last acted on the current street, from the events alone. */
  ghost function ObservedBet(root: Table, events: seq<Event>, seat: int): Option<int>
    requires Run(root, events).Success?
  {
    if events == [] then None
    else
      match events[|events| - 1]
      case StreetStart(_, _) => None
      case Decision(actor, _, _) =>
        if actor == seat then Some(Run(root, events).value.bet)
        else ObservedBet(root, events[..|events| - 1], seat)
  }

  ghost predicate Remembers(s: Seat, observed: Option<int>) {
    && (s.hasActed <==> observed.Some?)
    && (observed.Some? ==> s.betFaced == observed.value)
  }

  lemma MovedRecords(t: Table, action: Action, target: int)
    requires 0 <= t.current < |t.seats|
    ensures Moved(t, action, target).seats[t.current].hasActed
    ensures Moved(t, action, target).seats[t.current].betFaced == Moved(t, action, target).bet
  {
  }

  lemma ApplyRecords(t: Table, action: Action, target: int, seat: int)
    requires Apply(t, action, target).Success? && 0 <= seat < |t.seats|
    ensures var next := Apply(t, action, target).value;
            && |next.seats| == |t.seats|
            && if seat == t.current then next.seats[seat].hasActed && next.seats[seat].betFaced == next.bet
               else next.seats[seat].hasActed == t.seats[seat].hasActed
                    && next.seats[seat].betFaced == t.seats[seat].betFaced
  {
    MovedFrame(t, action, target);
    MovedRecords(t, action, target);
    PassTurnFrame(Moved(t, action, target));
    if seat != t.current {
      assert Clear(Moved(t, action, target).seats[seat]) == Clear(t.seats[seat]);
    }
  }

  lemma RunKeepsSeats(root: Table, events: seq<Event>)
    requires Run(root, events).Success?
    ensures |Run(root, events).value.seats| == |root.seats|
  {
    RunKeepsChips(root, events);
  }

  lemma {:induction false} RunRemembers(root: Table, events: seq<Event>, seat: int)
    requires Run(root, events).Success? && 0 <= seat < |root.seats|
    requires NobodyActed(root.seats)
    ensures |Run(root, events).value.seats| == |root.seats|
    ensures Remembers(Run(root, events).value.seats[seat], ObservedBet(root, events, seat))
  {
    RunKeepsSeats(root, events);
    if events != [] {
      var front := events[..|events| - 1];
      RunRemembers(root, front, seat);
      match events[|events| - 1]
      case Decision(actor, action, target) => ApplyRecords(Run(root, front).value, action, target, seat);
      case StreetStart(next, first) =>
        var t := Run(root, front).value;
        RefreshKeepsChips(StreetOpened(t, next, first));
        assert Clear(Run(root, events).value.seats[seat]) == Clear(FreshSeat(t.seats[seat]));
    }
  }

  /**
   On every run from a root whose seats had put in equally before, a seat that owes a response may
   raise exactly when it has not acted this street or the bet has grown by a full raise since it did,
   however many short all-ins that took; and when no seat is selected, every seat that can act has
   matched the bet.
   */
  lemma RaiseRightsOverRuns(config: GameConfig, events: seq<Event>, level: int, seat: int)
    requires config.Valid() && LevelConfig(config, level)
    requires Run(Root(config).value, events).Success?
    requires 0 <= seat < |config.startingStacks|
    ensures var root, t := Root(config).value, Run(Root(config).value, events).value;
            && |t.seats| == |config.startingStacks|
            && (t.seats[seat].pending ==>
                  (t.seats[seat].mayRaise <==>
                     match ObservedBet(root, events, seat)
                     case None => true
                     case Some(faced) => t.bet - faced >= t.minRaise))
            && (t.current < 0 && t.seats[seat].Actionable() ==> t.seats[seat].street == t.bet)
            && (!t.seats[seat].pending ==> !t.seats[seat].mayRaise)
  {
    RootKeeps(config, level);
    var root := Root(config).value;
    RefreshKeepsChips(Dealt(config));
    forall i | 0 <= i < |root.seats|
      ensures !root.seats[i].hasActed
    {
      assert Clear(root.seats[i]) == Clear(RootSeat(config, i));
    }
    RunRemembers(root, events, seat);
    var last := RunKeeps(root, events, level);
    assert SeatInv(Run(root, events).value, Run(root, events).value.seats[seat], last);
  }
}
