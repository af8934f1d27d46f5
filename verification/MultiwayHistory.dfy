/** What the table remembers of the betting, told from the events of a run: the last full raise and who made the bet. */
module MultiwayHistory {
  import opened Wrappers
  import opened CommonTypes
  import opened MultiwayBetting
  import opened MultiwayInvariant
  import opened MultiwayProgress
  import opened MultiwayDecisions

  /** How much the last event raised the bet. */
  ghost function Growth(root: Table, events: seq<Event>): int
    requires events != [] && Run(root, events).Success?
  {
    Run(root, events).value.bet - Run(root, events[..|events| - 1]).value.bet
  }

  /** The size of the last full raise: the big blind when a street starts, then every raise of at least that size. */
  ghost function LastFullRaise(root: Table, events: seq<Event>): int
    requires Run(root, events).Success?
  {
    if events == [] then root.bigBlind
    else
      match events[|events| - 1]
      case StreetStart(_, _) => root.bigBlind
      case Decision(_, _, _) =>
        var before := LastFullRaise(root, events[..|events| - 1]);
        if Growth(root, events) >= before then Growth(root, events) else before
  }

  /** Who last raised the bet on the street, -1 when nobody has. */
  ghost function LastRaiser(root: Table, events: seq<Event>): int
    requires Run(root, events).Success?
  {
    if events == [] then -1
    else
      match events[|events| - 1]
      case StreetStart(_, _) => -1
      case Decision(seat, _, _) =>
        if Growth(root, events) > 0 then seat else LastRaiser(root, events[..|events| - 1])
  }

  lemma {:induction false} RunRemembersRaises(root: Table, events: seq<Event>, level: int) returns (last: int)
    requires Inv(root, level) && root.minRaise == root.bigBlind && root.aggressor == -1
    requires Run(root, events).Success?
    ensures var t := Run(root, events).value;
            && Inv(t, last) && t.bigBlind == root.bigBlind
            && t.minRaise == LastFullRaise(root, events) && t.aggressor == LastRaiser(root, events)
  {
    if events == [] {
      last := level;
    } else {
      var front, event := events[..|events| - 1], events[|events| - 1];
      var before := RunRemembersRaises(root, front, level);
      var t := Run(root, front).value;
      last := StepKeeps(t, event, before);
      hide Apply, BeginNextStreet, Inv, NextNodeKind;
      match event {
        case StreetStart(next, first) => StreetOpensExactly(t, before, next, first);
        case Decision(seat, action, target) => ActionMoves(t, before, action, target);
      }
    }
  }

  /**
   On every run from a root whose seats had put in equally before, the minimum raise is the last full raise of
   the street and the aggressor the seat that last raised, both told from the events.
   */
  lemma RaisesOverRuns(config: GameConfig, events: seq<Event>, level: int)
    requires config.Valid() && LevelConfig(config, level)
    requires Run(Root(config).value, events).Success?
    ensures var root, t := Root(config).value, Run(Root(config).value, events).value;
            t.minRaise == LastFullRaise(root, events) && t.aggressor == LastRaiser(root, events)
  {
    RootExactly(config, level);
    RootKeeps(config, level);
    hide Root, Run, MustSpeak, SeatDealt;
    var last := RunRemembersRaises(Root(config).value, events, level);
  }

  /** A seat that opens the betting of a street with somebody to raise. */
  lemma OpeningBet(t: Table, level: int, target: int)
    requires Inv(t, level) && 0 <= t.current && OtherCanAct(t)
    requires t.bet == 0 && t.seats[t.current].street == 0 && !t.seats[t.current].hasActed
    ensures Apply(t, Bet, target).Success? <==> t.minRaise <= target < t.seats[t.current].stack
  {
    AcceptedExactly(t, level, Bet, target);
    hide Inv, Apply, OtherCanAct, OpensHand, LegalActions;
  }

  /** The seat a street opens with: nothing in, nothing said, and somebody else able to act. */
  lemma OpensUnspoken(t: Table, level: int, street: Street, first: int)
    requires Inv(t, level) && BeginNextStreet(t, street, first).Success?
    ensures var next := BeginNextStreet(t, street, first).value;
            && 0 <= next.current < |next.seats| && next.bet == 0 && next.minRaise == t.bigBlind
            && next.seats[next.current].street == 0 && !next.seats[next.current].hasActed && OtherCanAct(next)
  {
    StreetOpensExactly(t, level, street, first);
    var next := BeginNextStreet(t, street, first).value;
    var i, j :| 0 <= i < j < |t.seats| && t.seats[i].Actionable() && t.seats[j].Actionable();
    hide BeginNextStreet, Inv, Place, TwoLive;
    var other := if i == next.current then j else i;
    assert SeatOpened(t.seats[other], next.seats[other]);
    assert SeatOpened(t.seats[next.current], next.seats[next.current]);
  }

  /** The first bet of a street may be any amount from the big blind to just under all in. */
  lemma FirstBetExactly(t: Table, level: int, street: Street, first: int, target: int)
    requires Inv(t, level) && BeginNextStreet(t, street, first).Success?
    ensures var next := BeginNextStreet(t, street, first).value;
            && 0 <= next.current < |next.seats|
            && (Apply(next, Bet, target).Success? <==> t.bigBlind <= target < next.seats[next.current].stack)
  {
    hide *;
    OpensUnspoken(t, level, street, first);
    BeginNextStreetKeeps(t, street, first, level);
    OpeningBet(BeginNextStreet(t, street, first).value, level + t.bet, target);
  }
}
