/**
 What a decision, a street transition and a root mean in terms of the seats: which actions are accepted and
 why others are refused, what an accepted one moves, and who speaks next.
 */
module MultiwayDecisions {
  import opened Arithmetic
  import opened Wrappers
  import opened CommonTypes
  import opened MultiwayBetting
  import opened MultiwayInvariant
  import opened MultiwayProgress

  // ---------------------------------------------------------------- which actions are accepted

  ghost predicate OtherCanAct(t: Table) {
    exists j :: 0 <= j < |t.seats| && j != t.current && t.seats[j].Actionable()
  }

  /** The acting seat has not spoken since the bet grew by a full raise, and has somebody to raise. */
  ghost predicate RaiseOpen(t: Table)
    requires 0 <= t.current < |t.seats|
  {
    var s := t.seats[t.current];
    (!s.hasActed || t.bet - s.betFaced >= t.minRaise) && OtherCanAct(t)
  }

  /** The first action of a hand, which bets over the blinds. */
  predicate OpensHand(t: Table) {
    t.street == Preflop && forall j :: 0 <= j < |t.seats| ==> !t.seats[j].hasActed
  }

  /** The rules of a decision, from the seats, the bet and the last full raise. */
  ghost predicate Allowed(t: Table, action: Action, target: int)
    requires 0 <= t.current < |t.seats|
  {
    var s := t.seats[t.current];
    match action
    case Fold => s.street < t.bet
    case Check => s.street == t.bet
    case Call => s.street < t.bet
    case Bet => RaiseOpen(t) && RaiseTarget(t, target) && (s.street == t.bet || OpensHand(t))
    case Raise => RaiseOpen(t) && RaiseTarget(t, target) && s.street < t.bet && !OpensHand(t)
    case AllIn => RaiseOpen(t) && s.street + s.stack > t.bet
  }

  lemma OtherOrAlone(t: Table, level: int)
    requires Inv(t, level) && t.current >= 0
    ensures OtherCanAct(t) <==> !AtMostOneActionable(t.seats)
  {
    assert t.seats[t.current].Actionable();
    if OtherCanAct(t) {
      var j :| 0 <= j < |t.seats| && j != t.current && t.seats[j].Actionable();
      var low, high := Min(j, t.current), Max(j, t.current);
      assert t.seats[low].Actionable() && t.seats[high].Actionable();
    }
  }

  /** An action is accepted exactly when the rules allow it, and listed exactly when they allow it at some target. */
  lemma AcceptedExactly(t: Table, level: int, action: Action, target: int)
    requires Inv(t, level) && t.current >= 0
    ensures Apply(t, action, target).Success? <==> Allowed(t, action, target)
    ensures action in LegalActions(t) <==> exists goal :: Allowed(t, action, goal)
  {
    OtherOrAlone(t, level);
    assert SeatInv(t, t.seats[t.current], level);
    assert OpensHand(t) <==> t.street == Preflop && NobodyActed(t.seats);
    MenuIsExact(t, level, action, target);
    hide Apply, Inv, AtMostOneActionable, OtherCanAct, OpensHand, SeatInv;
    if action in LegalActions(t) {
      assert Allowed(t, action, t.bet + t.minRaise);
    }
  }

  function Rank(action: Action): nat {
    match action
    case Fold => 0
    case Check => 1
    case Call => 2
    case Bet => 3
    case Raise => 4
    case AllIn => 5
  }

  /** The menu names each action once, from folding to all in. */
  lemma MenuInOrder(t: Table, level: int, i: nat, j: nat)
    requires Inv(t, level) && t.current >= 0 && i < j < |LegalActions(t)|
    ensures Rank(LegalActions(t)[i]) < Rank(LegalActions(t)[j])
  {
  }

  /** What the machine answers to an action that is not accepted. */
  lemma RefusedWhy(t: Table, level: int, action: Action, target: int)
    requires Inv(t, level)
    ensures t.current < 0 || (forall goal :: !Allowed(t, action, goal)) ==>
              Apply(t, action, target) == Failure(IllegalAction)
    ensures t.current >= 0 && (exists goal :: Allowed(t, action, goal)) && !Allowed(t, action, target) ==>
              var s := t.seats[t.current];
              Apply(t, action, target) ==
              Failure(if t.bet < target < s.street + s.stack then BelowMinimumRaise else InvalidRaiseTarget)
  {
    InvIsValid(t, level);
    if t.current >= 0 {
      AcceptedExactly(t, level, action, target);
      assert SeatInv(t, t.seats[t.current], level);
      hide LegalActions, FixedValid, Inv, SeatInv, AtMostOneActionable, OtherCanAct, OpensHand, PassTurn, Moved;
      if goal :| Allowed(t, action, goal) {
        assert action in LegalActions(t);
      }
    }
  }

  /** Seat data that no play leaves: chips below zero, a street above its total, or flags that contradict the chips. */
  predicate SeatBroken(s: Seat) {
    || s.stack < 0 || s.total < 0 || s.street < 0 || s.street > s.total || s.allIn != (s.stack == 0)
    || ((s.folded || s.allIn) && (s.mayRaise || s.pending))
  }

  /** A table with data out of range is refused by both operations, whatever is asked of it. */
  lemma BrokenIsRefused(t: Table, action: Action, target: int, street: Street, first: int)
    ensures var n := |t.seats|;
            var broken :=
              || n < 2 || n > 6 || t.bigBlind <= 0 || t.minRaise <= 0 || t.bet < 0 || t.street == Showdown
              || t.current < -1 || t.current >= n || t.aggressor < -1 || t.aggressor >= n
              || exists i :: 0 <= i < n && SeatBroken(t.seats[i]);
            && (broken <==> Apply(t, action, target) == Failure(InvalidState))
            && (broken <==> BeginNextStreet(t, street, first) == Failure(InvalidState))
  {
    hide LegalActions, PassTurn, Moved, NextNodeKind, Refresh, StreetOpened;
    assert forall i :: 0 <= i < |t.seats| ==> (SeatBroken(t.seats[i]) <==> !FixedSeatValid(t.seats[i]));
  }

  // ---------------------------------------------------------------- places round the ring

  /** How many seats clockwise of `origin` seat `x` sits. */
  function Place(origin: nat, x: nat, n: nat): int {
    if x >= origin then x - origin else x + n - origin
  }

  /** The same for the seats after `c`, with `c` itself a full turn away. */
  function Offset(c: nat, x: nat, n: nat): int {
    if x > c then x - c else x + n - c
  }

  lemma {:induction false} NextIsFirst(seats: seq<Seat>, player: int, offset: nat, y: nat)
    requires -1 <= player < |seats| && 1 <= offset <= |seats| + 1 && y < |seats|
    requires seats[y].OwesResponse() && Clockwise(player, y, |seats|) >= offset
    ensures var r := NextPendingFrom(seats, player, offset);
            r >= 0 && Clockwise(player, r, |seats|) <= Clockwise(player, y, |seats|)
    decreases |seats| + 1 - offset
  {
    if !seats[SeatAfter(player, offset, |seats|)].OwesResponse() {
      NextIsFirst(seats, player, offset + 1, y);
    }
  }

  /** Offset from a seat, or from just before seat 0. */
  function Clockwise(player: int, x: nat, n: nat): int {
    if x > player then x - player else x + n - player
  }

  /** The turn passes to the first seat clockwise that owes a response. */
  lemma TurnPassesInOrder(t: Table, y: nat)
    requires 0 <= t.current < |t.seats| && y < |t.seats|
    requires PassTurn(t).current >= 0 && PassTurn(t).seats[y].OwesResponse()
    ensures Offset(t.current, PassTurn(t).current, |t.seats|) <= Offset(t.current, y, |t.seats|)
  {
    NextIsFirst(t.seats, t.current, 1, y);
  }

  // ---------------------------------------------------------------- what an accepted action does

  predicate TwoLive(t: Table) {
    exists i, j :: 0 <= i < j < |t.seats| && !t.seats[i].folded && !t.seats[j].folded
  }

  /** Chips the acting seat puts in. */
  function Paid(t: Table, action: Action, target: int): int
    requires 0 <= t.current < |t.seats|
  {
    var s := t.seats[t.current];
    match action
    case Fold => 0
    case Check => 0
    case Call => Min(t.bet - s.street, s.stack)
    case AllIn => s.stack
    case Bet => target - s.street
    case Raise => target - s.street
  }

  /** The acting seat before and after it put in `paid` chips or folded. */
  predicate SeatMoved(s: Seat, r: Seat, paid: int, folds: bool, bet: int) {
    && r.stack == s.stack - paid && r.total == s.total + paid && r.street == s.street + paid
    && r.folded == folds && r.allIn == (s.stack == paid) && r.hasActed && r.betFaced == bet
  }

  /**
   Chips, bet, last full raise and aggressor after an accepted action: the acting seat pays, nobody else's
   chips move, and the bet, if it grew, is what the acting seat now has in.
   */
  lemma ActionMoves(t: Table, level: int, action: Action, target: int)
    requires Inv(t, level) && Apply(t, action, target).Success?
    ensures t.current >= 0
    ensures var next, c := Apply(t, action, target).value, t.current;
            var paid := Paid(t, action, target);
            && |next.seats| == |t.seats| && 0 <= paid <= t.seats[c].stack
            && SeatMoved(t.seats[c], next.seats[c], paid, action.Fold?, next.bet)
            && (forall x :: 0 <= x < |t.seats| && x != c ==> Clear(next.seats[x]) == Clear(t.seats[x]))
            && next.bet == Max(t.bet, t.seats[c].street + paid)
            && next.minRaise == Max(t.minRaise, next.bet - t.bet)
            && next.aggressor == (if next.bet > t.bet then c else t.aggressor)
            && next.street == t.street && next.bigBlind == t.bigBlind
  {
    hide LegalActions, FixedValid, PassTurn, SeatInv, HasHolder;
    AcceptedIsSensible(t, action, target, level);
    var moved := Moved(t, action, target);
    ActorMoves(t, level, action, target);
    MovedFrame(t, action, target);
    PassTurnFrame(moved);
    hide Moved, Refusal, Inv;
    var next := PassTurn(moved);
    assert Clear(next.seats[t.current]) == Clear(moved.seats[t.current]);
    PassTurnKeepsAggressor(moved);
  }

  lemma PassTurnKeepsAggressor(t: Table)
    requires 0 <= t.current < |t.seats|
    ensures PassTurn(t).aggressor == t.aggressor
  {
  }

  lemma ActorMoves(t: Table, level: int, action: Action, target: int)
    requires Inv(t, level) && 0 <= t.current < |t.seats| && Sensible(t, action, target)
    ensures var moved, c := Moved(t, action, target), t.current;
            var paid := Paid(t, action, target);
            && 0 <= paid <= t.seats[c].stack && |moved.seats| == |t.seats|
            && SeatMoved(t.seats[c], moved.seats[c], paid, action.Fold?, moved.bet)
            && moved.bet == Max(t.bet, t.seats[c].street + paid)
            && moved.minRaise == Max(t.minRaise, moved.bet - t.bet)
            && moved.aggressor == (if moved.bet > t.bet then c else t.aggressor)
  {
    assert SeatInv(t, t.seats[t.current], level);
  }

  // ---------------------------------------------------------------- who owes, who speaks

  /** In a table with two live seats the flags are determined by chips and what each seat has answered. */
  lemma FlagsExactly(t: Table, level: int, x: nat)
    requires Inv(t, level) && x < |t.seats|
    ensures var s := t.seats[x];
            && (s.pending <==> TwoLive(t) && s.Actionable() && (!s.hasActed || s.street < t.bet))
            && (s.mayRaise <==> s.pending && (!s.hasActed || t.bet - s.betFaced >= t.minRaise))
  {
    assert SeatInv(t, t.seats[x], level);
    assert TwoLive(t) <==> !AtMostOneLive(t.seats);
  }

  /** A seat still has to speak: it owes a response, and either somebody else can act or it faces the bet. */
  ghost predicate MustSpeak(t: Table, y: nat)
    requires y < |t.seats|
  {
    t.seats[y].OwesResponse() && (!AtMostOneActionable(t.seats) || t.seats[y].street < t.bet)
  }

  /** Somebody is selected exactly when somebody has to speak. */
  lemma SelectedExactly(t: Table, level: int)
    requires Inv(t, level)
    ensures t.current >= 0 <==> exists y :: 0 <= y < |t.seats| && MustSpeak(t, y)
    ensures t.current >= 0 ==> t.current < |t.seats| && MustSpeak(t, t.current)
  {
    if t.current >= 0 {
      assert MustSpeak(t, t.current);
    }
  }

  /** After an action the first seat clockwise that has to speak speaks. */
  lemma NextSpeaker(t: Table, level: int, action: Action, target: int, y: nat)
    requires Inv(t, level) && Apply(t, action, target).Success? && y < |t.seats|
    ensures t.current >= 0 && |Apply(t, action, target).value.seats| == |t.seats|
    ensures var next := Apply(t, action, target).value;
            MustSpeak(next, y) ==>
              next.current >= 0 && Offset(t.current, next.current, |t.seats|) <= Offset(t.current, y, |t.seats|)
  {
    AcceptedIsSensible(t, action, target, level);
    ApplyKeeps(t, action, target, level);
    MovedFrame(t, action, target);
    var moved := Moved(t, action, target);
    PassTurnFrame(moved);
    var next := PassTurn(moved);
    SelectedExactly(next, level);
    if MustSpeak(next, y) {
      hide Moved, Refusal, Inv;
      TurnPassesInOrder(moved, y);
    }
  }

  // ---------------------------------------------------------------- what kind of node comes next

  /** The next node, told from who is live, who has to speak, who can act and the street. */
  lemma KindExactly(t: Table, level: int)
    requires Inv(t, level)
    ensures NextNodeKind(t).FoldTerminal? <==> !TwoLive(t)
    ensures NextNodeKind(t).BettingDecision? <==> exists y :: 0 <= y < |t.seats| && MustSpeak(t, y)
    ensures NextNodeKind(t).ShowdownTerminal? <==> TwoLive(t) && t.street == River && t.current < 0
    ensures NextNodeKind(t).BoardRunout? <==>
            TwoLive(t) && t.street != River && t.current < 0 && AtMostOneActionable(t.seats)
    ensures NextNodeKind(t).StreetTransition? <==>
            TwoLive(t) && t.street != River && t.current < 0 && !AtMostOneActionable(t.seats)
  {
    SelectedExactly(t, level);
    assert TwoLive(t) <==> !AtMostOneLive(t.seats);
  }

  /** No event is accepted once the betting is over. */
  lemma OverIsFinal(t: Table, level: int, event: Event)
    requires Inv(t, level)
    requires NextNodeKind(t).FoldTerminal? || NextNodeKind(t).ShowdownTerminal? || NextNodeKind(t).BoardRunout?
    ensures Step(t, event).Failure?
  {
  }

  /** A recorded decision is accepted exactly when it names the seat to act and an allowed action. */
  lemma DecisionAcceptedExactly(t: Table, level: int, seat: int, action: Action, target: int)
    requires Inv(t, level)
    ensures Step(t, Decision(seat, action, target)).Success? <==>
            t.current >= 0 && seat == t.current && Allowed(t, action, target)
    ensures t.current < 0 || seat != t.current ==> Step(t, Decision(seat, action, target)) == Failure(WrongActor)
    ensures t.current >= 0 && seat == t.current ==> Step(t, Decision(seat, action, target)) == Apply(t, action, target)
  {
    hide Apply, Allowed;
    if t.current >= 0 {
      AcceptedExactly(t, level, action, target);
    }
  }

  // ---------------------------------------------------------------- a new street

  /** A seat when a street opens: its chips and status, and nothing from the street before. */
  predicate SeatOpened(s: Seat, r: Seat) {
    && r.stack == s.stack && r.total == s.total && r.folded == s.folded && r.allIn == s.allIn
    && r.street == 0 && !r.hasActed && r.betFaced == 0
    && r.pending == s.Actionable() && r.mayRaise == s.Actionable()
  }

  /**
   The next street opens exactly when two live seats can act, nobody has to speak and a betting street follows;
   the minimum raise is the big blind again, and the first seat clockwise from `first` that can act speaks.
   */
  lemma StreetOpensExactly(t: Table, level: int, street: Street, first: int)
    requires Inv(t, level)
    ensures BeginNextStreet(t, street, first).Success? <==>
            && TwoLive(t) && !AtMostOneActionable(t.seats) && t.current < 0
            && !street.Showdown? && StreetIndex(street) == StreetIndex(t.street) + 1 && 0 <= first < |t.seats|
    ensures BeginNextStreet(t, street, first).Failure? ==>
              BeginNextStreet(t, street, first).error == InvalidTransition
    ensures BeginNextStreet(t, street, first).Success? ==>
              var next := BeginNextStreet(t, street, first).value;
              && |next.seats| == |t.seats| && next.street == street
              && next.bet == 0 && next.minRaise == t.bigBlind == next.bigBlind && next.aggressor == -1
              && (forall x :: 0 <= x < |t.seats| ==> SeatOpened(t.seats[x], next.seats[x]))
              && 0 <= next.current < |t.seats| && next.seats[next.current].Actionable()
              && forall y :: 0 <= y < |t.seats| && next.seats[y].Actionable() ==>
                               Place(first, next.current, |t.seats|) <= Place(first, y, |t.seats|)
  {
    InvIsValid(t, level);
    assert TwoLive(t) <==> !AtMostOneLive(t.seats);
    if BeginNextStreet(t, street, first).Success? {
      OpenedTable(t, street, first);
    }
  }

  lemma RefreshIdles(t: Table)
    requires !AtMostOneLive(t.seats) && !AtMostOneActionable(t.seats)
    requires 0 <= t.current < |t.seats| && t.seats[t.current].OwesResponse()
    ensures Refresh(t) == t
  {
  }

  lemma SameStatus(a: seq<Seat>, b: seq<Seat>)
    requires |a| == |b| && forall x :: 0 <= x < |a| ==> a[x].folded == b[x].folded && a[x].allIn == b[x].allIn
    ensures AtMostOneLive(a) == AtMostOneLive(b) && AtMostOneActionable(a) == AtMostOneActionable(b)
  {
    assert forall x :: 0 <= x < |a| ==> a[x].Actionable() == b[x].Actionable();
  }

  /** Where nobody has spoken yet, the first seat clockwise from `first` that can act is selected. */
  lemma FirstCanAct(seats: seq<Seat>, first: int, y: nat)
    requires 0 <= first < |seats| && y < |seats| && seats[y].OwesResponse()
    ensures var r := NextPendingAfter(seats, first - 1);
            0 <= r < |seats| && seats[r].OwesResponse() && Place(first, r, |seats|) <= Place(first, y, |seats|)
  {
    NextIsFirst(seats, first - 1, 1, y);
  }

  lemma DealtSeats(t: Table, street: Street, first: int)
    requires 0 <= first < |t.seats|
    ensures var dealt := StreetOpened(t, street, first);
            && |dealt.seats| == |t.seats| && dealt.street == street && dealt.bet == 0 && dealt.aggressor == -1
            && dealt.minRaise == t.bigBlind == dealt.bigBlind
            && dealt.current == NextPendingAfter(dealt.seats, first - 1)
            && forall x :: 0 <= x < |t.seats| ==>
                             SeatOpened(t.seats[x], dealt.seats[x])
                             && (dealt.seats[x].OwesResponse() <==> t.seats[x].Actionable())
  {
    hide NextPendingAfter;
  }

  lemma OpenedTable(t: Table, street: Street, first: int)
    requires !AtMostOneLive(t.seats) && !AtMostOneActionable(t.seats) && 0 <= first < |t.seats|
    ensures var next := Refresh(StreetOpened(t, street, first));
            && |next.seats| == |t.seats| && next.street == street
            && next.bet == 0 && next.minRaise == t.bigBlind == next.bigBlind && next.aggressor == -1
            && (forall x :: 0 <= x < |t.seats| ==> SeatOpened(t.seats[x], next.seats[x]))
            && 0 <= next.current < |t.seats| && next.seats[next.current].Actionable()
            && forall y :: 0 <= y < |t.seats| && next.seats[y].Actionable() ==>
                             Place(first, next.current, |t.seats|) <= Place(first, y, |t.seats|)
  {
    var dealt := StreetOpened(t, street, first);
    DealtSeats(t, street, first);
    var i, j :| 0 <= i < j < |t.seats| && t.seats[i].Actionable() && t.seats[j].Actionable();
    assert dealt.seats[i].OwesResponse();
    hide NextPendingAfter, Place, AtMostOneLive, AtMostOneActionable, Refresh, StreetOpened;
    SameStatus(t.seats, dealt.seats);
    FirstCanAct(dealt.seats, first, i);
    RefreshIdles(dealt);
    forall y | 0 <= y < |t.seats| && dealt.seats[y].Actionable()
      ensures Place(first, dealt.current, |t.seats|) <= Place(first, y, |t.seats|)
    {
      FirstCanAct(dealt.seats, first, y);
    }
  }

  // ---------------------------------------------------------------- roots

  /** What a seat starts with: the rest of its stack, what it put in before and on this street, and its turn to come. */
  predicate SeatDealt(config: GameConfig, i: nat, s: Seat)
    requires config.Valid() && i < |config.startingStacks|
  {
    && s.total == config.initialContributions[i] && s.stack + s.total == config.startingStacks[i]
    && s.street == (if config.initialStreetContributions == [] then 0 else config.initialStreetContributions[i])
    && !s.folded && s.allIn == (s.stack == 0) && !s.hasActed && s.betFaced == 0
    && s.pending == !s.allIn && s.mayRaise == !s.allIn
  }

  /** The root of a configuration, seat by seat, with the first seat clockwise that has to speak selected. */
  lemma RootExactly(config: GameConfig, level: int)
    requires config.Valid() && LevelConfig(config, level)
    ensures Root(config).Success?
    ensures var root := Root(config).value;
            && |root.seats| == |config.startingStacks|
            && (forall i :: 0 <= i < |root.seats| ==> SeatDealt(config, i, root.seats[i]))
            && (forall i :: 0 <= i < |root.seats| ==> root.seats[i].street <= root.bet)
            && (exists i :: 0 <= i < |root.seats| && root.seats[i].street == root.bet)
            && root.minRaise == root.bigBlind == config.bigBlind && root.street == config.street && root.aggressor == -1
            && forall y :: 0 <= y < |root.seats| && MustSpeak(root, y) ==>
                             root.current >= 0 &&
                             Place(config.firstPlayer, root.current, |root.seats|)
                             <= Place(config.firstPlayer, y, |root.seats|)
  {
    hide Root, Place, SeatDealt, MustSpeak, Inv;
    RootKeeps(config, level);
    var root := Root(config).value;
    RootSeatsDealt(config);
    BetIsReached(root, level);
    forall y | 0 <= y < |root.seats| && MustSpeak(root, y)
      ensures root.current >= 0
      ensures Place(config.firstPlayer, root.current, |root.seats|) <= Place(config.firstPlayer, y, |root.seats|)
    {
      SelectedExactly(root, level);
      RootSpeaker(config, y);
    }
  }

  lemma BetIsReached(t: Table, level: int)
    requires Inv(t, level)
    ensures forall i :: 0 <= i < |t.seats| ==> t.seats[i].street <= t.bet
    ensures exists i :: 0 <= i < |t.seats| && t.seats[i].street == t.bet
  {
    var h :| 0 <= h < |t.seats| && Holds(t, t.seats[h], level);
    forall i | 0 <= i < |t.seats| ensures t.seats[i].street <= t.bet {
      assert SeatInv(t, t.seats[i], level);
    }
  }

  lemma RootSeatsDealt(config: GameConfig)
    requires config.Valid()
    ensures var root := Root(config).value;
            && root.seats == RootSeats(config) && root.bet == Dealt(config).bet
            && (forall i :: 0 <= i < |root.seats| ==> SeatDealt(config, i, root.seats[i]))
            && root.minRaise == root.bigBlind == config.bigBlind && root.street == config.street && root.aggressor == -1
  {
    var dealt := Dealt(config);
    assert !dealt.seats[0].folded && !dealt.seats[1].folded;
    hide NextPendingAfter, FirstSeat, HighestStreet;
    forall i | 0 <= i < |dealt.seats| ensures SeatDealt(config, i, dealt.seats[i]) {
      assert dealt.seats[i] == RootSeat(config, i);
    }
  }

  lemma RootSpeaker(config: GameConfig, y: nat)
    requires config.Valid() && Root(config).value.current >= 0
    requires y < |Root(config).value.seats| && MustSpeak(Root(config).value, y)
    ensures var root := Root(config).value;
            Place(config.firstPlayer, root.current, |root.seats|) <= Place(config.firstPlayer, y, |root.seats|)
  {
    var root, dealt := Root(config).value, Dealt(config);
    RootSeatsDealt(config);
    FirstCanAct(dealt.seats, config.firstPlayer, y);
    hide Place, NextPendingAfter, HighestStreet;
  }

  /**
   The seat before the first to speak has posted the big blind, the one before it the small blind, and nobody
   else anything; the bet is the big blind.
   */
  lemma BlindsArePosted(rules: Rules, first: int, i: nat)
    requires rules.Valid() && 0 <= first < rules.playerCount && i < rules.playerCount
    ensures RulesRoot(rules, first).Success? && |RulesRoot(rules, first).value.seats| == rules.playerCount
    ensures var n, root := rules.playerCount, RulesRoot(rules, first).value;
            var posted := if (i + 1) % n == first then rules.bigBlind
                          else if (i + 2) % n == first then rules.smallBlind else 0;
            && root.seats[i].street == root.seats[i].total == posted
            && root.seats[i].stack == rules.initialStack - posted
            && root.bet == root.minRaise == root.bigBlind == rules.bigBlind && root.street == Preflop
  {
    var config := BlindConfig(rules, first).value;
    BlindsInConfig(rules, first, i);
    hide BlindConfig, Root, MustSpeak, Place;
    RootExactly(config, 0);
    BlindSeats(rules, first);
    var root, n := RulesRoot(rules, first).value, rules.playerCount;
    assert SeatDealt(config, i, root.seats[i]);
    var big := rules.BigBlindSeat(first);
    BlindsInConfig(rules, first, big);
    assert SeatDealt(config, big, root.seats[big]);
    var h :| 0 <= h < |root.seats| && root.seats[h].street == root.bet;
    BlindsInConfig(rules, first, h);
    assert SeatDealt(config, h, root.seats[h]);
  }

  lemma BlindsInConfig(rules: Rules, first: int, i: nat)
    requires rules.Valid() && 0 <= first < rules.playerCount && i < rules.playerCount
    ensures BlindConfig(rules, first).Success?
    ensures var config, n := BlindConfig(rules, first).value, rules.playerCount;
            var posted := if (i + 1) % n == first then rules.bigBlind
                          else if (i + 2) % n == first then rules.smallBlind else 0;
            && config.Valid() && LevelConfig(config, 0) && |config.startingStacks| == n
            && config.initialStreetContributions != [] && config.street == Preflop && config.bigBlind == rules.bigBlind
            && config.startingStacks[i] == rules.initialStack && config.firstPlayer == first
            && config.initialContributions[i] == config.initialStreetContributions[i] == posted <= rules.bigBlind
            && (i == rules.BigBlindSeat(first) ==> posted == rules.bigBlind)
  {
    RingWrap(i + 1, rules.playerCount);
    RingWrap(i + 2, rules.playerCount);
  }

  /** A seat that has put in less than nothing, or more on the street than in all, or more than it started with. */
  predicate SeatRefused(config: GameConfig, i: nat)
    requires i < |config.startingStacks| == |config.initialContributions|
    requires config.initialStreetContributions == [] || i < |config.initialStreetContributions|
  {
    var street := if config.initialStreetContributions == [] then 0 else config.initialStreetContributions[i];
    street < 0 || street > config.initialContributions[i] || config.initialContributions[i] > config.startingStacks[i]
  }

  /**
   A configuration is refused exactly when the seat counts disagree or are out of range, the first seat is not
   at the table, the big blind is not positive, the street is no betting street, or some seat's chips do not add up.
   */
  lemma RootRefusedWhy(config: GameConfig)
    ensures var n := |config.startingStacks|;
            Root(config).Failure? <==>
            || n < 2 || n > 6 || |config.initialContributions| != n
            || (config.initialStreetContributions != [] && |config.initialStreetContributions| != n)
            || config.firstPlayer < 0 || config.firstPlayer >= n || config.bigBlind <= 0 || config.street == Showdown
            || exists i :: 0 <= i < n && SeatRefused(config, i)
    ensures Root(config).Failure? ==> Root(config).error == InvalidConfig
  {
    hide Refresh, Dealt;
    var n := |config.startingStacks|;
    if |config.initialContributions| == n
       && (config.initialStreetContributions == [] || |config.initialStreetContributions| == n) {
      forall i | 0 <= i < n
        ensures var put := config.initialContributions[i];
                SeatRefused(config, i) <==> !(0 <= config.StreetContribution(i) <= put <= config.startingStacks[i])
      {
      }
    }
  }

  /** The rules make a root exactly when two to six seats can post a small blind no larger than the big one. */
  lemma RulesRefusedWhy(rules: Rules, first: int)
    ensures RulesRoot(rules, first).Failure? <==>
            || rules.playerCount < 2 || rules.playerCount > 6 || first < 0 || first >= rules.playerCount
            || rules.smallBlind <= 0 || rules.bigBlind < rules.smallBlind || rules.initialStack < rules.bigBlind
  {
    hide Root;
    if rules.Valid() && 0 <= first < rules.playerCount {
      BlindsArePosted(rules, first, 0);
    }
  }
}
