/**
 What every betting operation keeps.  `level` is the chip total that each seat able to act
 when the current street began had put in on earlier streets.
 */
module MultiwayInvariant {
  import opened Arithmetic
  import opened Wrappers
  import opened CommonTypes
  import opened MultiwayBetting

  ghost predicate SeatInv(t: Table, s: Seat, level: int) {
    && s.stack >= 0 && 0 <= s.street <= s.total && s.street <= t.bet
    && s.total - s.street <= level
    && s.allIn == (s.stack == 0)
    && (s.Actionable() ==> s.total - s.street == level)
    && (!s.Actionable() ==> !s.pending)
    && (s.mayRaise ==> s.pending)
    && 0 <= s.betFaced <= t.bet
    && (s.pending ==> s.mayRaise == RaiseRight(s, t.bet, t.minRaise))
    && (s.pending && s.hasActed ==> s.street < t.bet)
    && (s.Actionable() && s.street < t.bet ==> s.pending)
  }

  /** A live seat that has matched the current bet on top of `level`. */
  ghost predicate Holds(t: Table, s: Seat, level: int) {
    !s.folded && s.street == t.bet && s.total - s.street == level
  }

  ghost predicate HasHolder(t: Table, level: int) {
    exists h :: 0 <= h < |t.seats| && Holds(t, t.seats[h], level)
  }

  ghost predicate Dimensions(t: Table) {
    && 2 <= |t.seats| <= MAX_SEATS
    && t.bet >= 0 && t.minRaise > 0 && t.bigBlind > 0 && BettingStreet(t.street)
    && -1 <= t.aggressor < |t.seats|
  }

  /** The invariant between a seat's update and the choice of the next seat. */
  ghost predicate OpenInv(t: Table, level: int) {
    && Dimensions(t)
    && (forall i :: 0 <= i < |t.seats| ==> SeatInv(t, t.seats[i], level))
    && (forall i :: 0 <= i < |t.seats| && t.seats[i].Actionable() && !t.seats[i].hasActed ==> t.seats[i].pending)
    && HasHolder(t, level)
  }

  ghost predicate Matched(t: Table) {
    forall i :: 0 <= i < |t.seats| && t.seats[i].Actionable() ==> t.seats[i].street == t.bet
  }

  ghost predicate NobodyPending(t: Table) {
    forall i :: 0 <= i < |t.seats| ==> !t.seats[i].pending
  }

  /** What holds in every reachable state, once a seat is selected or the round is closed. */
  ghost predicate Inv(t: Table, level: int) {
    && Dimensions(t)
    && (forall i :: 0 <= i < |t.seats| ==> SeatInv(t, t.seats[i], level))
    && HasHolder(t, level)
    && -1 <= t.current < |t.seats|
    && (t.current >= 0 ==>
          && t.seats[t.current].OwesResponse() && !AtMostOneLive(t.seats)
          && (AtMostOneActionable(t.seats) ==> t.seats[t.current].street < t.bet))
    && (t.current == -1 ==> Matched(t) && (!AtMostOneActionable(t.seats) ==> NobodyPending(t)))
    && (AtMostOneLive(t.seats) ==> NobodyPending(t))
    && (!AtMostOneLive(t.seats) ==>
          forall i :: 0 <= i < |t.seats| && t.seats[i].Actionable() && !t.seats[i].hasActed ==> t.seats[i].pending)
  }

  lemma InvIsValid(t: Table, level: int)
    requires Inv(t, level)
    ensures FixedValid(t)
  {
    forall i | 0 <= i < |t.seats|
      ensures FixedSeatValid(t.seats[i])
    {
      assert SeatInv(t, t.seats[i], level);
    }
  }

  // ---------------------------------------------------------------- closing a round

  /** When one seat is left, it is the seat that matched the bet, so clearing flags hides nothing. */
  lemma ClearKeeps(t: Table, level: int)
    requires OpenInv(t, level) && AtMostOneLive(t.seats)
    ensures Inv(Refresh(t), level)
  {
    var h :| 0 <= h < |t.seats| && Holds(t, t.seats[h], level);
    var next := Refresh(t);
    assert Holds(next, next.seats[h], level);
    forall i | 0 <= i < |t.seats|
      ensures SeatInv(next, next.seats[i], level)
      ensures next.seats[i].Actionable() ==> next.seats[i].street == next.bet
    {
      assert SeatInv(t, t.seats[i], level);
      if i < h { assert t.seats[i].folded; }
      if h < i { assert t.seats[i].folded; }
    }
    assert forall i :: 0 <= i < |t.seats| ==> next.seats[i].folded == t.seats[i].folded;
  }

  /** Refreshing a table whose selected seat, if any, owes a response closes or continues the round. */
  lemma RefreshKeeps(t: Table, level: int)
    requires OpenInv(t, level)
    requires -1 <= t.current < |t.seats|
    requires t.current >= 0 ==> t.seats[t.current].OwesResponse()
    ensures Inv(Refresh(t), level)
  {
    if AtMostOneLive(t.seats) {
      ClearKeeps(t, level);
    } else {
      var next := Refresh(t);
      assert next.seats == t.seats;
      forall i | 0 <= i < |t.seats|
        ensures SeatInv(next, next.seats[i], level)
        ensures next.current == -1 && next.seats[i].Actionable() ==> next.seats[i].street == next.bet
        ensures next.current == -1 && !AtMostOneActionable(t.seats) ==> !next.seats[i].pending
      {
        assert SeatInv(t, t.seats[i], level);
      }
      var h :| 0 <= h < |t.seats| && Holds(t, t.seats[h], level);
      assert Holds(next, next.seats[h], level);
    }
  }

  lemma PassTurnKeeps(t: Table, level: int)
    requires OpenInv(t, level) && 0 <= t.current < |t.seats|
    ensures Inv(PassTurn(t), level)
  {
    var chosen := t.(current := NextPendingAfter(t.seats, t.current));
    assert forall i :: 0 <= i < |t.seats| ==> SeatInv(t, t.seats[i], level) ==> SeatInv(chosen, chosen.seats[i], level);
    var h :| 0 <= h < |t.seats| && Holds(t, t.seats[h], level);
    assert Holds(chosen, chosen.seats[h], level);
    RefreshKeeps(chosen, level);
  }

  // ---------------------------------------------------------------- betting actions

  /** Fold, check and call replace one seat; the seat that holds the bet is never the one that folds. */
  lemma SeatUpdateKeeps(t: Table, updated: Seat, level: int)
    requires Inv(t, level) && t.current >= 0
    requires var s := t.seats[t.current];
             || (s.street < t.bet && updated == Acted(s.(folded := true), t.bet))
             || (s.street == t.bet && updated == Acted(s, t.bet))
             || (s.street < t.bet && updated == Acted(Pay(s, Min(t.bet - s.street, s.stack)), t.bet))
    ensures OpenInv(t.(seats := t.seats[t.current := updated]), level)
  {
    var next := t.(seats := t.seats[t.current := updated]);
    assert SeatInv(t, t.seats[t.current], level);
    forall i | 0 <= i < |t.seats|
      ensures SeatInv(next, next.seats[i], level)
    {
      assert SeatInv(t, t.seats[i], level);
    }
    var h :| 0 <= h < |t.seats| && Holds(t, t.seats[h], level);
    assert Holds(next, next.seats[h], level);
  }

  /** A raise to any target above the bet and within the stack: the raiser holds the new bet. */
  lemma RaisedKeeps(t: Table, target: int, level: int)
    requires Inv(t, level) && t.current >= 0
    requires t.bet < target <= t.seats[t.current].street + t.seats[t.current].stack
    ensures OpenInv(Raised(t, target), level)
  {
    var next := Raised(t, target);
    var s := t.seats[t.current];
    assert SeatInv(t, s, level);
    forall i | 0 <= i < |t.seats|
      ensures SeatInv(next, next.seats[i], level)
    {
      assert SeatInv(t, t.seats[i], level);
    }
    assert Holds(next, next.seats[t.current], level);
  }

  /** What an accepted action guarantees about the acting seat and the bet. */
  ghost predicate Sensible(t: Table, action: Action, target: int)
    requires 0 <= t.current < |t.seats|
  {
    var s := t.seats[t.current];
    match action
    case Fold => s.street < t.bet
    case Check => s.street == t.bet
    case Call => s.street < t.bet
    case AllIn => t.bet < s.street + s.stack
    case _ => t.bet + t.minRaise <= target < s.street + s.stack
  }

  lemma AcceptedIsSensible(t: Table, action: Action, target: int, level: int)
    requires Inv(t, level)
    requires Refusal(t, action, target).None?
    ensures t.current >= 0 && Sensible(t, action, target)
  {
    assert SeatInv(t, t.seats[t.current], level);
  }

  lemma MovedKeeps(t: Table, action: Action, target: int, level: int)
    requires Inv(t, level) && t.current >= 0 && Sensible(t, action, target)
    ensures OpenInv(Moved(t, action, target), level)
    ensures Moved(t, action, target).current == t.current
  {
    var s := t.seats[t.current];
    match action
    case Fold => SeatUpdateKeeps(t, Acted(s.(folded := true), t.bet), level);
    case Check => SeatUpdateKeeps(t, Acted(s, t.bet), level);
    case Call => SeatUpdateKeeps(t, Acted(Pay(s, Min(t.bet - s.street, s.stack)), t.bet), level);
    case AllIn => RaisedKeeps(t, s.street + s.stack, level);
    case _ => RaisedKeeps(t, target, level);
  }

  lemma ApplyKeeps(t: Table, action: Action, target: int, level: int)
    requires Inv(t, level)
    requires Apply(t, action, target).Success?
    ensures Inv(Apply(t, action, target).value, level)
  {
    AcceptedIsSensible(t, action, target, level);
    MovedKeeps(t, action, target, level);
    PassTurnKeeps(Moved(t, action, target), level);
  }

  /** A street transition raises the level by the bet every remaining seat matched. */
  lemma BeginNextStreetKeeps(t: Table, next: Street, first: int, level: int)
    requires Inv(t, level)
    requires BeginNextStreet(t, next, first).Success?
    ensures Inv(BeginNextStreet(t, next, first).value, level + t.bet)
  {
    hide *;
    TransitionFacts(t, next, first, level);
    OpeningKeeps(t, next, first, level);
    RefreshKeeps(StreetOpened(t, next, first), level + t.bet);
  }

  /** What the machine has checked before it opens a street, and what the invariant adds. */
  lemma TransitionFacts(t: Table, next: Street, first: int, level: int)
    requires Inv(t, level)
    requires BeginNextStreet(t, next, first).Success?
    ensures 0 <= first < |t.seats| && BettingStreet(next) && Matched(t) && Dimensions(t) && HasHolder(t, level)
    ensures forall i :: 0 <= i < |t.seats| ==> SeatInv(t, t.seats[i], level)
    ensures BeginNextStreet(t, next, first).value == Refresh(StreetOpened(t, next, first))
  {
    hide Refresh, StreetOpened, SeatInv, FixedValid;
  }

  lemma OpeningKeeps(t: Table, next: Street, first: int, level: int)
    requires Inv(t, level)
    requires BeginNextStreet(t, next, first).Success?
    ensures var dealt := StreetOpened(t, next, first);
            && OpenInv(dealt, level + t.bet) && -1 <= dealt.current < |dealt.seats|
            && (dealt.current >= 0 ==> dealt.seats[dealt.current].OwesResponse())
            && BeginNextStreet(t, next, first).value == Refresh(dealt)
  {
    TransitionFacts(t, next, first, level);
    hide Refresh, NextPendingAfter, Inv, BeginNextStreet, FixedValid;
    var dealt := StreetOpened(t, next, first);
    forall i | 0 <= i < |t.seats|
      ensures SeatInv(dealt, dealt.seats[i], level + t.bet)
      ensures dealt.seats[i].pending == dealt.seats[i].Actionable()
    {
      assert SeatInv(t, t.seats[i], level);
    }
    var h :| 0 <= h < |t.seats| && Holds(t, t.seats[h], level);
    assert Holds(dealt, dealt.seats[h], level + t.bet);
    hide SeatInv, StreetOpened;
  }

  lemma StepKeeps(t: Table, event: Event, level: int) returns (nextLevel: int)
    requires Inv(t, level)
    requires Step(t, event).Success?
    ensures Inv(Step(t, event).value, nextLevel)
    ensures event.Decision? ==> nextLevel == level
  {
    match event
    case Decision(seat, action, target) =>
      ApplyKeeps(t, action, target, level);
      nextLevel := level;
    case StreetStart(next, first) =>
      BeginNextStreetKeeps(t, next, first, level);
      nextLevel := level + t.bet;
  }

  // ---------------------------------------------------------------- roots and runs

  /** All seats have put in the same amount on earlier streets. */
  ghost predicate LevelConfig(config: GameConfig, level: int)
    requires config.Valid()
  {
    forall i :: 0 <= i < |config.startingStacks| ==>
                  config.initialContributions[i] - config.StreetContribution(i) == level
  }

  lemma RootSeatsInv(config: GameConfig, level: int, dealt: Table)
    requires config.Valid() && LevelConfig(config, level)
    requires |dealt.seats| == |config.startingStacks|
    requires forall i :: 0 <= i < |dealt.seats| ==> dealt.seats[i] == RootSeat(config, i)
    requires dealt.bet == HighestStreet(dealt.seats) && dealt.minRaise == dealt.bigBlind == config.bigBlind
    requires dealt.aggressor == -1 && dealt.street == config.street
    ensures OpenInv(dealt, level)
  {
    forall i | 0 <= i < |dealt.seats|
      ensures SeatInv(dealt, dealt.seats[i], level)
    {
      assert config.initialContributions[i] - config.StreetContribution(i) == level;
    }
    if dealt.bet == 0 {
      assert SeatInv(dealt, dealt.seats[0], level);
      assert Holds(dealt, dealt.seats[0], level);
    } else {
      var h :| 0 <= h < |dealt.seats| && dealt.seats[h].street == dealt.bet;
      assert SeatInv(dealt, dealt.seats[h], level);
      assert Holds(dealt, dealt.seats[h], level);
    }
  }

  lemma RootKeeps(config: GameConfig, level: int)
    requires config.Valid() && LevelConfig(config, level)
    ensures Root(config).Success? && Inv(Root(config).value, level)
  {
    RootSeatsInv(config, level, Dealt(config));
    RefreshKeeps(Dealt(config), level);
  }

  lemma {:induction false} RunKeeps(root: Table, events: seq<Event>, level: int) returns (last: int)
    requires Inv(root, level)
    requires Run(root, events).Success?
    ensures Inv(Run(root, events).value, last)
  {
    if events == [] {
      last := level;
    } else {
      var before := RunKeeps(root, events[..|events| - 1], level);
      last := StepKeeps(Run(root, events[..|events| - 1]).value, events[|events| - 1], before);
    }
  }
}
