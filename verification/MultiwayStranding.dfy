/**
 Which roots can strand a seat: exactly those where a seat that matches the bet speaks last, every other
 seat that can act faces the bet before it, and somebody else can stay in all in without raising.  From
 every other root, and only from those, the vector machine mirrors the fixed one on all events.
 */
module MultiwayStranding {
  import opened Arithmetic
  import opened Wrappers
  import opened CommonTypes
  import opened MultiwayBetting
  import opened MultiwayInvariant
  import opened MultiwayProgress
  import opened MultiwayDecisions
  import opened MultiwaySnapshot

  // ---------------------------------------------------------------- places round the ring

  lemma PlaceBeyond(origin: nat, c: nat, x: nat, n: nat)
    requires origin < n && c < n && x < n && Place(origin, c, n) < Place(origin, x, n)
    ensures Offset(c, x, n) == Place(origin, x, n) - Place(origin, c, n)
  {
  }

  // ---------------------------------------------------------------- what one action does

  predicate Plain(action: Action) {
    action.Fold? || action.Check? || action.Call?
  }

  /** A seat before and after it folded, checked or called. */
  predicate PlainSeat(before: Seat, after: Seat, bet: int) {
    && after.hasActed
    && if after.Actionable() then
         after.street == bet
       else
         before.street < bet && (!after.folded ==> before.stack <= bet - before.street)
  }

  lemma PlainMoved(t: Table, action: Action, target: int, level: int)
    requires Inv(t, level) && Plain(action) && 0 <= t.current < |t.seats| && Sensible(t, action, target)
    ensures var before, after := t.seats[t.current], Moved(t, action, target).seats[t.current];
            && before.Actionable() && PlainSeat(before, after, t.bet) && after.folded == action.Fold?
            && (action.Call? && before.stack <= t.bet - before.street ==> !after.Actionable())
            && Moved(t, action, target).bet == t.bet
  {
    assert SeatInv(t, t.seats[t.current], level);
  }

  /** A fold, check or call changes one seat and leaves the bet alone. */
  lemma PlainStep(t: Table, action: Action, target: int, level: int)
    requires Inv(t, level) && Plain(action) && Apply(t, action, target).Success?
    ensures 0 <= t.current < |t.seats| && t.seats[t.current].Actionable()
    ensures var next := Apply(t, action, target).value;
            && |next.seats| == |t.seats| && next.bet == t.bet && next.street == t.street
            && PlainSeat(t.seats[t.current], next.seats[t.current], t.bet)
            && next.seats[t.current].folded == action.Fold?
            && (action.Call? && t.seats[t.current].stack <= t.bet - t.seats[t.current].street ==>
                  !next.seats[t.current].Actionable())
            && (forall x :: 0 <= x < |t.seats| && x != t.current ==> Clear(next.seats[x]) == Clear(t.seats[x]))
            && forall y :: 0 <= y < |t.seats| && next.current >= 0 && next.seats[y].OwesResponse() ==>
                             Offset(t.current, next.current, |t.seats|) <= Offset(t.current, y, |t.seats|)
  {
    hide PassTurn, LegalActions, FixedValid;
    AcceptedIsSensible(t, action, target, level);
    PlainMoved(t, action, target, level);
    var moved := Moved(t, action, target);
    MovedFrame(t, action, target);
    PassTurnFrame(moved);
    var next := PassTurn(moved);
    forall y: nat | y < |t.seats| && next.current >= 0 && next.seats[y].OwesResponse()
      ensures Offset(t.current, next.current, |t.seats|) <= Offset(t.current, y, |t.seats|)
    {
      TurnPassesInOrder(moved, y);
    }
    hide Inv, Refusal, Moved;
    assert Clear(next.seats[t.current]) == Clear(moved.seats[t.current]);
  }

  /** Every seat that has matched the bet has acted on the street. */
  ghost predicate Answered(t: Table) {
    forall x :: 0 <= x < |t.seats| && t.seats[x].Actionable() && t.seats[x].street == t.bet ==> t.seats[x].hasActed
  }

  /** Any other accepted action raises the bet. */
  lemma OthersRaise(t: Table, action: Action, target: int, level: int) returns (to: int)
    requires Inv(t, level) && !Plain(action) && Apply(t, action, target).Success?
    ensures 0 <= t.current < |t.seats| && to > t.bet
    ensures Apply(t, action, target).value == PassTurn(Raised(t, to))
  {
    hide PassTurn, Raised, LegalActions, FixedValid, SeatInv, HasHolder;
    AcceptedIsSensible(t, action, target, level);
    to := if action.AllIn? then t.seats[t.current].street + t.seats[t.current].stack else target;
    hide Inv, Refusal;
  }

  /** A raise leaves nobody but the raiser at the bet. */
  lemma RaiseAnswers(t: Table, action: Action, target: int, level: int)
    requires Inv(t, level) && !Plain(action) && Apply(t, action, target).Success?
    ensures Answered(Apply(t, action, target).value)
  {
    var to := OthersRaise(t, action, target, level);
    var moved := Raised(t, to);
    RaisedFrame(t, to);
    PassTurnFrame(moved);
    var next := PassTurn(moved);
    hide PassTurn, Raised, Apply;
    forall x | 0 <= x < |t.seats| && next.seats[x].Actionable() && next.seats[x].street == next.bet
      ensures next.seats[x].hasActed
    {
      assert SeatInv(t, t.seats[x], level);
      assert Clear(next.seats[x]) == Clear(moved.seats[x]);
      assert Clear(moved.seats[t.current]).hasActed;
    }
  }

  // ---------------------------------------------------------------- the condition

  function Origin(root: Table): (o: nat) {
    if root.current < 0 then 0 else root.current
  }

  /** Seat `i` matches the bet and speaks last; the others face the bet, and one of them can stay in all in. */
  predicate CanStrandSeat(root: Table, i: nat)
    requires i < |root.seats|
  {
    var n := |root.seats|;
    && root.seats[i].Actionable() && root.seats[i].street == root.bet
    && (forall j :: 0 <= j < n && j != i && root.seats[j].Actionable() ==>
                      root.seats[j].street < root.bet && Place(Origin(root), j, n) < Place(Origin(root), i, n))
    && exists k :: 0 <= k < n && k != i && CanStayAllIn(root, k)
  }

  predicate CanStayAllIn(root: Table, k: nat)
    requires k < |root.seats|
  {
    root.seats[k].Actionable() ==> root.seats[k].stack <= root.bet - root.seats[k].street
  }

  predicate CanStrand(root: Table) {
    exists i :: 0 <= i < |root.seats| && CanStrandSeat(root, i)
  }

  /** A root as configurations make it: nobody has folded or acted. */
  ghost predicate FreshRoot(root: Table, level: int) {
    && Inv(root, level) && NobodyActed(root.seats)
    && forall x :: 0 <= x < |root.seats| ==> !root.seats[x].folded
  }

  // ---------------------------------------------------------------- runs that strand satisfy it

  /** A seat of a street on which nobody has raised, against the seat it was at the root. */
  predicate CalmSeat(r: Seat, s: Seat, bet: int) {
    if !s.hasActed then s.stack == r.stack && s.street == r.street && s.folded == r.folded && s.allIn == r.allIn
    else r.Actionable() && PlainSeat(r, s, bet)
  }

  /** Nobody has raised since the root: seats have spoken in ring order, and the rest are as they were. */
  ghost predicate Calm(root: Table, t: Table) {
    && |t.seats| == |root.seats| && t.bet == root.bet
    && (forall x :: 0 <= x < |t.seats| ==> CalmSeat(root.seats[x], t.seats[x], root.bet))
    && (forall x, y :: 0 <= x < |t.seats| && 0 <= y < |t.seats| && t.seats[x].hasActed
                       && t.seats[y].Actionable() && !t.seats[y].hasActed ==>
                         Place(Origin(root), x, |t.seats|) < Place(Origin(root), y, |t.seats|))
    && (t.current >= 0 ==>
          t.current < |t.seats| &&
          forall y :: 0 <= y < |t.seats| && t.seats[y].Actionable() && !t.seats[y].hasActed ==>
                        Place(Origin(root), t.current, |t.seats|) <= Place(Origin(root), y, |t.seats|))
  }

  /** A street without a bet, with at least two seats to bet on it. */
  ghost predicate Unbet(t: Table) {
    t.bet == 0 && !AtMostOneActionable(t.seats)
  }

  lemma ActedIsMatched(root: Table, t: Table, level: int, x: nat)
    requires Inv(t, level) && Calm(root, t) && x < |t.seats| && t.seats[x].OwesResponse()
    ensures !t.seats[x].hasActed
  {
    assert SeatInv(t, t.seats[x], level);
    assert CalmSeat(root.seats[x], t.seats[x], root.bet);
  }

  lemma CalmSeatsAfter(root: Table, t: Table, next: Table, level: int)
    requires Inv(t, level) && Calm(root, t) && t.current >= 0 && |next.seats| == |t.seats|
    requires PlainSeat(t.seats[t.current], next.seats[t.current], t.bet)
    requires forall x :: 0 <= x < |t.seats| && x != t.current ==> Clear(next.seats[x]) == Clear(t.seats[x])
    ensures forall x :: 0 <= x < |t.seats| ==> CalmSeat(root.seats[x], next.seats[x], root.bet)
    ensures forall x, y :: 0 <= x < |t.seats| && 0 <= y < |t.seats| && next.seats[x].hasActed
                           && next.seats[y].Actionable() && !next.seats[y].hasActed ==>
                             Place(Origin(root), x, |t.seats|) < Place(Origin(root), y, |t.seats|)
  {
    ActedIsMatched(root, t, level, t.current);
    forall x | 0 <= x < |t.seats| ensures CalmSeat(root.seats[x], next.seats[x], root.bet) {
      assert CalmSeat(root.seats[x], t.seats[x], root.bet);
      assert x != t.current ==> Clear(next.seats[x]) == Clear(t.seats[x]);
    }
    forall x, y | 0 <= x < |t.seats| && 0 <= y < |t.seats| && next.seats[x].hasActed
                  && next.seats[y].Actionable() && !next.seats[y].hasActed
      ensures Place(Origin(root), x, |t.seats|) < Place(Origin(root), y, |t.seats|)
    {
      assert y != t.current && Clear(next.seats[y]) == Clear(t.seats[y]);
      assert x != t.current ==> Clear(next.seats[x]) == Clear(t.seats[x]);
    }
  }

  lemma CalmStep(root: Table, t: Table, action: Action, target: int, level: int)
    requires Inv(root, level) && Inv(t, level) && Calm(root, t) && Plain(action) && Apply(t, action, target).Success?
    ensures Calm(root, Apply(t, action, target).value)
  {
    hide Apply, SeatInv, HasHolder;
    PlainStep(t, action, target, level);
    ApplyKeeps(t, action, target, level);
    var next := Apply(t, action, target).value;
    CalmSeatsAfter(root, t, next, level);
    if next.current >= 0 {
      hide PlainSeat, CalmSeat;
      CalmTurn(root, t, next, level);
    }
  }

  /** The seat that speaks next comes before all others that have not spoken. */
  lemma CalmTurn(root: Table, t: Table, next: Table, level: int)
    requires Inv(root, level) && Inv(next, level) && 0 <= t.current < |t.seats| == |next.seats| == |root.seats|
    requires 0 <= next.current && next.bet == root.bet
    requires next.seats[t.current].hasActed
    requires forall x :: 0 <= x < |next.seats| ==> CalmSeat(root.seats[x], next.seats[x], root.bet)
    requires forall x, y :: 0 <= x < |t.seats| && 0 <= y < |t.seats| && next.seats[x].hasActed
                            && next.seats[y].Actionable() && !next.seats[y].hasActed ==>
                              Place(Origin(root), x, |t.seats|) < Place(Origin(root), y, |t.seats|)
    requires forall y :: 0 <= y < |t.seats| && next.seats[y].OwesResponse() ==>
                           Offset(t.current, next.current, |t.seats|) <= Offset(t.current, y, |t.seats|)
    ensures forall y :: 0 <= y < |t.seats| && next.seats[y].Actionable() && !next.seats[y].hasActed ==>
                          Place(Origin(root), next.current, |t.seats|) <= Place(Origin(root), y, |t.seats|)
  {
    assert SeatInv(next, next.seats[next.current], level);
    assert CalmSeat(root.seats[next.current], next.seats[next.current], root.bet);
    assert !next.seats[next.current].hasActed;
    forall y | 0 <= y < |t.seats| && next.seats[y].Actionable() && !next.seats[y].hasActed
      ensures Place(Origin(root), next.current, |t.seats|) <= Place(Origin(root), y, |t.seats|)
    {
      assert next.seats[y].OwesResponse();
      PlaceBeyond(Origin(root), t.current, y, |t.seats|);
      PlaceBeyond(Origin(root), t.current, next.current, |t.seats|);
    }
  }

  ghost predicate NotYetStranded(root: Table, t: Table) {
    Calm(root, t) || Answered(t) || Unbet(t)
  }

  lemma PlainKeepsAnswered(t: Table, action: Action, target: int, level: int)
    requires Inv(t, level) && Plain(action) && Apply(t, action, target).Success?
    ensures Answered(t) ==> Answered(Apply(t, action, target).value)
    ensures Unbet(t) ==> Unbet(Apply(t, action, target).value)
  {
    PlainStep(t, action, target, level);
    var next := Apply(t, action, target).value;
    hide Apply;
    assert SeatInv(t, t.seats[t.current], level);
    forall x | 0 <= x < |t.seats| && x != t.current
      ensures next.seats[x].Actionable() == t.seats[x].Actionable() && next.seats[x].street == t.seats[x].street
      ensures next.seats[x].hasActed == t.seats[x].hasActed
    {
      assert Clear(next.seats[x]) == Clear(t.seats[x]);
    }
    if Unbet(t) {
      assert next.seats[t.current].Actionable();
      var i, j :| 0 <= i < j < |t.seats| && t.seats[i].Actionable() && t.seats[j].Actionable();
      assert next.seats[i].Actionable() && next.seats[j].Actionable();
    }
  }

  lemma OpeningIsUnbet(t: Table, next: Street, first: int)
    requires BeginNextStreet(t, next, first).Success?
    ensures Unbet(BeginNextStreet(t, next, first).value)
  {
    var i, j :| 0 <= i < j < |t.seats| && t.seats[i].Actionable() && t.seats[j].Actionable();
    var dealt := StreetOpened(t, next, first);
    assert dealt.seats[i].Actionable() && dealt.seats[j].Actionable();
    var after := Refresh(dealt);
    assert after.seats[i].Actionable() && after.seats[j].Actionable();
  }

  /** What has kept a seat from being stranded, or led up to it, at every state of a run. */
  lemma {:induction false} RunIsCalmOrSafe(root: Table, events: seq<Event>, level: int) returns (last: int)
    requires FreshRoot(root, level) && Run(root, events).Success?
    ensures Inv(Run(root, events).value, last) && NotYetStranded(root, Run(root, events).value)
    ensures Answered(Run(root, events).value) || Unbet(Run(root, events).value) || last == level
  {
    if events == [] {
      last := level;
    } else {
      var front, event := events[..|events| - 1], events[|events| - 1];
      var before := RunIsCalmOrSafe(root, front, level);
      last := StepKeeps(Run(root, front).value, event, before);
      StepIsCalmOrSafe(root, Run(root, front).value, event, level, before);
    }
  }

  lemma StepIsCalmOrSafe(root: Table, t: Table, event: Event, level: int, at: int)
    requires Inv(root, level) && Inv(t, at) && NotYetStranded(root, t) && Step(t, event).Success?
    requires Answered(t) || Unbet(t) || at == level
    ensures NotYetStranded(root, Step(t, event).value)
    ensures Answered(Step(t, event).value) || Unbet(Step(t, event).value) || (event.Decision? && at == level)
  {
    match event
    case StreetStart(next, first) => OpeningIsUnbet(t, next, first);
    case Decision(_, action, target) =>
      hide Apply;
      if !Plain(action) {
        RaiseAnswers(t, action, target, at);
      } else if Answered(t) || Unbet(t) {
        PlainKeepsAnswered(t, action, target, at);
      } else {
        CalmStep(root, t, action, target, level);
      }
  }

  lemma StrandedMeetsCondition(root: Table, t: Table)
    requires NotYetStranded(root, t) && Stranded(t)
    requires forall x :: 0 <= x < |root.seats| ==> !root.seats[x].folded
    ensures CanStrand(root)
  {
    var i :| 0 <= i < |t.seats| && t.seats[i].Actionable() && !t.seats[i].hasActed && t.seats[i].street == t.bet;
    var a, b :| 0 <= a < b < |t.seats| && !t.seats[a].folded && !t.seats[b].folded;
    var k := if a == i then b else a;
    assert Calm(root, t);
    forall j | 0 <= j < |t.seats| && j != i
      ensures root.seats[j].Actionable() ==> t.seats[j].hasActed && root.seats[j].street < root.bet
      ensures !t.seats[j].folded ==> CanStayAllIn(root, j)
    {
      assert CalmSeat(root.seats[j], t.seats[j], root.bet);
      assert !t.seats[j].Actionable();
    }
    assert CalmSeat(root.seats[i], t.seats[i], root.bet);
    assert CanStayAllIn(root, k);
    assert CanStrandSeat(root, i);
  }

  // ---------------------------------------------------------------- the condition strands a seat

  /** Seat `i` waits at the bet, the others that can act face it and speak first, and seat `k` will stay in. */
  ghost predicate Stranding(t: Table, i: nat, k: nat, level: int) {
    && Inv(t, level) && i < |t.seats| && k < |t.seats| && i != k
    && t.seats[i].Actionable() && !t.seats[i].hasActed && t.seats[i].street == t.bet
    && !t.seats[k].folded && CanStayAllIn(t, k)
    && forall j :: 0 <= j < |t.seats| && j != i && t.seats[j].Actionable() ==>
                     t.seats[j].street < t.bet && Place(Origin(t), j, |t.seats|) < Place(Origin(t), i, |t.seats|)
  }

  /** Calling all in where that is no raise, folding otherwise. */
  function StayOrFold(t: Table): Action
    requires 0 <= t.current < |t.seats|
  {
    if t.seats[t.current].stack <= t.bet - t.seats[t.current].street then Call else Fold
  }

  lemma StrandingStep(t: Table, i: nat, k: nat, level: int)
    requires Stranding(t, i, k, level) && !AtMostOneActionable(t.seats)
    ensures 0 <= t.current < |t.seats| && Apply(t, StayOrFold(t), 0).Success?
    ensures Stranding(Apply(t, StayOrFold(t), 0).value, i, k, level)
  {
    var a, b :| 0 <= a < b < |t.seats| && t.seats[a].Actionable() && t.seats[b].Actionable();
    var j := if a == i then b else a;
    assert t.seats[j].street < t.bet;
    assert t.current >= 0 && t.current != i;
    var action := StayOrFold(t);
    MenuIsExact(t, level, action, 0);
    assert action in LegalActions(t);
    PlainStep(t, action, 0, level);
    ApplyKeeps(t, action, 0, level);
    var next := Apply(t, action, 0).value;
    hide Apply;
    StrandingStays(t, next, i, k, level);
  }

  lemma StrandingStays(t: Table, next: Table, i: nat, k: nat, level: int)
    requires Stranding(t, i, k, level) && Inv(next, level) && 0 <= t.current < |t.seats| == |next.seats|
    requires t.seats[t.current].Actionable() && t.current != i && next.bet == t.bet
    requires next.seats[t.current].folded == StayOrFold(t).Fold? && !next.seats[t.current].Actionable()
    requires PlainSeat(t.seats[t.current], next.seats[t.current], t.bet)
    requires forall x :: 0 <= x < |t.seats| && x != t.current ==> Clear(next.seats[x]) == Clear(t.seats[x])
    requires forall y :: 0 <= y < |t.seats| && next.current >= 0 && next.seats[y].OwesResponse() ==>
                           Offset(t.current, next.current, |t.seats|) <= Offset(t.current, y, |t.seats|)
    ensures Stranding(next, i, k, level)
  {
    assert Clear(next.seats[i]) == Clear(t.seats[i]);
    assert k != t.current ==> Clear(next.seats[k]) == Clear(t.seats[k]);
    hide Place, Offset;
    forall j | 0 <= j < |t.seats| && j != i && next.seats[j].Actionable()
      ensures next.seats[j].street < next.bet
      ensures Place(Origin(next), j, |t.seats|) < Place(Origin(next), i, |t.seats|)
    {
      assert j != t.current;
      assert Clear(next.seats[j]) == Clear(t.seats[j]);
      assert SeatInv(next, next.seats[j], level);
      assert next.current >= 0 && next.seats[j].OwesResponse();
      OrderKept(t.current, next.current, j, i, |t.seats|);
    }
  }

  /** The order of two seats is the same seen from the seat that speaks next. */
  lemma OrderKept(c: nat, r: nat, j: nat, i: nat, n: nat)
    requires c < n && r < n && j < n && i < n && j != c && i != c
    requires Offset(c, r, n) <= Offset(c, j, n) && Place(c, j, n) < Place(c, i, n)
    ensures Place(r, j, n) < Place(r, i, n)
  {
  }

  lemma StrandingEnds(t: Table, i: nat, k: nat, level: int)
    requires Stranding(t, i, k, level) && AtMostOneActionable(t.seats)
    ensures Stranded(t)
  {
    if i < k {
      assert !t.seats[i].folded && !t.seats[k].folded;
    } else {
      assert !t.seats[k].folded && !t.seats[i].folded;
    }
  }

  lemma {:induction false} RunPrepended(t: Table, event: Event, events: seq<Event>)
    requires Step(t, event).Success?
    ensures Run(t, [event] + events) == Run(Step(t, event).value, events)
    decreases |events|
  {
    hide Step;
    var all := [event] + events;
    if events == [] {
      assert all == [event] && all[..0] == [];
      assert Run(t, []) == Success(t);
    } else {
      RunPrepended(t, event, events[..|events| - 1]);
      assert all[..|all| - 1] == [event] + events[..|events| - 1];
    }
  }

  /** Playing StayOrFold until one seat is left to act strands it. */
  lemma {:induction false} PlayToStranding(t: Table, i: nat, k: nat, level: int) returns (events: seq<Event>)
    requires Stranding(t, i, k, level)
    ensures Run(t, events).Success? && Stranded(Run(t, events).value)
    decreases Measure(t)
  {
    if AtMostOneActionable(t.seats) {
      StrandingEnds(t, i, k, level);
      events := [];
    } else {
      StrandingStep(t, i, k, level);
      var event := Decision(t.current, StayOrFold(t), 0);
      ApplyDecreases(t, StayOrFold(t), 0, level);
      MeasureNonNegative(t, level);
      var next := Apply(t, StayOrFold(t), 0).value;
      assert Step(t, event) == Success(next);
      hide Stranding, Apply, Stranded, Measure;
      var rest := PlayToStranding(next, i, k, level);
      RunPrepended(t, event, rest);
      events := [event] + rest;
    }
  }

  /** Some run from a fresh root strands a seat if and only if the root meets the condition. */
  lemma StrandsExactly(root: Table, level: int)
    requires FreshRoot(root, level)
    ensures CanStrand(root) <==> exists events :: Run(root, events).Success? && Stranded(Run(root, events).value)
  {
    if CanStrand(root) {
      var i :| 0 <= i < |root.seats| && CanStrandSeat(root, i);
      var k :| 0 <= k < |root.seats| && k != i && CanStayAllIn(root, k);
      assert Stranding(root, i, k, level);
      var events := PlayToStranding(root, i, k, level);
    }
    if events :| Run(root, events).Success? && Stranded(Run(root, events).value) {
      var last := RunIsCalmOrSafe(root, events, level);
      StrandedMeetsCondition(root, Run(root, events).value);
    }
  }

  // ---------------------------------------------------------------- when the two machines agree on everything

  lemma {:induction false} StrandedOnTheWay(root: Table, events: seq<Event>) returns (k: nat)
    requires !NeverStranded(root, events)
    ensures k <= |events| && Run(root, events[..k]).Success? && Stranded(Run(root, events[..k]).value)
  {
    if Run(root, events).Success? && Stranded(Run(root, events).value) {
      k := |events|;
      assert events[..k] == events;
    } else {
      var front := events[..|events| - 1];
      k := StrandedOnTheWay(root, front);
      assert front[..k] == events[..k];
    }
  }

  lemma RootIsFresh(config: GameConfig, level: int)
    requires config.Valid() && LevelConfig(config, level)
    ensures Root(config).Success? && FreshRoot(Root(config).value, level)
  {
    RootKeeps(config, level);
    var root := Root(config).value;
    forall x | 0 <= x < |root.seats| ensures !root.seats[x].folded && !root.seats[x].hasActed {
      assert Clear(root.seats[x]) == Clear(RootSeat(config, x));
    }
  }

  /**
   From a root whose seats had put in equally before and whose chips fit, the vector machine gives the fixed
   machine's outcome on every list of events, the empty one included, if and only if no seat can be stranded.
   */
  lemma MachinesAgreeExactly(config: GameConfig, level: int, cap: int)
    requires config.Valid() && LevelConfig(config, level)
    requires Root(config).Success? && Bounded(Root(config).value, cap)
    ensures var root := Root(config).value;
            VectorRoot(config) == Root(config) && (forall events :: VectorRun(root, events) == Run(root, events))
            <==> !CanStrand(root)
  {
    RootIsFresh(config, level);
    var root := Root(config).value;
    StrandsExactly(root, level);
    InvIsValid(root, level);
    SnapshotValidExactly(root, level, cap);
    hide CanStrand, Bounded, FixedValid, SnapshotValid, Stranded;
    assert Run(root, []) == Success(root);
    if Stranded(root) {
      assert VectorRoot(config) == Failure(InvalidSnapshot);
    } else {
      RefreshIsNoOp(root, level);
      forall events ensures VectorRun(root, events) == Run(root, events) <==> NeverStranded(root, events) {
        RunMirrorsExactly(root, events, level, cap);
      }
      hide Inv;
      AllMirroredExactly(root);
    }
  }

  lemma AllMirroredExactly(root: Table)
    requires forall events :: VectorRun(root, events) == Run(root, events) <==> NeverStranded(root, events)
    ensures (forall events :: VectorRun(root, events) == Run(root, events)) <==>
            !exists events :: Run(root, events).Success? && Stranded(Run(root, events).value)
  {
    hide Run, VectorRun, Stranded;
    if events :| VectorRun(root, events) != Run(root, events) {
      var k := StrandedOnTheWay(root, events);
    }
    if events :| Run(root, events).Success? && Stranded(Run(root, events).value) {
      assert !NeverStranded(root, events);
    }
  }
}
