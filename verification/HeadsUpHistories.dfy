/**
 Betting is a function of its recorded history: two runs of one hand with the same codes are in the same
 betting state, whatever cards came, so the nodes of an information set always agree.
 */
module HeadsUpHistories {
  import opened Arithmetic
  import opened Wrappers
  import opened CommonTypes
  import opened Poker
  import opened HistoryText
  import opened InfosetKey
  import opened HeadsUpConfig
  import opened HeadsUpMenu
  import opened HeadsUpState
  import opened HeadsUpRuns
  import opened HeadsUpInfoset

  /** The same state but for which cards lie on the board. */
  predicate SameBetting(s: State, t: State) {
    |s.board| == |t.board| && t == s.(board := t.board)
  }

  function Codes(s: State): seq<int> {
    Flat(s.pastCodes) + s.codes
  }

  // ---------------------------------------------------------------- the board plays no part in betting

  lemma BoardPlaysNoPart(cfg: Config, s: State, board: seq<nat>, action: int)
    ensures ContextOf(cfg, s.(board := board)) == ContextOf(cfg, s)
    ensures Legal(cfg, s.(board := board)) == Legal(cfg, s)
    ensures action in Legal(cfg, s) ==> Sized(cfg, s, action) && Sized(cfg, s.(board := board), action)
    ensures action in Legal(cfg, s) ==> Acted(cfg, s.(board := board), action) == Acted(cfg, s, action).(board := board)
  {
    if action in Legal(cfg, s) {
      ListedIsSized(cfg, s, action);
    }
    hide Legal, LegalActions, MenuFits, BetOf, RaiseOf, BetFractions, RaiseMultipliers, Decimal;
    assert IsTerminal(s.(board := board)) == IsTerminal(s);
    SameMenu(cfg, s, board);
  }

  lemma SameMenu(cfg: Config, s: State, board: seq<nat>)
    ensures Legal(cfg, s.(board := board)) == Legal(cfg, s)
  {
    hide LegalActions, MenuFits;
  }

  lemma TransitionIgnoresBoard(s: State, board: seq<nat>, p: int)
    requires s.street != Showdown
    ensures Transition(s.(board := board)) == Transition(s).(board := board)
    ensures Refunded(s.(board := board), p) == Refunded(s, p).(board := board)
    ensures Refunded(s, p).street == s.street
  {
  }

  lemma BoardPlaysNoPartAfter(s: State, board: seq<nat>, action: int, after: State)
    requires after.street != Showdown
    ensures Resolved(s.(board := board), action, after.(board := board)) == Resolved(s, action, after).(board := board)
  {
    var p := s.player;
    TransitionIgnoresBoard(after, board, p);
    TransitionIgnoresBoard(Refunded(after, p), board, p);
    assert StreetComplete(s.(board := board), action, after.(board := board)) == StreetComplete(s, action, after);
    hide StreetComplete, Transition, Refunded;
  }

  lemma ActionKeepsSameBetting(cfg: Config, s: State, t: State, action: int)
    requires SameBetting(s, t) && action in Legal(cfg, s)
    ensures Apply(cfg, s, action).Success? && Apply(cfg, t, action).Success?
    ensures SameBetting(Apply(cfg, s, action).value, Apply(cfg, t, action).value)
  {
    BoardPlaysNoPart(cfg, s, t.board, action);
    assert Acted(cfg, s, action).street == s.street && Acted(cfg, s, action).board == s.board;
    BoardPlaysNoPartAfter(s, t.board, action, Acted(cfg, s, action));
    assert !IsTerminal(s) && s.player != -1 && Legal(cfg, t) == Legal(cfg, s);
    hide Legal, Acted, StreetComplete;
    assert Resolved(s, action, Acted(cfg, s, action)).board == s.board;
  }

  lemma ChanceKeepsSameBetting(s: State, t: State, card: nat, other: nat)
    requires SameBetting(s, t)
    ensures SameBetting(AfterChance(s, card), AfterChance(t, other))
  {
  }

  // ---------------------------------------------------------------- codes record actions without loss

  lemma CodeDeterminesAction(cfg: Config, s: State, a: int, b: int)
    requires ValidConfig(cfg) && Reachable(cfg, s) && a in Legal(cfg, s) && b in Legal(cfg, s)
    requires Sized(cfg, s, a) && Sized(cfg, s, b) && CodeOf(cfg, s, a) == CodeOf(cfg, s, b)
    ensures a == b
  {
    var ctx := ContextOf(cfg, s);
    MenuIsExact(ctx, a);
    MenuIsExact(ctx, b);
    LegalMeansDeciding(cfg, s);
    hide Legal, LegalActions, ValidConfig, Reachable, MayAggress, AllInWanted, BetAmounts, RaiseTargets;
    BetCode(cfg, s, a);
    BetCode(cfg, s, b);
    RaiseCode(cfg, s, a);
    RaiseCode(cfg, s, b);
  }

  lemma LegalMeansDeciding(cfg: Config, s: State)
    requires Reachable(cfg, s) && Legal(cfg, s) != []
    ensures Deciding(cfg, s) && ChipsOk(cfg, s) && !Folded(s) && s.player != -1
  {
    hide LegalActions, MenuFits, HistoryOk, CardsOk;
  }

  lemma BetCode(cfg: Config, s: State, action: int)
    requires ValidConfig(cfg) && ChipsOk(cfg, s) && Deciding(cfg, s) && action in Legal(cfg, s)
    ensures IsBet(action) ==> Sized(cfg, s, action) && CodeOf(cfg, s, action) < 0
    ensures IsBet(action) ==> CodeOf(cfg, s, action) == -BetAmounts(ContextOf(cfg, s))[action - FIRST_BET]
  {
    if IsBet(action) {
      BetAggresses(cfg, s, action);
      MenuIsExact(ContextOf(cfg, s), action);
      ProductPositive(cfg.forceAllInThreshold, cfg.bigBlind);
      hide ValidMenus, ValidCards, ValidPot, LegalActions, BetAmounts, Deciding, TextOf, MayAggress, AllInWanted;
    }
  }

  lemma RaiseCode(cfg: Config, s: State, action: int)
    requires ValidConfig(cfg) && ChipsOk(cfg, s) && Deciding(cfg, s) && action in Legal(cfg, s)
    ensures IsRaise(action) ==> Sized(cfg, s, action) && CodeOf(cfg, s, action) > ALL_IN_CODE
    ensures IsRaise(action) ==>
              CodeOf(cfg, s, action) == RaiseTargets(ContextOf(cfg, s))[action - FIRST_RAISE] + ALL_IN_CODE
  {
    if IsRaise(action) {
      RaiseAggresses(cfg, s, action);
      MenuIsExact(ContextOf(cfg, s), action);
      ProductPositive(cfg.forceAllInThreshold, cfg.bigBlind);
      hide ValidMenus, ValidCards, ValidPot, LegalActions, RaiseTargets, TextOf, MayAggress, AllInWanted;
    }
  }

  // ---------------------------------------------------------------- two runs in lockstep

  /** A player action appends exactly its code; dealing appends nothing. */
  lemma StepCodes(cfg: Config, s: State, action: int)
    requires Apply(cfg, s, action).Success?
    ensures s.player == -1 ==> Codes(Apply(cfg, s, action).value) == Codes(s)
    ensures s.player != -1 ==>
              action in Legal(cfg, s) && Sized(cfg, s, action) &&
              Codes(Apply(cfg, s, action).value) == Codes(s) + [CodeOf(cfg, s, action)]
  {
    if s.player != -1 {
      ListedIsSized(cfg, s, action);
      ActedCodes(cfg, s, action);
      hide Legal, LegalActions, CodeOf, Acted, Flat;
      ResolvedCodes(s, action, Acted(cfg, s, action));
      assert Flat(s.pastCodes) + (s.codes + [CodeOf(cfg, s, action)]) == Codes(s) + [CodeOf(cfg, s, action)];
    }
  }

  lemma ActedCodes(cfg: Config, s: State, action: int)
    requires Sized(cfg, s, action)
    ensures var t := Acted(cfg, s, action);
            t.pastCodes == s.pastCodes && t.codes == s.codes + [CodeOf(cfg, s, action)] && t.street == s.street
  {
    hide CodeOf;
  }

  lemma ResolvedCodes(s: State, action: int, after: State)
    requires after.street != Showdown
    ensures Codes(Resolved(s, action, after)) == Codes(after)
  {
    hide StreetComplete, Flat;
    var r := Resolved(s, action, after);
    if r.pastCodes != after.pastCodes {
      FlatConcat(after.pastCodes, [after.codes]);
      OneStreet(after.codes);
    }
  }

  lemma OneStreet(codes: seq<int>)
    ensures Flat([codes]) == codes && codes + [] == codes
  {
    assert Flat([codes]) == codes + Flat([]);
  }

  /** Along a run the recorded codes only grow. */
  lemma {:induction false} CodesGrow(cfg: Config, s: State, moves: seq<int>, t: State)
    requires Reaches(cfg, s, moves, t)
    ensures Codes(s) <= Codes(t)
    decreases |moves|
  {
    if moves != [] {
      var next := Apply(cfg, s, moves[0]).value;
      StepCodes(cfg, s, moves[0]);
      hide Apply, Codes;
      CodesGrow(cfg, next, moves[1..], t);
    }
  }

  lemma SameBettingCodes(s: State, t: State)
    requires SameBetting(s, t)
    ensures Codes(s) == Codes(t) && s.player == t.player && IsTerminal(s) == IsTerminal(t)
  {
  }

  /** Two states in the same betting state, and two runs of equal length that end with the same codes. */
  lemma {:induction false} Lockstep(cfg: Config, s: State, ms: seq<int>, s': State, t: State, mt: seq<int>, t': State)
    requires ValidConfig(cfg) && Reachable(cfg, s) && Reachable(cfg, t) && SameBetting(s, t)
    requires Reaches(cfg, s, ms, s') && Reaches(cfg, t, mt, t') && |ms| == |mt| && Codes(s') == Codes(t')
    ensures SameBetting(s', t')
    decreases |ms|
  {
    if ms != [] {
      var a, b := ms[0], mt[0];
      var s1, t1 := Apply(cfg, s, a).value, Apply(cfg, t, b).value;
      StepKeeps(cfg, s, a);
      StepKeeps(cfg, t, b);
      CodesGrow(cfg, s1, ms[1..], s');
      CodesGrow(cfg, t1, mt[1..], t');
      StepCodes(cfg, s, a);
      StepCodes(cfg, t, b);
      SameBettingCodes(s, t);
      NextSameBetting(cfg, s, a, t, b, Codes(s'));
      hide ValidConfig, Reachable, SameBetting, Apply, Codes;
      Lockstep(cfg, s1, ms[1..], s', t1, mt[1..], t');
    }
  }

  lemma NextSameBetting(cfg: Config, s: State, a: int, t: State, b: int, codes: seq<int>)
    requires ValidConfig(cfg) && Reachable(cfg, s) && SameBetting(s, t)
    requires Apply(cfg, s, a).Success? && Apply(cfg, t, b).Success?
    requires Codes(Apply(cfg, s, a).value) <= codes && Codes(Apply(cfg, t, b).value) <= codes
    ensures SameBetting(Apply(cfg, s, a).value, Apply(cfg, t, b).value)
  {
    StepCodes(cfg, s, a);
    StepCodes(cfg, t, b);
    SameBettingCodes(s, t);
    if s.player == -1 {
      ChanceKeepsSameBetting(s, t, a, b);
    } else {
      SameNextCode(Codes(s), CodeOf(cfg, s, a), CodeOf(cfg, t, b), codes);
      BoardPlaysNoPart(cfg, s, t.board, b);
      SameCode(cfg, s, t.board, b);
      hide ValidConfig, Reachable, Legal, Acted, CodeOf, Codes;
      CodeDeterminesAction(cfg, s, a, b);
      ActionKeepsSameBetting(cfg, s, t, a);
    }
  }

  lemma SameNextCode(front: seq<int>, a: int, b: int, codes: seq<int>)
    requires front + [a] <= codes && front + [b] <= codes
    ensures a == b
  {
    assert codes[|front|] == (front + [a])[|front|] && codes[|front|] == (front + [b])[|front|];
  }

  lemma SameCode(cfg: Config, s: State, board: seq<nat>, action: int)
    requires Sized(cfg, s, action) && Sized(cfg, s.(board := board), action)
    ensures CodeOf(cfg, s, action) == CodeOf(cfg, s.(board := board), action)
  {
    hide BetOf, RaiseOf;
  }

  /**
   Two runs of one hand whose states print the same information set key are in the same betting state
   with the same player to act, and offer the same actions.
   */
  lemma SameKeySameMenu(cfg: Config, ms: seq<int>, s: State, mt: seq<int>, t: State)
    requires ValidConfig(cfg) && cfg.initialHoleCards.Some?
    requires Reaches(cfg, Initial(cfg), ms, s) && Reaches(cfg, Initial(cfg), mt, t)
    requires 0 <= s.player <= 1 && 0 <= t.player <= 1
    requires Reachable(cfg, s) && Reachable(cfg, t) && Encode(s, s.player).Success? && Encode(t, t.player).Success?
    requires KeyText(Encode(s, s.player).value) == KeyText(Encode(t, t.player).value)
    ensures SameBetting(s, t) && multiset(s.board) == multiset(t.board) && Legal(cfg, s) == Legal(cfg, t)
  {
    var root := Initial(cfg);
    KeysReadBack(cfg, s, t);
    HistoryLengths(cfg, s, t);
    hide KeyText;
    RootReachable(cfg);
    RunKeeps(cfg, root, ms, s);
    RunKeeps(cfg, root, mt, t);
    hide ValidConfig, Reachable, Encode, Legal, Initial;
    assert SameBetting(root, root);
    Lockstep(cfg, root, ms, s, root, mt, t);
    BoardPlaysNoPart(cfg, s, t.board, 0);
  }

  lemma KeysReadBack(cfg: Config, s: State, t: State)
    requires ValidConfig(cfg) && Reachable(cfg, s) && Reachable(cfg, t)
    requires 0 <= s.player <= 1 && 0 <= t.player <= 1
    requires Encode(s, s.player).Success? && Encode(t, t.player).Success?
    requires KeyText(Encode(s, s.player).value) == KeyText(Encode(t, t.player).value)
    ensures multiset(s.board) == multiset(t.board) && s.street == t.street && Streets(s) == Streets(t)
    ensures multiset(Encode(s, s.player).value.hole) == multiset(Encode(t, t.player).value.hole)
  {
    ReachableEncodesCanonically(cfg, s, s.player);
    ReachableEncodesCanonically(cfg, t, t.player);
    assert EncodingOf(s, s.player).street == s.street && EncodingOf(t, t.player).street == t.street;
    hide ValidConfig, Reachable, Streets, EncodingOf, Segments, Canonical, KeyText, ValidEncoding, Sorted;
    SameKeyExactly(Encode(s, s.player).value, Encode(t, t.player).value);
  }

  lemma HistoryLengths(cfg: Config, s: State, t: State)
    requires multiset(s.board) == multiset(t.board) && Streets(s) == Streets(t)
    ensures |s.board| == |t.board| && Codes(s) == Codes(t) && Plies(cfg, s) == Plies(cfg, t)
  {
    assert |multiset(s.board)| == |s.board| && |multiset(t.board)| == |t.board|;
    FlatStreets(s);
    FlatStreets(t);
    FlatCount(s.pastCodes);
    FlatCount(t.pastCodes);
  }
}
