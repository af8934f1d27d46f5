/**
 Every heads-up run: an invariant of all reachable states, and what it gives - bounded streets and
 histories, conserved chips, a card for every deal, an action for every decision.
 */
module HeadsUpRuns {
  import opened Arithmetic
  import opened Wrappers
  import opened CommonTypes
  import opened Poker
  import opened HistoryText
  import opened HeadsUpConfig
  import opened HeadsUpMenu
  import opened HeadsUpState

  const STREET_LIMIT := 12
  const CODE_LIMIT := 48
  const PLY_LIMIT := 53

  // ---------------------------------------------------------------- the invariant, part by part

  /** A player's stack and contribution together, all through the hand. */
  function TotalOf(cfg: Config, p: int): int {
    cfg.startingStack + (if cfg.startingStreet == Preflop then 0 else cfg.initialContributions.At(p))
  }

  predicate EqualTotals(cfg: Config) {
    TotalOf(cfg, 0) == TotalOf(cfg, 1)
  }

  predicate SeatOk(cfg: Config, s: State, p: int) {
    && s.stacks.At(p) >= 0 && s.contributions.At(p) >= 0
    && (s.allIn.At(p) <==> s.stacks.At(p) == 0)
    && s.stacks.At(p) + s.contributions.At(p) == TotalOf(cfg, p)
  }

  predicate ChipsOk(cfg: Config, s: State) {
    SeatOk(cfg, s, 0) && SeatOk(cfg, s, 1)
  }

  predicate CodeOk(code: int) {
    ValidCode(code) && code <= INT_MAX
  }

  function TokensOf(codes: seq<int>): (r: seq<string>)
    requires ValidCodes(codes)
    ensures |r| == |codes|
  {
    if codes == [] then [] else TokensOf(codes[..|codes| - 1]) + [Token(codes[|codes| - 1])]
  }

  /** At most a street's worth of codes, each fitting an int, with the tokens that say the same. */
  predicate StreetOk(codes: seq<int>, tokens: seq<string>) {
    && |codes| <= STREET_LIMIT
    && (forall i :: 0 <= i < |codes| ==> CodeOk(codes[i]))
    && ValidCodes(codes) && tokens == TokensOf(codes)
  }

  predicate HistoryOk(s: State) {
    && |s.pastCodes| == |s.pastTokens| <= 4
    && (forall i :: 0 <= i < |s.pastCodes| ==> s.pastCodes[i] != [] && StreetOk(s.pastCodes[i], s.pastTokens[i]))
    && StreetOk(s.codes, s.tokens)
  }

  predicate CardsOk(s: State) {
    s.hole.Some? && ValidAndDistinct(s.board) && ValidDeal(s.hole.value, s.board)
  }

  /** Streets filed so far, when the current street is still open. */
  predicate OpenStreet(cfg: Config, s: State) {
    && s.street != Showdown && |s.history| == |s.codes| && |s.board| == BoardSize(s.street)
    && |s.pastCodes| == StreetIndex(s.street) - StreetIndex(cfg.startingStreet)
  }

  /** No aggression yet: the first action, or the answer to a check. */
  predicate Unopened(s: State) {
    && s.aggressor == -1 && s.raises == 0 && s.toCall == 0 && |s.codes| <= 1
    && s.street != Preflop && !SomeoneAllIn(s)
  }

  /** Only the blinds are in: the small blind to act, or the big blind after a limp or a check. */
  predicate BlindsOnly(s: State) {
    && s.street == Preflop && s.aggressor == 1 && s.raises == 1 && s.player == |s.codes|
    && (s.player == 1 ==> s.toCall == 0 && !SomeoneAllIn(s))
  }

  /** The opponent bet or raised; each action so far but one raised. */
  predicate FacingBet(s: State) {
    && s.toCall > 0 && s.aggressor == 1 - s.player && s.raises >= 1
    && |s.codes| <= s.raises + 1
    && (s.street == Preflop ==> s.raises >= 2)
  }

  /** The one root with nothing to act with: a small blind and ante worth the whole stack. */
  predicate BlindedOut(cfg: Config, s: State) {
    cfg.startingStreet == Preflop && s.codes == [] && s.street == Preflop && s.player == 0 &&
    cfg.smallBlind + cfg.ante == cfg.startingStack
  }

  predicate Deciding(cfg: Config, s: State) {
    && OpenStreet(cfg, s) && 0 <= s.player <= 1 && s.pendingDeals == 0
    && s.toCall == s.contributions.At(1 - s.player) - s.contributions.At(s.player) >= 0
    && s.raises <= MAX_RAISES_PER_STREET
    && (Unopened(s) || BlindsOnly(s) || FacingBet(s))
    && (s.stacks.At(s.player) > 0 <==> !BlindedOut(cfg, s))
  }

  /** Contributions match unless the players' totals differ. */
  predicate Level(cfg: Config, s: State) {
    EqualTotals(cfg) ==> s.contributions.zero == s.contributions.one
  }

  predicate Dealing(cfg: Config, s: State) {
    && s.street != Showdown && s.pendingDeals > 0 && s.codes == [] && s.history == [] && Level(cfg, s)
    && |s.pastCodes| <= 4
    && s.aggressor == -1 && s.raises == 0 && s.toCall == 0
    && if SomeoneAllIn(s) then s.pendingDeals == 1 && |s.board| < 5
       else
         && s.contributions.zero == s.contributions.one
         && |s.board| + s.pendingDeals == BoardSize(s.street)
         && |s.pastCodes| == StreetIndex(s.street) - StreetIndex(cfg.startingStreet)
  }

  predicate Folded(s: State) {
    s.folded.zero || s.folded.one
  }

  predicate Phase(cfg: Config, s: State) {
    if s.street == Showdown then
      |s.board| == 5 && s.codes == [] && |s.history| <= STREET_LIMIT && !Folded(s) && Level(cfg, s)
    else if Folded(s) then
      s.player == -1 && OpenStreet(cfg, s) && !(s.folded.zero && s.folded.one) && s.codes != []
    else if s.player == -1 then Dealing(cfg, s)
    else Deciding(cfg, s)
  }

  predicate Reachable(cfg: Config, s: State) {
    ChipsOk(cfg, s) && HistoryOk(s) && CardsOk(s) && Phase(cfg, s)
  }

  // ---------------------------------------------------------------- plies

  function CodeCount(past: seq<seq<int>>): (n: nat)
  {
    if past == [] then 0 else CodeCount(past[..|past| - 1]) + |past[|past| - 1]|
  }

  lemma {:induction false} CodeCountBound(past: seq<seq<int>>)
    requires forall i :: 0 <= i < |past| ==> |past[i]| <= STREET_LIMIT
    ensures CodeCount(past) <= STREET_LIMIT * |past|
  {
    if past != [] {
      CodeCountBound(past[..|past| - 1]);
    }
  }

  /** Moves made so far: one per recorded code and one per dealt card. */
  function Plies(cfg: Config, s: State): int {
    CodeCount(s.pastCodes) + |s.codes| + |s.board| - |cfg.initialBoard|
  }

  lemma HistoryFits(cfg: Config, s: State)
    requires ValidConfig(cfg) && Reachable(cfg, s)
    ensures CodeCount(s.pastCodes) + |s.codes| <= CODE_LIMIT
    ensures Plies(cfg, s) <= PLY_LIMIT
    ensures |s.board| <= 5 && |s.pastCodes| <= 4 && (s.codes != [] ==> |s.pastCodes| <= 3)
  {
    forall i | 0 <= i < |s.pastCodes| ensures |s.pastCodes[i]| <= STREET_LIMIT {
      assert StreetOk(s.pastCodes[i], s.pastTokens[i]);
    }
    CodeCountBound(s.pastCodes);
  }

  // ---------------------------------------------------------------- the root

  lemma RootReachable(cfg: Config)
    requires ValidConfig(cfg) && cfg.initialHoleCards.Some?
    ensures Reachable(cfg, Initial(cfg)) && Plies(cfg, Initial(cfg)) == 0
  {
    hide ValidMenus;
    hide ValidAndDistinct;
    var s := Initial(cfg);
    assert s.pastCodes == [] && s.codes == [];
    if cfg.startingStreet == Preflop {
      assert cfg.initialBoard == [];
    }
  }

  /** Dealing hands into a root that had none gives the root of the configuration that had them. */
  lemma LateDealIsRoot(cfg: Config, hole: Hole)
    requires ValidConfig(cfg) && cfg.initialHoleCards.None? && cfg.startingStreet != Showdown
    ensures WithHoleCards(Initial(cfg), hole).Success? <==> ValidDeal(hole, cfg.initialBoard)
    ensures WithHoleCards(Initial(cfg), hole).Success? ==>
              WithHoleCards(Initial(cfg), hole).value == Initial(cfg.(initialHoleCards := Some(hole)))
    ensures !IsTerminal(Initial(cfg)) && forall action :: !Apply(cfg, Initial(cfg), action).Success?
  {
    hide ValidMenus, ValidAndDistinct, ValidDeal, Legal;
  }

  // ---------------------------------------------------------------- amounts

  lemma ProductPositive(a: int, b: int)
    requires a >= 0 && b > 0
    ensures a * b >= 0
    ensures a > 0 ==> a * b > 0
  {
  }

  lemma TotalsFit(cfg: Config, p: int)
    requires ValidConfig(cfg) && 0 <= p <= 1
    ensures TotalOf(cfg, p) <= INT_MAX - ALL_IN_CODE
  {
    hide ValidMenus, ValidCards;
  }

  /** Facts every bet, raise and all-in shares. */
  predicate Aggresses(cfg: Config, s: State, action: int)
    requires Sized(cfg, s, action)
  {
    var p, paid := s.player, Paid(cfg, s, action);
    && 0 < paid <= s.stacks.At(p)
    && s.contributions.At(p) + paid > s.contributions.At(1 - p)
    && s.raises < MAX_RAISES_PER_STREET
    && CodeOk(CodeOf(cfg, s, action)) && TextOf(cfg, s, action) == Token(CodeOf(cfg, s, action))
  }

  lemma BetAggresses(cfg: Config, s: State, action: int)
    requires ValidConfig(cfg) && ChipsOk(cfg, s) && Deciding(cfg, s) && IsBet(action) && action in Legal(cfg, s)
    ensures Sized(cfg, s, action) && Aggresses(cfg, s, action)
  {
    var ctx := ContextOf(cfg, s);
    MenuIsExact(ctx, action);
    hide ValidMenus, ValidCards, ValidPot, LegalActions, AllInWanted, FlopLeadBarred, HistoryText.Decimal,
         RoundHalfEven;
    ProductPositive(cfg.minBetBlinds, cfg.bigBlind);
    ProductPositive(cfg.forceAllInThreshold, cfg.bigBlind);
    var i := action - FIRST_BET;
    assert BetAmounts(ctx)[i] == SizeOf(ctx.pot, MinBet(ctx), BetFractions(ctx)[i]) >= MinBet(ctx);
    assert BetOf(ctx, action) == BetAmounts(ctx)[i];
    TotalsFit(cfg, s.player);
  }

  lemma RaiseAggresses(cfg: Config, s: State, action: int)
    requires ValidConfig(cfg) && ChipsOk(cfg, s) && Deciding(cfg, s) && IsRaise(action) && action in Legal(cfg, s)
    ensures Sized(cfg, s, action) && Aggresses(cfg, s, action)
  {
    var ctx := ContextOf(cfg, s);
    MenuIsExact(ctx, action);
    hide ValidMenus, ValidCards, ValidPot, LegalActions, AllInWanted, FlopLeadBarred, HistoryText.Decimal,
         RoundHalfEven;
    ProductPositive(cfg.forceAllInThreshold, cfg.bigBlind);
    var i := action - FIRST_RAISE;
    assert RaiseTargets(ctx)[i]
           == SizeOf(AggressorTotal(ctx), MinRaiseTo(ctx), RaiseMultipliers(ctx)[i])
           > AggressorTotal(ctx);
    assert AggressorTotal(ctx) == s.contributions.At(1 - s.player);
    assert RaiseOf(ctx, action) == RaiseTargets(ctx)[i];
    TotalsFit(cfg, s.player);
  }

  lemma AllInAggresses(cfg: Config, s: State)
    requires ValidConfig(cfg) && ChipsOk(cfg, s) && Deciding(cfg, s) && ALL_IN in Legal(cfg, s)
    ensures Aggresses(cfg, s, ALL_IN)
  {
    MenuIsExact(ContextOf(cfg, s), ALL_IN);
    hide ValidMenus, ValidCards, ValidPot, LegalActions, AllInWanted, FlopLeadBarred, HistoryText.Decimal;
  }

  // ---------------------------------------------------------------- one player action

  /** The chips and history of a state after an action that was on the menu. */
  predicate Recorded(cfg: Config, s: State, t: State) {
    ChipsOk(cfg, t) && HistoryOk(t) && CardsOk(t) && Plies(cfg, t) == Plies(cfg, s) + 1
  }

  lemma TokensGrow(codes: seq<int>, tokens: seq<string>, code: int, token: string)
    requires StreetOk(codes, tokens) && |codes| < STREET_LIMIT && CodeOk(code) && token == Token(code)
    ensures StreetOk(codes + [code], tokens + [token])
  {
    hide Token;
    assert (codes + [code])[..|codes|] == codes;
  }

  predicate PlainAction(action: int) {
    action == FOLD || action == CHECK || action == CALL
  }

  /** The code recorded is a valid one, and the text recorded is its token. */
  lemma RecordedCode(cfg: Config, s: State, action: int)
    requires Reachable(cfg, s) && Deciding(cfg, s) && Sized(cfg, s, action)
    requires PlainAction(action) || (Aggressive(action) && Aggresses(cfg, s, action))
    ensures CodeOk(CodeOf(cfg, s, action)) && TextOf(cfg, s, action) == Token(CodeOf(cfg, s, action))
  {
    hide Decimal, Legal, HistoryOk, CardsOk, Plies;
  }

  lemma ActedChips(cfg: Config, s: State, action: int)
    requires Reachable(cfg, s) && Deciding(cfg, s) && Sized(cfg, s, action)
    requires 0 <= Paid(cfg, s, action) <= s.stacks.At(s.player) && s.stacks.At(s.player) > 0
    requires PlainAction(action) || (Aggressive(action) && Aggresses(cfg, s, action))
    ensures ChipsOk(cfg, Acted(cfg, s, action)) && CardsOk(Acted(cfg, s, action))
  {
    hide CodeOf, TextOf, Token, TokensOf, Legal, BetOf, RaiseOf, HistoryOk, Plies;
  }

  lemma ActedHistory(cfg: Config, s: State, action: int)
    requires Reachable(cfg, s) && Deciding(cfg, s) && Sized(cfg, s, action)
    requires PlainAction(action) || (Aggressive(action) && Aggresses(cfg, s, action))
    ensures var t := Acted(cfg, s, action); HistoryOk(t) && Plies(cfg, t) == Plies(cfg, s) + 1
  {
    RecordedCode(cfg, s, action);
    hide Paid, CodeOf, TextOf, Token, TokensOf, Legal, BetOf, RaiseOf, ChipsOk, CardsOk;
    TokensGrow(s.codes, s.tokens, CodeOf(cfg, s, action), TextOf(cfg, s, action));
    hide StreetOk;
  }

  lemma ActedRecorded(cfg: Config, s: State, action: int)
    requires Reachable(cfg, s) && Deciding(cfg, s) && Sized(cfg, s, action)
    requires 0 <= Paid(cfg, s, action) <= s.stacks.At(s.player) && s.stacks.At(s.player) > 0
    requires PlainAction(action) || (Aggressive(action) && Aggresses(cfg, s, action))
    ensures Recorded(cfg, s, Acted(cfg, s, action))
  {
    ActedChips(cfg, s, action);
    ActedHistory(cfg, s, action);
    hide Acted, HistoryOk, ChipsOk, CardsOk, Plies;
  }

  lemma TransitionRecorded(cfg: Config, s: State)
    requires ChipsOk(cfg, s) && HistoryOk(s) && CardsOk(s)
    requires s.street != Showdown && |s.pastCodes| <= 3 && s.codes != []
    ensures var t := Transition(s); ChipsOk(cfg, t) && HistoryOk(t) && CardsOk(t) && Plies(cfg, t) == Plies(cfg, s)
  {
    assert StreetOk([], []);
    hide StreetOk;
    var t := Transition(s);
    assert t.pastCodes[..|t.pastCodes| - 1] == s.pastCodes;
  }

  lemma TurnPasses(cfg: Config, s: State, t: State, player: int)
    requires Recorded(cfg, s, t)
    ensures Recorded(cfg, s, t.(player := player))
  {
    hide StreetOk;
  }

  lemma FoldPhase(cfg: Config, s: State)
    requires Deciding(cfg, s) && !Folded(s) && FOLD in Legal(cfg, s)
    ensures Resolved(s, FOLD, Acted(cfg, s, FOLD)) == Acted(cfg, s, FOLD).(player := -1)
    ensures Phase(cfg, AfterPlayer(cfg, s, FOLD))
  {
    hide Legal, LegalActions, StreetComplete, Paid, CodeOf, TextOf, Unopened, BlindsOnly, FacingBet, BlindedOut,
         Transition, Refunded;
  }

  lemma FoldKeeps(cfg: Config, s: State)
    requires ValidConfig(cfg) && Reachable(cfg, s) && Deciding(cfg, s) && !Folded(s) && FOLD in Legal(cfg, s)
    ensures var t := AfterPlayer(cfg, s, FOLD); Reachable(cfg, t) && Plies(cfg, t) == Plies(cfg, s) + 1
  {
    MenuIsExact(ContextOf(cfg, s), FOLD);
    ActedRecorded(cfg, s, FOLD);
    FoldPhase(cfg, s);
    TurnPasses(cfg, s, Acted(cfg, s, FOLD), -1);
    hide HistoryOk, ChipsOk, ValidConfig, Legal, LegalActions, CardsOk, Phase, Acted, Resolved, Deciding, Plies;
  }

  /** A street may close once contributions match, or once someone is all in. */
  predicate Closable(cfg: Config, s: State) {
    && s.street != Showdown && !Folded(s) && Level(cfg, s) && |s.board| == BoardSize(s.street)
    && |s.history| <= STREET_LIMIT
    && |s.pastCodes| == StreetIndex(s.street) - StreetIndex(cfg.startingStreet)
    && (!SomeoneAllIn(s) ==> s.contributions.zero == s.contributions.one)
  }

  lemma TransitionPhase(cfg: Config, s: State)
    requires Closable(cfg, s)
    ensures Phase(cfg, Transition(s))
  {
  }

  lemma TransitionKeeps(cfg: Config, s: State, t: State)
    requires Recorded(cfg, s, t) && Closable(cfg, t) && t.codes != []
    ensures Reachable(cfg, Transition(t)) && Plies(cfg, Transition(t)) == Plies(cfg, s) + 1
  {
    TransitionPhase(cfg, t);
    TransitionRecorded(cfg, t);
  }

  lemma DecidingIsReachable(cfg: Config, s: State, t: State)
    requires Recorded(cfg, s, t) && Deciding(cfg, t) && !Folded(t)
    ensures Reachable(cfg, t) && Plies(cfg, t) == Plies(cfg, s) + 1
  {
    hide HistoryOk, ChipsOk, CardsOk, Plies;
  }

  lemma CheckPhase(cfg: Config, s: State)
    requires ChipsOk(cfg, s) && Deciding(cfg, s) && !Folded(s) && CHECK in Legal(cfg, s)
    ensures var t := Acted(cfg, s, CHECK);
            if StreetComplete(s, CHECK, t) then Closable(cfg, t) && t.codes != []
            else !t.allIn.At(1 - s.player) && Deciding(cfg, t.(player := 1 - s.player))
  {
    MenuIsExact(ContextOf(cfg, s), CHECK);
    assert Paid(cfg, s, CHECK) == 0;
    hide Legal, LegalActions, Paid, CodeOf, TextOf;
  }

  /** A check passes the turn unless it completes the street. */
  lemma CheckResolves(cfg: Config, s: State)
    requires Reachable(cfg, s) && Deciding(cfg, s) && !Folded(s) && CHECK in Legal(cfg, s)
    ensures Sized(cfg, s, CHECK)
    ensures var t := Acted(cfg, s, CHECK);
            && !Folded(t) && t.street == s.street != Showdown
            && AfterPlayer(cfg, s, CHECK)
               == if StreetComplete(s, CHECK, t) then Transition(t) else t.(player := 1 - s.player)
  {
    MenuIsExact(ContextOf(cfg, s), CHECK);
    CheckPhase(cfg, s);
    hide Legal, LegalActions, Transition, StreetComplete, Plies, HistoryOk, CardsOk, ChipsOk, CodeOf, TextOf, Paid;
  }

  lemma CheckKeeps(cfg: Config, s: State)
    requires ValidConfig(cfg) && Reachable(cfg, s) && Deciding(cfg, s) && !Folded(s) && CHECK in Legal(cfg, s)
    ensures var t := AfterPlayer(cfg, s, CHECK); Reachable(cfg, t) && Plies(cfg, t) == Plies(cfg, s) + 1
  {
    CheckResolves(cfg, s);
    CheckPhase(cfg, s);
    ActedRecorded(cfg, s, CHECK);
    hide Legal, Acted, StreetComplete, Deciding, Closable, Recorded, Reachable, Plies, ValidConfig, AfterPlayer,
         Transition;
    var t := Acted(cfg, s, CHECK);
    if StreetComplete(s, CHECK, t) {
      TransitionKeeps(cfg, s, t);
    } else {
      TurnPasses(cfg, s, t, 1 - s.player);
      DecidingIsReachable(cfg, s, t.(player := 1 - s.player));
    }
  }

  /** A small blind's limp leaves the big blind to act, or all in; every other call closes the street. */
  lemma LimpPhase(cfg: Config, s: State)
    requires ChipsOk(cfg, s) && Deciding(cfg, s) && BlindsOnly(s) && !Folded(s) && CALL in Legal(cfg, s)
    ensures var t := Acted(cfg, s, CALL);
            && !StreetComplete(s, CALL, t) && t.contributions.zero == t.contributions.one
            && if t.allIn.At(1 - s.player) then Closable(cfg, t) && t.codes != []
               else Deciding(cfg, t.(player := 1 - s.player))
  {
    MenuIsExact(ContextOf(cfg, s), CALL);
    assert s.toCall > 0;
    hide Legal, LegalActions, CodeOf, TextOf;
    assert cfg.startingStreet == Preflop && s.player == 0;
    assert Paid(cfg, s, CALL) == s.toCall;
    assert s.contributions.zero + s.toCall == s.contributions.one;
    assert !StreetComplete(s, CALL, Acted(cfg, s, CALL));
  }

  lemma CallPhase(cfg: Config, s: State)
    requires ChipsOk(cfg, s) && Deciding(cfg, s) && FacingBet(s) && !Folded(s) && CALL in Legal(cfg, s)
    ensures var t := Acted(cfg, s, CALL); StreetComplete(s, CALL, t) && Closable(cfg, t) && t.codes != []
    ensures var t := Acted(cfg, s, CALL);
            t.contributions.zero == t.contributions.one <==> s.toCall <= s.stacks.At(s.player)
  {
    hide Legal, LegalActions, CodeOf, TextOf;
    assert Paid(cfg, s, CALL) == Min(s.toCall, s.stacks.At(s.player));
  }

  lemma RefundOfMatched(s: State, p: int)
    requires s.contributions.zero == s.contributions.one && s.toCall == 0
    ensures Refunded(s, p) == s
  {
  }

  lemma CallKeeps(cfg: Config, s: State)
    requires ValidConfig(cfg) && Reachable(cfg, s) && Deciding(cfg, s) && !Folded(s) && CALL in Legal(cfg, s)
    ensures var t := AfterPlayer(cfg, s, CALL); Reachable(cfg, t) && Plies(cfg, t) == Plies(cfg, s) + 1
  {
    MenuIsExact(ContextOf(cfg, s), CALL);
    ActedRecorded(cfg, s, CALL);
    var t := Acted(cfg, s, CALL);
    assert !Folded(t) && t.street == s.street && t.toCall == 0;
    assert FacingBet(s) || BlindsOnly(s);
    hide HistoryOk, ChipsOk, Plies, ValidConfig, Legal, LegalActions, CardsOk, Deciding, StreetComplete, Closable,
         StreetOk, Acted;
    if FacingBet(s) {
      CallPhase(cfg, s);
      TransitionKeeps(cfg, s, t);
      assert AfterPlayer(cfg, s, CALL) == Transition(t);
    } else {
      LimpPhase(cfg, s);
      if t.allIn.At(1 - s.player) {
        RefundOfMatched(t, s.player);
        TransitionKeeps(cfg, s, t);
        assert AfterPlayer(cfg, s, CALL) == Transition(t);
      } else {
        TurnPasses(cfg, s, t, 1 - s.player);
        assert AfterPlayer(cfg, s, CALL) == t.(player := 1 - s.player);
        DecidingIsReachable(cfg, s, t.(player := 1 - s.player));
      }
    }
  }

  lemma AggressionPhase(cfg: Config, s: State, action: int)
    requires ChipsOk(cfg, s) && Deciding(cfg, s) && !Folded(s)
    requires Aggressive(action) && Sized(cfg, s, action) && Aggresses(cfg, s, action)
    ensures var t := Acted(cfg, s, action);
            && !StreetComplete(s, action, t)
            && if t.allIn.At(1 - s.player) then Closable(cfg, Refunded(t, s.player)) && t.codes != []
               else Deciding(cfg, t.(player := 1 - s.player))
  {
    hide CodeOf, TextOf, Token;
    var t := Acted(cfg, s, action);
    assert t.toCall == t.contributions.At(s.player) - t.contributions.At(1 - s.player) > 0 by {
      hide Paid;
    }
    hide Paid;
  }

  lemma RefundRecorded(cfg: Config, s: State, t: State, p: int)
    requires Recorded(cfg, s, t) && 0 <= p <= 1 && t.contributions.At(p) > t.contributions.At(1 - p)
    ensures Recorded(cfg, s, Refunded(t, p)) && Refunded(t, p).codes == t.codes
  {
    hide StreetOk;
  }

  /** An aggressive action on the menu raises what the player has in. */
  lemma ListedAggresses(cfg: Config, s: State, action: int)
    requires ValidConfig(cfg) && ChipsOk(cfg, s) && Deciding(cfg, s)
    requires Aggressive(action) && action in Legal(cfg, s) && Sized(cfg, s, action)
    ensures Aggresses(cfg, s, action)
  {
    hide ValidConfig, ChipsOk, Deciding, Legal, Aggresses, Sized;
    if IsBet(action) {
      BetAggresses(cfg, s, action);
    } else if IsRaise(action) {
      RaiseAggresses(cfg, s, action);
    } else {
      AllInAggresses(cfg, s);
    }
  }

  lemma PutsInMore(cfg: Config, s: State, action: int)
    requires ChipsOk(cfg, s) && Deciding(cfg, s) && !Folded(s)
    requires Aggressive(action) && Sized(cfg, s, action) && Aggresses(cfg, s, action)
    ensures var t := Acted(cfg, s, action);
            !Folded(t) && t.street == s.street && t.contributions.At(s.player) > t.contributions.At(1 - s.player)
  {
    hide Paid, CodeOf, TextOf, Token;
  }

  lemma AggressionKeeps(cfg: Config, s: State, action: int)
    requires ValidConfig(cfg) && Reachable(cfg, s) && Deciding(cfg, s) && !Folded(s)
    requires Aggressive(action) && action in Legal(cfg, s) && Sized(cfg, s, action)
    ensures var t := AfterPlayer(cfg, s, action); Reachable(cfg, t) && Plies(cfg, t) == Plies(cfg, s) + 1
  {
    ListedAggresses(cfg, s, action);
    ActedRecorded(cfg, s, action);
    AggressionPhase(cfg, s, action);
    var p, t := s.player, Acted(cfg, s, action);
    PutsInMore(cfg, s, action);
    hide HistoryOk, ChipsOk, Plies, ValidConfig, Legal, LegalActions, CardsOk, Deciding, StreetComplete, Closable,
         StreetOk, Acted, Aggresses, Sized;
    if t.allIn.At(1 - p) {
      RefundRecorded(cfg, s, t, p);
      TransitionKeeps(cfg, s, Refunded(t, p));
      assert AfterPlayer(cfg, s, action) == Transition(Refunded(t, p));
    } else {
      TurnPasses(cfg, s, t, 1 - p);
      assert AfterPlayer(cfg, s, action) == t.(player := 1 - p);
      DecidingIsReachable(cfg, s, t.(player := 1 - p));
    }
  }

  // ---------------------------------------------------------------- one card

  lemma DealtCards(s: State, card: nat)
    requires CardsOk(s) && Dealable(s, card)
    ensures ValidAndDistinct(s.board + [card]) && ValidDeal(s.hole.value, s.board + [card])
  {
    var board := s.board + [card];
    forall i, j | 0 <= i < 4 && 0 <= j < |board| ensures HoleCards(s.hole.value)[i] != board[j] {
      assert j < |s.board| ==> board[j] == s.board[j];
    }
    forall i, j | 0 <= i < j < |board| ensures board[i] != board[j] {
      assert board[i] == s.board[i];
      assert s.board[i] in s.board;
    }
  }

  lemma ChanceKeeps(cfg: Config, s: State, card: nat)
    requires ValidConfig(cfg) && Reachable(cfg, s) && !IsTerminal(s) && s.player == -1 && Dealable(s, card)
    ensures var t := AfterChance(s, card); Reachable(cfg, t) && Plies(cfg, t) == Plies(cfg, s) + 1
  {
    DealtCards(s, card);
    hide ValidConfig, StreetOk, ValidDeal, ValidAndDistinct, Dealable;
    var t := AfterChance(s, card);
    assert t.board == s.board + [card];
    assert s.street != Preflop || SomeoneAllIn(s);
  }

  // ---------------------------------------------------------------- every run

  /** Any accepted move keeps the invariant and costs exactly one ply. */
  lemma StepKeeps(cfg: Config, s: State, action: int)
    requires ValidConfig(cfg) && Reachable(cfg, s) && Apply(cfg, s, action).Success?
    ensures var t := Apply(cfg, s, action).value; Reachable(cfg, t) && Plies(cfg, t) == Plies(cfg, s) + 1
  {
    hide LegalActions, ValidConfig, ChipsOk, HistoryOk, CardsOk, AfterPlayer, AfterChance, Plies, Sized;
    if s.player == -1 {
      ChanceKeeps(cfg, s, action);
    } else {
      var ctx := ContextOf(cfg, s);
      ListedIsSized(cfg, s, action);
      MenuIsExact(ctx, action);
      assert action in Legal(cfg, s) && Deciding(cfg, s);
      if action == FOLD {
        FoldKeeps(cfg, s);
      } else if action == CHECK {
        CheckKeeps(cfg, s);
      } else if action == CALL {
        CallKeeps(cfg, s);
      } else {
        AggressionKeeps(cfg, s, action);
      }
    }
  }

  predicate Reaches(cfg: Config, s: State, moves: seq<int>, t: State)
    decreases |moves|
  {
    if moves == [] then s == t
    else Apply(cfg, s, moves[0]).Success? && Reaches(cfg, Apply(cfg, s, moves[0]).value, moves[1..], t)
  }

  lemma {:induction false} RunKeeps(cfg: Config, s: State, moves: seq<int>, t: State)
    requires ValidConfig(cfg) && Reachable(cfg, s) && Reaches(cfg, s, moves, t)
    ensures Reachable(cfg, t) && Plies(cfg, t) == Plies(cfg, s) + |moves|
    decreases |moves|
  {
    hide Apply, Reachable, Plies;
    if moves != [] {
      StepKeeps(cfg, s, moves[0]);
      RunKeeps(cfg, Apply(cfg, s, moves[0]).value, moves[1..], t);
    }
  }

  /**
   From any root: no street has more than 12 actions, no history more than 48 codes, no run more than 53
   moves; each player's stack and contribution keep their total and no stack goes negative.
   */
  lemma RunsAreBounded(cfg: Config, moves: seq<int>, t: State)
    requires ValidConfig(cfg) && cfg.initialHoleCards.Some? && Reaches(cfg, Initial(cfg), moves, t)
    ensures |t.codes| <= STREET_LIMIT && forall i :: 0 <= i < |t.pastCodes| ==> 0 < |t.pastCodes[i]| <= STREET_LIMIT
    ensures CodeCount(t.pastCodes) + |t.codes| <= CODE_LIMIT
    ensures |moves| == Plies(cfg, t) <= PLY_LIMIT
    ensures forall p :: 0 <= p <= 1 ==>
                          t.stacks.At(p) >= 0 && t.stacks.At(p) + t.contributions.At(p) == TotalOf(cfg, p) &&
                          TotalOf(cfg, p) == Initial(cfg).stacks.At(p) + Initial(cfg).contributions.At(p)
  {
    RootReachable(cfg);
    RunKeeps(cfg, Initial(cfg), moves, t);
    HistoryFits(cfg, t);
    hide ValidConfig, Apply, CardsOk, Phase, Reaches, TotalOf;
    assert ChipsOk(cfg, t) && ChipsOk(cfg, Initial(cfg));
    forall i | 0 <= i < |t.pastCodes| ensures 0 < |t.pastCodes[i]| <= STREET_LIMIT {
      assert StreetOk(t.pastCodes[i], t.pastTokens[i]);
    }
  }

  // ---------------------------------------------------------------- no run gets stuck

  function HeldBelow(held: seq<nat>, k: nat): set<nat> {
    set c: nat | c in held && c < k
  }

  lemma {:induction false} RemainingCount(held: seq<nat>, k: nat)
    ensures |RemainingCards(held, k)| + |HeldBelow(held, k)| == k
  {
    if k == 0 {
      assert HeldBelow(held, k) == {};
    } else {
      RemainingCount(held, k - 1);
      var before := RemainingCards(held, k - 1);
      assert RemainingCards(held, k) == before + (if k - 1 in held then [] else [k - 1]);
      hide RemainingCards;
      if k - 1 in held {
        assert HeldBelow(held, k) == HeldBelow(held, k - 1) + {k - 1};
      } else {
        assert HeldBelow(held, k) == HeldBelow(held, k - 1);
      }
    }
  }

  lemma {:induction false} HeldBelowSize(held: seq<nat>, k: nat)
    ensures |HeldBelow(held, k)| <= |held|
  {
    if held == [] {
      assert HeldBelow(held, k) == {};
    } else {
      HeldBelowSize(held[1..], k);
      assert held == [held[0]] + held[1..];
      if held[0] < k {
        assert HeldBelow(held, k) == HeldBelow(held[1..], k) + {held[0]};
      } else {
        assert HeldBelow(held, k) == HeldBelow(held[1..], k);
      }
    }
  }

  /** A chance node has at least 44 cards to deal, and accepts exactly those. */
  lemma ChanceNeverStuck(cfg: Config, s: State)
    requires Reachable(cfg, s) && !IsTerminal(s) && s.player == -1
    ensures |RemainingCards(Held(s), DECK)| >= 44
    ensures forall c :: c in RemainingCards(Held(s), DECK) <==> Apply(cfg, s, c).Success?
  {
    RemainingCount(Held(s), DECK);
    HeldBelowSize(Held(s), DECK);
    hide ChipsOk, HistoryOk, AfterChance;
    forall c: nat ensures c in RemainingCards(Held(s), DECK) <==> Dealable(s, c) {
      RemainingAreUnheld(Held(s), DECK, c);
      assert c in Held(s) <==> c in HoleCards(s.hole.value) || c in s.board;
    }
  }

  /** The one guard of the menu's arithmetic that can throw on a run: the smallest raise. */
  predicate RaiseOverflows(ctx: Context) {
    MayAggress(ctx) && ctx.toCall > 0 && RaiseMultipliers(ctx) != [] && AggressorTotal(ctx) + ctx.toCall > INT_MAX
  }

  lemma RoundableUpTo(a: int, b: int, f: real)
    requires 0 <= a <= b && f >= 0.0 && f * b as real <= INT_MAX as real
    ensures Scalable(a, f)
  {
    assert (b - a) as real * f >= 0.0;
  }

  lemma MenusRoundable(cfg: Config, ctx: Context, base: int)
    requires ValidConfig(cfg) && ctx.cfg == cfg && 0 <= base <= MaximumPot(cfg)
    ensures AllRoundable(base, BetFractions(ctx)) && AllRoundable(base, RaiseMultipliers(ctx))
  {
    hide ValidChips, ValidCards, ValidPot, MaximumPot, Scalable;
    forall i | 0 <= i < |BetFractions(ctx)| ensures Scalable(base, BetFractions(ctx)[i]) {
      RoundableUpTo(base, MaximumPot(cfg), BetFractions(ctx)[i]);
    }
    forall i | 0 <= i < |RaiseMultipliers(ctx)| ensures Scalable(base, RaiseMultipliers(ctx)[i]) {
      assert RaiseMultipliers(ctx)[i] == cfg.raiseMultipliers[i];
      RoundableUpTo(base, MaximumPot(cfg), RaiseMultipliers(ctx)[i]);
    }
  }

  /** On every run the pot and all menu sizes fit, and the menu throws exactly when the smallest raise does not. */
  lemma MenuFitsExactly(cfg: Config, s: State)
    requires ValidConfig(cfg) && ChipsOk(cfg, s) && Deciding(cfg, s)
    ensures var ctx := ContextOf(cfg, s);
            && 0 <= ctx.pot <= MaximumPot(cfg)
            && (MenuFits(ctx) <==> Stack(ctx) <= 0 || !RaiseOverflows(ctx))
    ensures EqualTotals(cfg) ==> MenuFits(ContextOf(cfg, s))
  {
    var ctx := ContextOf(cfg, s);
    ProductPositive(cfg.forceAllInThreshold, cfg.bigBlind);
    ProductPositive(cfg.minBetBlinds, cfg.bigBlind);
    hide ValidMenus, ValidCards, Unopened, BlindsOnly;
    assert 0 <= ctx.pot <= MaximumPot(cfg);
    assert ctx.toCall > 0 ==> 0 <= AggressorTotal(ctx) && AggressorTotal(ctx) + cfg.bigBlind <= MaximumPot(cfg);
    assert ctx.contributions.At(ctx.player) + Stack(ctx) <= INT_MAX;
    MenusRoundable(cfg, ctx, ctx.pot);
    if ctx.toCall > 0 {
      MenusRoundable(cfg, ctx, AggressorTotal(ctx));
    }
    hide ValidConfig, ChipsOk, AllRoundable, BetFractions, RaiseMultipliers, MayAggress, Deciding;
  }

  /** A decision has a move unless the blinds took the whole stack or its smallest raise is no int; all are accepted. */
  lemma DecisionNeverStuck(cfg: Config, s: State)
    requires ValidConfig(cfg) && Reachable(cfg, s) && !IsTerminal(s) && s.player != -1
    ensures Legal(cfg, s) == [] <==> BlindedOut(cfg, s) || RaiseOverflows(ContextOf(cfg, s))
    ensures EqualTotals(cfg) ==> !RaiseOverflows(ContextOf(cfg, s)) || BlindedOut(cfg, s)
    ensures forall a :: a in Legal(cfg, s) <==> Apply(cfg, s, a).Success?
  {
    var ctx := ContextOf(cfg, s);
    MenuIsExact(ctx, CHECK);
    MenuIsExact(ctx, FOLD);
    MenuFitsExactly(cfg, s);
    hide LegalActions, ValidConfig, HistoryOk, CardsOk, AfterPlayer, Sized, Unopened, FacingBet, MenuFits;
  }

  /** Every finished hand can be paid out: a showdown has its five cards. */
  lemma TerminalsPayOut(cfg: Config, moves: seq<int>, t: State, strength: seq<nat> -> int)
    requires ValidConfig(cfg) && cfg.initialHoleCards.Some? && Reaches(cfg, Initial(cfg), moves, t) && IsTerminal(t)
    ensures Utility(cfg, t, strength).Success?
    ensures var u := Utility(cfg, t, strength).value; u.0 + u.1 == cfg.initialPot as real / cfg.bigBlind as real
    ensures !Folded(t) ==> |t.board| == 5 && (EqualTotals(cfg) ==> t.contributions.zero == t.contributions.one)
  {
    RootReachable(cfg);
    RunKeeps(cfg, Initial(cfg), moves, t);
    UtilitiesShareThePot(cfg, t, strength);
    hide ValidMenus, ValidCards, ValidPot, ChipsOk, HistoryOk, Reaches, Initial;
  }

  // ---------------------------------------------------------------- roots with unequal contributions

  /**
   A postflop root facing a bet: the call matches the pot exactly when the caller's stack covers it;
   otherwise the difference stays in the pot and is not refunded.
   */
  lemma RootCallMatchesExactly(cfg: Config)
    requires ValidConfig(cfg) && cfg.initialHoleCards.Some?
    requires cfg.startingStreet != Preflop && cfg.startingStreet != Showdown
    requires cfg.initialContributions.zero != cfg.initialContributions.one
    requires CALL in Legal(cfg, Initial(cfg))
    ensures var c := cfg.initialContributions;
            var gap := Max(c.zero, c.one) - Min(c.zero, c.one);
            var r := Apply(cfg, Initial(cfg), CALL);
            && r.Success?
            && r.value.contributions == (if c.zero < c.one then Pair(c.zero + Min(gap, cfg.startingStack), c.one)
                                         else Pair(c.zero, c.one + Min(gap, cfg.startingStack)))
            && (r.value.contributions.zero == r.value.contributions.one <==> gap <= cfg.startingStack)
  {
    var s := Initial(cfg);
    RootReachable(cfg);
    assert FacingBet(s) && Deciding(cfg, s) by {
      hide ValidConfig;
    }
    CallPhase(cfg, s);
    var t := Acted(cfg, s, CALL);
    assert t.street == s.street && !Folded(t) && Transition(t).contributions == t.contributions by {
      hide ValidConfig;
    }
    hide ValidConfig, Legal, LegalActions, Acted, StreetComplete, ChipsOk, Transition;
  }

  /** Such a root is playable exactly when its smallest raise is an int, or no raise can be offered. */
  lemma RootOverflowsExactly(cfg: Config)
    requires ValidConfig(cfg) && cfg.initialHoleCards.Some?
    requires cfg.startingStreet != Preflop && cfg.startingStreet != Showdown
    requires cfg.initialContributions.zero != cfg.initialContributions.one
    ensures var c := cfg.initialContributions;
            Legal(cfg, Initial(cfg)) == [] <==>
              cfg.postflopRaiseCap > 1 && cfg.raiseMultipliers != [] &&
              2 * Max(c.zero, c.one) - Min(c.zero, c.one) > INT_MAX
  {
    var s := Initial(cfg);
    RootReachable(cfg);
    DecisionNeverStuck(cfg, s);
    hide ValidConfig, Legal, Reachable, ChipsOk, Apply;
    assert RaiseMultipliers(ContextOf(cfg, s)) == [] <==> cfg.raiseMultipliers == [];
  }

  const HUGE_CALL_ROOT := Config(
    startingStack := 1, smallBlind := 0, bigBlind := 1, ante := 0, startingStreet := River,
    initialBoard := [0, 1, 2, 3, 4], initialPot := 2_000_000_000,
    initialContributions := Pair(0, 2_000_000_000), initialHoleCards := Some(Pair(Hand(5, 6), Hand(7, 8))),
    preflopRaiseCap := 4, postflopRaiseCap := 3, betFractions := [], flopFractions := None, turnFractions := None,
    riverFractions := None, raiseMultipliers := [1.0], includeAllIn := true, autoAllInSpr := None,
    forceAllInThreshold := 1, minBetBlinds := 1, allowFlopLead := false, depthLimitPlies := 0)

  /** Validation lets such a root through. */
  lemma ValidatedRootCanOverflow()
    ensures ValidConfig(HUGE_CALL_ROOT) && Legal(HUGE_CALL_ROOT, Initial(HUGE_CALL_ROOT)) == []
  {
    var cfg := HUGE_CALL_ROOT;
    assert ValidChips(cfg) && ValidMenus(cfg) && ValidPot(cfg);
    assert ValidCards(cfg);
    RootOverflowsExactly(cfg);
  }

  /** A bet of 500 into a stack of 100. */
  const SHORT_CALL_ROOT := HUGE_CALL_ROOT.(
    startingStack := 100, initialPot := 500, initialContributions := Pair(0, 500))

  /** The call is offered and accepted, and 400 chips nobody matched stay in the pot. */
  lemma ShortCallIsNotRefunded()
    ensures var cfg := SHORT_CALL_ROOT;
            && ValidConfig(cfg) && CALL in Legal(cfg, Initial(cfg))
            && Apply(cfg, Initial(cfg), CALL).Success?
            && Apply(cfg, Initial(cfg), CALL).value.contributions == Pair(100, 500)
  {
    hide ValidConfig, Legal, Apply, Initial;
    var cfg := SHORT_CALL_ROOT;
    ShortCallRootIsValid();
    RootOverflowsExactly(cfg);
    RootOffersCall(cfg);
    RootCallMatchesExactly(cfg);
  }

  lemma ShortCallRootIsValid()
    ensures ValidConfig(SHORT_CALL_ROOT)
  {
    var cfg := SHORT_CALL_ROOT;
    assert ValidChips(cfg) && ValidMenus(cfg) && ValidPot(cfg);
    assert ValidCards(cfg);
  }

  /** A root facing a bet offers the call whenever its menu offers anything. */
  lemma RootOffersCall(cfg: Config)
    requires ValidConfig(cfg) && cfg.initialHoleCards.Some?
    requires cfg.startingStreet != Preflop && cfg.startingStreet != Showdown
    requires cfg.initialContributions.zero != cfg.initialContributions.one
    ensures CALL in Legal(cfg, Initial(cfg)) <==> Legal(cfg, Initial(cfg)) != []
  {
    MenuIsExact(ContextOf(cfg, Initial(cfg)), CALL);
    hide LegalActions;
  }
}
