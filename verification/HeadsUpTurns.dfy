/**
 What the moves of a heads-up hand do, told from the fields of the state: what the root holds, which actions
 are listed at which sizes, what an accepted one pays, when a street closes, and who opens a dealt street.
 */
module HeadsUpTurns {
  import opened Arithmetic
  import opened Wrappers
  import opened CommonTypes
  import opened Poker
  import opened HistoryText
  import opened HeadsUpConfig
  import opened HeadsUpMenu
  import opened HeadsUpState
  import opened HeadsUpRuns

  // ---------------------------------------------------------------- the root

  /** Who speaks first: the small blind, later the player who has put in less, player 1 when nobody has. */
  function FirstToSpeak(cfg: Config): int {
    var c := cfg.initialContributions;
    if cfg.initialHoleCards.None? then -1
    else if cfg.startingStreet == Preflop || c.zero < c.one then 0
    else 1
  }

  /** The root of a validated configuration: blinds and antes before the flop, the given contributions after it. */
  lemma RootExactly(cfg: Config)
    requires ValidConfig(cfg)
    ensures var s, c := Initial(cfg), cfg.initialContributions;
            && s.street == cfg.startingStreet && s.board == cfg.initialBoard && s.hole == cfg.initialHoleCards
            && s.player == FirstToSpeak(cfg)
            && (if cfg.startingStreet == Preflop then
                  && s.contributions == Pair(cfg.smallBlind + cfg.ante, cfg.bigBlind + cfg.ante)
                  && s.stacks == Pair(cfg.startingStack - s.contributions.zero, cfg.startingStack - s.contributions.one)
                  && s.aggressor == 1 && s.raises == 1
                else
                  && s.contributions == c && s.stacks == Pair(cfg.startingStack, cfg.startingStack)
                  && s.aggressor == (if c.zero == c.one then -1 else if c.zero < c.one then 1 else 0)
                  && s.raises == (if c.zero == c.one then 0 else 1))
            && s.toCall == Max(s.contributions.zero, s.contributions.one)
                           - Min(s.contributions.zero, s.contributions.one)
            && s.folded == Pair(false, false) && s.pendingDeals == 0
            && s.history == [] && s.codes == [] && s.tokens == [] && s.pastCodes == [] && s.pastTokens == []
  {
    hide ValidMenus, ValidDeal, ValidAndDistinct;
  }

  /**
   Hands can be given to any state whose board they do not meet. Whoever is to speak stays; where nobody was, the
   small blind speaks before the flop, and later the player who has put in less, player 1 when nobody has.
   */
  lemma HandsGivenExactly(s: State, hole: Hole)
    ensures WithHoleCards(s, hole).Success? <==> ValidAndDistinct(s.board) && ValidDeal(hole, s.board)
    ensures WithHoleCards(s, hole).Success? ==>
              var t := WithHoleCards(s, hole).value;
              && t == s.(hole := Some(hole), player := t.player)
              && (s.player >= 0 ==> t.player == s.player)
              && (s.player < 0 ==>
                    t.player == if s.street == Preflop || s.contributions.zero < s.contributions.one then 0 else 1)
  {
    hide ValidAndDistinct, ValidDeal;
  }

  // ---------------------------------------------------------------- the menu

  /** The bet sizes of a street, as fractions of the pot. */
  function Fractions(cfg: Config, street: Street): seq<real> {
    match street
    case Flop => if cfg.flopFractions.Some? then cfg.flopFractions.value else cfg.betFractions
    case Turn => if cfg.turnFractions.Some? then cfg.turnFractions.value else cfg.betFractions
    case River => if cfg.riverFractions.Some? then cfg.riverFractions.value else cfg.betFractions
    case _ => cfg.betFractions
  }

  /** The pot the hand started with and everything put in since. */
  function PotOf(cfg: Config, s: State): int {
    cfg.initialPot + (s.contributions.zero - cfg.initialContributions.zero)
    + (s.contributions.one - cfg.initialContributions.one)
  }

  /** A size is the multiple to the nearest chip, halves to the even one, or the least there is. */
  lemma SizeExactly(base: int, least: int, multiple: real)
    ensures var size, exact := SizeOf(base, least, multiple), base as real * multiple;
            && size >= least && exact <= size as real + 0.5
            && (size == least || size as real - 0.5 <= exact)
            && (exact == size as real + 0.5 || (size > least && exact == size as real - 0.5) ==> size % 2 == 0)
  {
  }

  /** A fraction of the pot to the nearest chip, at least the minimum bet. */
  function BetSize(cfg: Config, s: State, i: nat): int
    requires i < |Fractions(cfg, s.street)|
  {
    SizeOf(PotOf(cfg, s), cfg.minBetBlinds * cfg.bigBlind, Fractions(cfg, s.street)[i])
  }

  /** A multiple of what the opponent has in, at least that and the larger of the call and the big blind. */
  function RaiseTotal(cfg: Config, s: State, i: nat): int
    requires i < |cfg.raiseMultipliers|
  {
    var faced := s.contributions.At(1 - s.player);
    SizeOf(faced, faced + Max(s.toCall, cfg.bigBlind), cfg.raiseMultipliers[i])
  }

  /** Fewer raises than the street allows, and no lead barred on the flop. */
  predicate MayRaise(cfg: Config, s: State) {
    && s.raises < (if s.street == Preflop then cfg.preflopRaiseCap else cfg.postflopRaiseCap)
    && (s.street == Flop && s.player == 1 && s.codes == [] && s.toCall == 0 ==> cfg.allowFlopLead)
  }

  /** The shorter stack against the pot is at most the ratio. */
  predicate WithinRatio(cfg: Config, s: State, ratio: real) {
    var effective, pot := Min(s.stacks.zero, s.stacks.one), PotOf(cfg, s);
    if pot <= 0 then effective <= 0 && 0.0 <= ratio else effective as real / pot as real <= ratio
  }

  /** What may be left behind by a bet or raise that is not all in. */
  function Reserve(cfg: Config): int {
    cfg.forceAllInThreshold * cfg.bigBlind
  }

  /** The rules of the menu, from the settings, the pot, the stacks and the raises so far. */
  predicate MayPlay(cfg: Config, s: State, action: int) {
    var p := s.player;
    var stack := s.stacks.At(p);
    && stack > 0
    && if action == FOLD || action == CALL then s.toCall > 0
       else if action == CHECK then s.toCall == 0
       else if action == ALL_IN then
         && MayRaise(cfg, s) && stack > s.toCall
         && (cfg.includeAllIn || (cfg.autoAllInSpr.Some? && WithinRatio(cfg, s, cfg.autoAllInSpr.value)))
       else if IsBet(action) then
         var i := action - FIRST_BET;
         && MayRaise(cfg, s) && s.toCall == 0 && i < |Fractions(cfg, s.street)|
         && BetSize(cfg, s, i) < stack - Reserve(cfg)
         && forall j :: 0 <= j < i ==> BetSize(cfg, s, j) != BetSize(cfg, s, i)
       else if IsRaise(action) then
         var i := action - FIRST_RAISE;
         && MayRaise(cfg, s) && s.toCall > 0 && i < |cfg.raiseMultipliers|
         && RaiseTotal(cfg, s, i) < s.contributions.At(p) + stack - Reserve(cfg)
         && forall j :: 0 <= j < i ==> RaiseTotal(cfg, s, j) != RaiseTotal(cfg, s, i)
       else false
  }

  lemma FractionsOffered(cfg: Config, s: State)
    requires ValidConfig(cfg)
    ensures BetFractions(ContextOf(cfg, s)) == Fractions(cfg, s.street)
    ensures RaiseMultipliers(ContextOf(cfg, s)) == cfg.raiseMultipliers
  {
    hide ValidChips, ValidCards, ValidPot, MaximumPot;
  }

  lemma BetSizeOffered(cfg: Config, s: State, i: nat)
    requires i < |Fractions(cfg, s.street)| == |BetFractions(ContextOf(cfg, s))|
    requires BetFractions(ContextOf(cfg, s)) == Fractions(cfg, s.street)
    ensures BetAmounts(ContextOf(cfg, s))[i] == BetSize(cfg, s, i)
  {
    hide SizeOf;
    assert ContextOf(cfg, s).pot == PotOf(cfg, s);
  }

  lemma RaiseTotalOffered(cfg: Config, s: State, i: nat)
    requires i < |cfg.raiseMultipliers| && RaiseMultipliers(ContextOf(cfg, s)) == cfg.raiseMultipliers
    requires 0 <= s.aggressor == 1 - s.player
    ensures RaiseTargets(ContextOf(cfg, s))[i] == RaiseTotal(cfg, s, i)
  {
    hide SizeOf;
    assert AggressorTotal(ContextOf(cfg, s)) == s.contributions.At(1 - s.player);
  }

  lemma SizesOffered(cfg: Config, s: State)
    requires ValidConfig(cfg) && Deciding(cfg, s)
    ensures var ctx := ContextOf(cfg, s);
            && BetFractions(ctx) == Fractions(cfg, s.street) && RaiseMultipliers(ctx) == cfg.raiseMultipliers
            && (forall i :: 0 <= i < |Fractions(cfg, s.street)| ==> BetAmounts(ctx)[i] == BetSize(cfg, s, i))
            && (s.toCall > 0 ==>
                  forall i :: 0 <= i < |cfg.raiseMultipliers| ==> RaiseTargets(ctx)[i] == RaiseTotal(cfg, s, i))
  {
    FractionsOffered(cfg, s);
    assert s.toCall > 0 ==> 0 <= s.aggressor == 1 - s.player;
    hide ValidConfig, BetAmounts, RaiseTargets, BetSize, RaiseTotal, BetFractions, RaiseMultipliers, Fractions,
         Deciding;
    forall i | 0 <= i < |Fractions(cfg, s.street)| ensures BetAmounts(ContextOf(cfg, s))[i] == BetSize(cfg, s, i) {
      BetSizeOffered(cfg, s, i);
    }
    if s.toCall > 0 {
      forall i | 0 <= i < |cfg.raiseMultipliers| ensures RaiseTargets(ContextOf(cfg, s))[i] == RaiseTotal(cfg, s, i) {
        RaiseTotalOffered(cfg, s, i);
      }
    }
  }

  lemma MayRaiseOffered(cfg: Config, s: State)
    requires Deciding(cfg, s) && HistoryOk(s)
    ensures MayAggress(ContextOf(cfg, s)) <==> MayRaise(cfg, s)
    ensures var ctx := ContextOf(cfg, s);
            AllInWanted(ctx) <==>
            cfg.includeAllIn || (cfg.autoAllInSpr.Some? && WithinRatio(cfg, s, cfg.autoAllInSpr.value))
  {
    assert ContextOf(cfg, s).pot == PotOf(cfg, s);
    assert |s.tokens| == |s.codes|;
  }

  /** The smallest raise, what the opponent has in and the call on top of it, is no int. */
  predicate Overflows(cfg: Config, s: State) {
    && MayRaise(cfg, s) && s.toCall > 0 && cfg.raiseMultipliers != []
    && s.contributions.At(1 - s.player) + s.toCall > INT_MAX
  }

  lemma OverflowsExactly(cfg: Config, s: State)
    requires ValidConfig(cfg) && Deciding(cfg, s) && HistoryOk(s)
    ensures RaiseOverflows(ContextOf(cfg, s)) <==> Overflows(cfg, s)
  {
    MayRaiseOffered(cfg, s);
    FractionsOffered(cfg, s);
    hide ValidConfig, MayAggress, MayRaise, HistoryOk, AllInWanted, WithinRatio, BetFractions, RaiseMultipliers,
         Fractions;
  }

  /** On every run an action is accepted exactly when the rules let it be played and no raise overflows. */
  lemma PlayableExactly(cfg: Config, s: State, action: int)
    requires ValidConfig(cfg) && Reachable(cfg, s) && !IsTerminal(s) && s.player != -1
    ensures Apply(cfg, s, action).Success? <==> !Overflows(cfg, s) && MayPlay(cfg, s, action)
  {
    MenuFitsExactly(cfg, s);
    DecisionNeverStuck(cfg, s);
    OverflowsExactly(cfg, s);
    SizesOffered(cfg, s);
    MayRaiseOffered(cfg, s);
    MenuIsExact(ContextOf(cfg, s), action);
    hide ValidConfig, ChipsOk, HistoryOk, CardsOk, LegalActions, MayAggress, MayRaise, AllInWanted, WithinRatio,
         Overflows, BetSize, RaiseTotal, BetAmounts, RaiseTargets, RaiseOverflows, Apply, Fractions, RaiseMultipliers,
         BetFractions;
  }

  // ---------------------------------------------------------------- what an accepted action does

  /** What the acting player has in after the action, before anything is refunded. */
  function TotalAfter(cfg: Config, s: State, action: int): int
    requires ValidConfig(cfg) && MayPlay(cfg, s, action)
  {
    var had, stack := s.contributions.At(s.player), s.stacks.At(s.player);
    if action == FOLD || action == CHECK then had
    else if action == CALL then had + Min(s.toCall, stack)
    else if action == ALL_IN then had + stack
    else if IsBet(action) then had + BetSize(cfg, s, action - FIRST_BET)
    else RaiseTotal(cfg, s, action - FIRST_RAISE)
  }

  /** The street goes on: the opponent can act and has a raise, a first check or a limp to answer. */
  predicate GoesOn(s: State, action: int) {
    && !s.allIn.At(1 - s.player)
    && (Aggressive(action) || (action == CHECK && s.codes == [])
        || (action == CALL && s.street == Preflop && s.raises == 1))
  }

  lemma TotalPaid(cfg: Config, s: State, action: int)
    requires ValidConfig(cfg) && Deciding(cfg, s) && ChipsOk(cfg, s) && Sized(cfg, s, action) && MayPlay(cfg, s, action)
    ensures s.contributions.At(s.player) + Paid(cfg, s, action) == TotalAfter(cfg, s, action)
  {
    SizesOffered(cfg, s);
    ProductPositive(cfg.forceAllInThreshold, cfg.bigBlind);
    hide ValidConfig, BetSize, RaiseTotal, BetAmounts, RaiseTargets, Fractions, RaiseMultipliers, BetFractions,
         MayRaise, WithinRatio, Unopened, BlindsOnly, FacingBet;
  }

  /** The four ways a recorded action can leave the street. */
  function Left(cfg: Config, s: State, action: int): State
    requires Sized(cfg, s, action) && s.street != Showdown
  {
    var after := Acted(cfg, s, action);
    if action == FOLD then after.(player := -1)
    else if GoesOn(s, action) then after.(player := 1 - s.player)
    else if Aggressive(action) then Transition(Refunded(after, s.player))
    else Transition(after)
  }

  lemma CheckLeaves(cfg: Config, s: State)
    requires ValidConfig(cfg) && Reachable(cfg, s) && Deciding(cfg, s) && !Folded(s) && CHECK in Legal(cfg, s)
    ensures Sized(cfg, s, CHECK) && AfterPlayer(cfg, s, CHECK) == Left(cfg, s, CHECK)
  {
    CheckResolves(cfg, s);
    MenuIsExact(ContextOf(cfg, s), CHECK);
    hide ValidConfig, Legal, LegalActions, Transition, AfterPlayer, HistoryOk, CardsOk, CodeOf, TextOf, Paid;
    assert s.toCall == 0;
  }

  lemma CallLeaves(cfg: Config, s: State)
    requires ValidConfig(cfg) && Reachable(cfg, s) && Deciding(cfg, s) && !Folded(s) && CALL in Legal(cfg, s)
    ensures Sized(cfg, s, CALL) && AfterPlayer(cfg, s, CALL) == Left(cfg, s, CALL)
  {
    MenuIsExact(ContextOf(cfg, s), CALL);
    var t := Acted(cfg, s, CALL);
    assert !Folded(t) && t.street == s.street && t.toCall == 0 && t.allIn.At(1 - s.player) == s.allIn.At(1 - s.player);
    hide ValidConfig, Legal, LegalActions, Transition, HistoryOk, CardsOk, CodeOf, TextOf, Paid, Acted, StreetComplete,
         Closable, ChipsOk;
    if FacingBet(s) {
      CallPhase(cfg, s);
    } else {
      LimpPhase(cfg, s);
      if t.allIn.At(1 - s.player) {
        RefundOfMatched(t, s.player);
      }
    }
  }

  lemma AggressionLeaves(cfg: Config, s: State, action: int)
    requires ValidConfig(cfg) && Reachable(cfg, s) && Deciding(cfg, s) && !Folded(s)
    requires Aggressive(action) && action in Legal(cfg, s) && Sized(cfg, s, action)
    ensures AfterPlayer(cfg, s, action) == Left(cfg, s, action)
  {
    ListedAggresses(cfg, s, action);
    AggressionPhase(cfg, s, action);
    PutsInMore(cfg, s, action);
    var t := Acted(cfg, s, action);
    assert t.allIn.At(1 - s.player) == s.allIn.At(1 - s.player);
    hide ValidConfig, Legal, LegalActions, Transition, HistoryOk, CardsOk, Acted, StreetComplete, Closable, ChipsOk,
         Aggresses, Sized, Refunded;
  }

  /** An accepted action is recorded, and the street goes on, closes or ends the hand. */
  lemma ActionLeaves(cfg: Config, s: State, action: int)
    requires ValidConfig(cfg) && Reachable(cfg, s) && !IsTerminal(s) && s.player != -1
    requires Apply(cfg, s, action).Success?
    ensures Deciding(cfg, s) && Sized(cfg, s, action) && Apply(cfg, s, action).value == Left(cfg, s, action)
  {
    ListedIsSized(cfg, s, action);
    hide ValidConfig, LegalActions, ChipsOk, HistoryOk, CardsOk, AfterPlayer, Left, Sized;
    assert action in Legal(cfg, s) && Deciding(cfg, s);
    if action == FOLD {
      FoldLeaves(cfg, s);
    } else if action == CHECK {
      CheckLeaves(cfg, s);
    } else if action == CALL {
      CallLeaves(cfg, s);
    } else {
      MenuIsExact(ContextOf(cfg, s), action);
      AggressionLeaves(cfg, s, action);
    }
  }

  lemma FoldLeaves(cfg: Config, s: State)
    requires Deciding(cfg, s) && !Folded(s) && FOLD in Legal(cfg, s)
    ensures AfterPlayer(cfg, s, FOLD) == Left(cfg, s, FOLD)
  {
    FoldPhase(cfg, s);
    hide Legal, LegalActions, Acted;
  }

  // ---------------------------------------------------------------- chips

  /** What the acting player has in once a raise over an all-in opponent is refunded down to the opponent's total. */
  function SettledTotal(cfg: Config, s: State, action: int): int
    requires ValidConfig(cfg) && MayPlay(cfg, s, action)
  {
    if Aggressive(action) && s.allIn.At(1 - s.player) then s.contributions.At(1 - s.player)
    else TotalAfter(cfg, s, action)
  }

  /** The chips, cards and folds of `t` are those of `s` with player `p` having `total` in. */
  predicate ChipsAfter(s: State, t: State, p: int, total: int, folds: bool) {
    && t.contributions == s.contributions.With(p, total)
    && t.stacks == s.stacks.With(p, s.stacks.At(p) - (total - s.contributions.At(p)))
    && t.folded == (if folds then s.folded.With(p, true) else s.folded)
    && t.hole == s.hole && t.board == s.board
    && (t.allIn.At(p) <==> t.stacks.At(p) == 0) && t.allIn.At(1 - p) == s.allIn.At(1 - p)
  }

  /** Filing a street or passing the turn moves no chips. */
  lemma TransitionMovesNoChips(s: State, t: State, p: int, total: int, folds: bool)
    requires t.street != Showdown && ChipsAfter(s, t, p, total, folds)
    ensures ChipsAfter(s, Transition(t), p, total, folds)
  {
  }

  lemma RefundMovesBack(s: State, t: State, p: int, total: int)
    requires 0 <= p <= 1 && ChipsAfter(s, t, p, total, false) && total > s.contributions.At(1 - p)
    ensures ChipsAfter(s, Refunded(t, p), p, s.contributions.At(1 - p), false)
  {
  }

  lemma ActedMoves(cfg: Config, s: State, action: int)
    requires ValidConfig(cfg) && Reachable(cfg, s) && Deciding(cfg, s) && MayPlay(cfg, s, action)
    requires Sized(cfg, s, action) && (PlainAction(action) || (Aggressive(action) && Aggresses(cfg, s, action)))
    ensures ChipsAfter(s, Acted(cfg, s, action), s.player, TotalAfter(cfg, s, action), action == FOLD)
  {
    TotalPaid(cfg, s, action);
    hide ValidConfig, HistoryOk, CardsOk, TotalAfter, CodeOf, TextOf, MayPlay, Unopened, BlindsOnly, FacingBet,
         BetOf, RaiseOf;
  }

  lemma PassingMovesNoChips(s: State, t: State, p: int, total: int, folds: bool, player: int)
    requires ChipsAfter(s, t, p, total, folds)
    ensures ChipsAfter(s, t.(player := player), p, total, folds)
  {
  }

  lemma AggressionPays(cfg: Config, s: State, action: int)
    requires ValidConfig(cfg) && Reachable(cfg, s) && Deciding(cfg, s) && !Folded(s) && MayPlay(cfg, s, action)
    requires Aggressive(action) && action in Legal(cfg, s) && Sized(cfg, s, action)
    ensures ChipsAfter(s, Left(cfg, s, action), s.player, SettledTotal(cfg, s, action), false)
  {
    ListedAggresses(cfg, s, action);
    PutsInMore(cfg, s, action);
    ActedMoves(cfg, s, action);
    var after, p, total := Acted(cfg, s, action), s.player, TotalAfter(cfg, s, action);
    assert 0 <= p <= 1 && after.contributions == s.contributions.With(p, total);
    hide ValidConfig, MayPlay, HistoryOk, CardsOk, Acted, ChipsAfter, Transition, Refunded, TotalAfter, Legal, Sized,
         Aggresses;
    if GoesOn(s, action) {
      PassingMovesNoChips(s, after, p, total, false, 1 - p);
    } else {
      RefundMovesBack(s, after, p, total);
      assert Refunded(after, p).street == s.street by { RefundKeepsStreet(after, p); }
      TransitionMovesNoChips(s, Refunded(after, p), p, s.contributions.At(1 - p), false);
    }
  }

  lemma RefundKeepsStreet(t: State, p: int)
    ensures Refunded(t, p).street == t.street
  {
  }

  /**
   An accepted action moves the acting player's chips from stack to pot up to what it names, back down to an
   all-in opponent's total where it goes over it, and nobody else's; cards stay, and only a fold folds.
   */
  lemma ActionPays(cfg: Config, s: State, action: int)
    requires ValidConfig(cfg) && Reachable(cfg, s) && !IsTerminal(s) && s.player != -1
    requires Apply(cfg, s, action).Success?
    ensures MayPlay(cfg, s, action)
    ensures ChipsAfter(s, Apply(cfg, s, action).value, s.player, SettledTotal(cfg, s, action), action == FOLD)
  {
    PlayableExactly(cfg, s, action);
    ActionLeaves(cfg, s, action);
    var after, p, total := Acted(cfg, s, action), s.player, TotalAfter(cfg, s, action);
    hide ValidConfig, MayPlay, HistoryOk, CardsOk, Acted, ChipsAfter, Transition, Refunded, TotalAfter, Legal, Sized,
         Aggresses, Apply;
    assert 0 <= p <= 1;
    if Aggressive(action) {
      AggressionPays(cfg, s, action);
    } else {
      ActedMoves(cfg, s, action);
      if action != FOLD && !GoesOn(s, action) {
        TransitionMovesNoChips(s, after, p, total, false);
      } else {
        PassingMovesNoChips(s, after, p, total, action == FOLD, if action == FOLD then -1 else 1 - p);
      }
    }
  }

  // ---------------------------------------------------------------- the street

  /** How an action is written: its letter, and for a bet the chips put in, for a raise the total. */
  function Written(cfg: Config, s: State, action: int): string
    requires ValidConfig(cfg) && MayPlay(cfg, s, action)
  {
    if action == FOLD then "f"
    else if action == CHECK then "x"
    else if action == CALL then "c"
    else if action == ALL_IN then "A"
    else if IsBet(action) then "b" + IntText(BetSize(cfg, s, action - FIRST_BET))
    else "r" + IntText(RaiseTotal(cfg, s, action - FIRST_RAISE))
  }

  lemma AmountsListed(cfg: Config, s: State, action: int)
    requires ValidConfig(cfg) && Deciding(cfg, s) && ChipsOk(cfg, s) && Sized(cfg, s, action) && MayPlay(cfg, s, action)
    ensures IsBet(action) ==> BetOf(ContextOf(cfg, s), action) == BetSize(cfg, s, action - FIRST_BET)
    ensures IsRaise(action) ==> RaiseOf(ContextOf(cfg, s), action) == RaiseTotal(cfg, s, action - FIRST_RAISE)
  {
    SizesOffered(cfg, s);
    ProductPositive(cfg.forceAllInThreshold, cfg.bigBlind);
    hide ValidConfig, BetSize, RaiseTotal, BetAmounts, RaiseTargets, Fractions, RaiseMultipliers, BetFractions,
         MayRaise, WithinRatio, Unopened, BlindsOnly, FacingBet;
  }

  lemma TextIsWritten(cfg: Config, s: State, action: int)
    requires ValidConfig(cfg) && Deciding(cfg, s) && ChipsOk(cfg, s) && Sized(cfg, s, action) && MayPlay(cfg, s, action)
    ensures TextOf(cfg, s, action) == Written(cfg, s, action)
  {
    AmountsListed(cfg, s, action);
    hide ValidConfig, MayPlay, ChipsOk, Deciding, BetOf, RaiseOf, BetSize, RaiseTotal;
  }

  /** The street is still open: the action is on record and the opponent speaks. */
  predicate Continued(s: State, t: State, action: int, text: string) {
    var p := s.player;
    && t.player == 1 - p && t.street == s.street && t.pendingDeals == 0
    && t.toCall == t.contributions.At(p) - t.contributions.At(1 - p) && (t.toCall > 0 <==> Aggressive(action))
    && t.raises == s.raises + (if Aggressive(action) then 1 else 0)
    && t.aggressor == (if Aggressive(action) then p else s.aggressor)
    && t.tokens == s.tokens + [text] && t.pastTokens == s.pastTokens
  }

  /** The street is filed: cards are due, or after the river the hands are shown. */
  predicate Closed(s: State, t: State, text: string) {
    && t.player == -1 && t.tokens == [] && t.codes == [] && t.pastTokens == s.pastTokens + [s.tokens + [text]]
    && if s.street == River then t.street == Showdown
       else
         && t.aggressor == -1 && t.raises == 0 && t.toCall == 0
         && if t.allIn.zero || t.allIn.one then t.street == s.street && t.pendingDeals == 1
            else
              && StreetIndex(t.street) == StreetIndex(s.street) + 1
              && t.pendingDeals == (if t.street == Flop then 3 else 1)
  }

  /** The hand is over where it stood: nothing to do with the bet changes. */
  predicate Abandoned(s: State, t: State, text: string) {
    && t.player == -1 && t.street == s.street && t.pendingDeals == s.pendingDeals
    && t.toCall == s.toCall && t.raises == s.raises && t.aggressor == s.aggressor
    && t.tokens == s.tokens + [text] && t.pastTokens == s.pastTokens
  }

  lemma AbandonedByFolding(cfg: Config, s: State)
    ensures Abandoned(s, Acted(cfg, s, FOLD).(player := -1), TextOf(cfg, s, FOLD))
  {
  }

  lemma ClosedByTransition(s: State, t: State, text: string)
    requires t.street == s.street != Showdown && t.tokens == s.tokens + [text] && t.pastTokens == s.pastTokens
    ensures Closed(s, Transition(t), text)
  {
  }

  lemma ContinuedByPassing(cfg: Config, s: State, action: int)
    requires Deciding(cfg, s) && Sized(cfg, s, action) && GoesOn(s, action)
    requires var t := Acted(cfg, s, action);
             action == CALL ==> BlindsOnly(s) && t.contributions.zero == t.contributions.one
    requires action == CHECK ==> s.toCall == 0 && Paid(cfg, s, action) == 0
    requires var p := s.player;
             Aggressive(action) ==> s.contributions.At(p) + Paid(cfg, s, action) > s.contributions.At(1 - p)
    ensures Continued(s, Acted(cfg, s, action).(player := 1 - s.player), action, TextOf(cfg, s, action))
  {
    hide TextOf, CodeOf, Paid;
  }

  lemma ActedRecords(cfg: Config, s: State, action: int, p: int)
    requires Sized(cfg, s, action)
    ensures var t := Refunded(Acted(cfg, s, action), p);
            t.street == s.street && t.tokens == s.tokens + [TextOf(cfg, s, action)] && t.pastTokens == s.pastTokens
    ensures var t := Acted(cfg, s, action);
            t.street == s.street && t.tokens == s.tokens + [TextOf(cfg, s, action)] && t.pastTokens == s.pastTokens
  {
    hide TextOf, CodeOf, Paid;
  }

  lemma GoingOnPasses(cfg: Config, s: State, action: int)
    requires ValidConfig(cfg) && Reachable(cfg, s) && Deciding(cfg, s) && !Folded(s) && GoesOn(s, action)
    requires action in Legal(cfg, s) && Sized(cfg, s, action)
    ensures Continued(s, Acted(cfg, s, action).(player := 1 - s.player), action, TextOf(cfg, s, action))
  {
    MenuIsExact(ContextOf(cfg, s), action);
    if Aggressive(action) {
      ListedAggresses(cfg, s, action);
    } else if action == CALL {
      LimpPhase(cfg, s);
    }
    hide ValidConfig, LegalActions, ChipsOk, HistoryOk, CardsOk, Sized, Acted, TextOf;
    ContinuedByPassing(cfg, s, action);
  }

  /**
   After an accepted action the hand is over on a fold; the street goes on with the opponent to speak when
   there is something to answer; otherwise it is filed and cards are due, or hands are shown.
   */
  lemma StreetAfter(cfg: Config, s: State, action: int)
    requires ValidConfig(cfg) && Reachable(cfg, s) && !IsTerminal(s) && s.player != -1
    requires Apply(cfg, s, action).Success?
    ensures MayPlay(cfg, s, action)
    ensures var t, text := Apply(cfg, s, action).value, Written(cfg, s, action);
            if action == FOLD then Abandoned(s, t, text)
            else if GoesOn(s, action) then Continued(s, t, action, text)
            else Closed(s, t, text)
  {
    PlayableExactly(cfg, s, action);
    ActionLeaves(cfg, s, action);
    TextIsWritten(cfg, s, action);
    ActedRecords(cfg, s, action, s.player);
    assert action in Legal(cfg, s);
    hide ValidConfig, MayPlay, ChipsOk, HistoryOk, CardsOk, Acted, Transition, Refunded, Legal, Sized, Apply, TextOf,
         Written, Continued, Closed, Abandoned;
    var after := Acted(cfg, s, action);
    if action == FOLD {
      AbandonedByFolding(cfg, s);
    } else {
      if GoesOn(s, action) {
        GoingOnPasses(cfg, s, action);
      } else {
        ClosedByTransition(s, if Aggressive(action) then Refunded(after, s.player) else after, TextOf(cfg, s, action));
      }
    }
  }

  // ---------------------------------------------------------------- dealing

  /** The betting of a street opens with player 1, nothing to call and nothing raised. */
  predicate OpensStreet(t: State) {
    t.player == 1 && t.toCall == 0 && t.raises == 0 && t.aggressor == -1 && t.codes == [] && t.tokens == []
  }

  /** The next card is accepted exactly when nobody holds it, wherever cards are due. */
  lemma DealtExactly(cfg: Config, s: State, card: int)
    requires Reachable(cfg, s) && !IsTerminal(s) && s.player == -1
    ensures Apply(cfg, s, card).Success? <==>
            0 <= card < 52 && card !in s.board && card !in [s.hole.value.zero.first, s.hole.value.zero.second]
            && card !in [s.hole.value.one.first, s.hole.value.one.second]
  {
    hide AfterChance, HistoryOk, ChipsOk;
  }

  /**
   A dealt card joins the board and moves no chips. After the last card due player 1 opens the betting, unless
   somebody is all in: then cards keep coming one by one, and after the fifth the hands are shown.
   */
  lemma DealLeads(cfg: Config, s: State, card: int)
    requires Reachable(cfg, s) && !IsTerminal(s) && s.player == -1 && Apply(cfg, s, card).Success?
    ensures card >= 0
    ensures var t := Apply(cfg, s, card).value;
            && t.board == s.board + [card] && t.hole == s.hole && t.contributions == s.contributions
            && t.stacks == s.stacks && t.allIn == s.allIn && t.folded == s.folded && t.pastTokens == s.pastTokens
            && if s.pendingDeals > 1 then t.player == -1 && t.street == s.street && t.pendingDeals == s.pendingDeals - 1
               else if !s.allIn.zero && !s.allIn.one then OpensStreet(t) && t.street == s.street && t.pendingDeals == 0
               else t.player == -1 && (if |t.board| == 5 then t.street == Showdown
                                       else t.street == s.street && t.pendingDeals == 1)
  {
    assert s.tokens == [] by { assert s.codes == []; }
    hide ChipsOk, CardsOk, HistoryOk;
  }
}
