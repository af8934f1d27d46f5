/**
 The action menu of a heads-up decision: which bets, raises and all-ins are offered, and how many chips
 each of them means.
 */
module HeadsUpMenu {
  import opened Arithmetic
  import opened Wrappers
  import opened CommonTypes
  import opened Poker
  import opened HeadsUpConfig

  const FOLD := 0
  const CHECK := 1
  const CALL := 2
  const FIRST_BET := 3
  const FIRST_RAISE := 8
  const ALL_IN := 13
  const OUT_OF_POSITION := 1

  predicate IsBet(action: int) {
    FIRST_BET <= action < FIRST_BET + MAX_MENU
  }

  predicate IsRaise(action: int) {
    FIRST_RAISE <= action < FIRST_RAISE + MAX_MENU
  }

  datatype Context = Context(
    cfg: Config,
    pot: int,
    toCall: int,
    stacks: Pair<int>,
    contributions: Pair<int>,
    player: int,
    street: Street,
    raises: nat,
    aggressor: int,
    actionCount: nat)

  // ---------------------------------------------------------------- rounding

  /** python_round_positive: to the nearest integer, halves to the even one. */
  function RoundHalfEven(value: real): (r: int)
    ensures -0.5 <= value - r as real <= 0.5
    ensures value - r as real == 0.5 || value - r as real == -0.5 ==> r % 2 == 0
  {
    var floor := value.Floor;
    var fraction := value - floor as real;
    if fraction < 0.5 then floor
    else if fraction > 0.5 then floor + 1
    else if floor % 2 == 0 then floor
    else floor + 1
  }

  /** These two facts pin the rounded value down, and rounding keeps order. */
  lemma RoundingIsDetermined(value: real, r: int, above: real)
    requires -0.5 <= value - r as real <= 0.5
    requires value - r as real == 0.5 || value - r as real == -0.5 ==> r % 2 == 0
    requires value <= above
    ensures r == RoundHalfEven(value) <= RoundHalfEven(above)
  {
    var q, t := RoundHalfEven(value), RoundHalfEven(above);
    assert -1.0 <= (q - r) as real <= 1.0;
    assert (t - q) as real >= -1.0;
  }

  // ---------------------------------------------------------------- sizes

  function First5(values: seq<real>): (r: seq<real>)
    ensures |r| <= MAX_MENU && r <= values
  {
    if |values| <= MAX_MENU then values else values[..MAX_MENU]
  }

  /** bet_menu, as far as there are action ids for it. */
  function BetFractions(ctx: Context): (r: seq<real>)
    ensures |r| <= MAX_MENU
  {
    First5(
      if ctx.street == Flop && ctx.cfg.flopFractions.Some? then ctx.cfg.flopFractions.value
      else if ctx.street == Turn && ctx.cfg.turnFractions.Some? then ctx.cfg.turnFractions.value
      else if ctx.street == River && ctx.cfg.riverFractions.Some? then ctx.cfg.riverFractions.value
      else ctx.cfg.betFractions)
  }

  function RaiseMultipliers(ctx: Context): (r: seq<real>)
    ensures |r| <= MAX_MENU
  {
    First5(ctx.cfg.raiseMultipliers)
  }

  function MinBet(ctx: Context): int {
    ctx.cfg.minBetBlinds * ctx.cfg.bigBlind
  }

  function ForceThreshold(ctx: Context): int {
    ctx.cfg.forceAllInThreshold * ctx.cfg.bigBlind
  }

  function Stack(ctx: Context): int {
    ctx.stacks.At(ctx.player)
  }

  function AggressorTotal(ctx: Context): int {
    ctx.contributions.At(Max(ctx.aggressor, 0))
  }

  /** The smallest raise: the aggressor's total plus the larger of the call and the big blind. */
  function MinRaiseTo(ctx: Context): int {
    AggressorTotal(ctx) + Max(ctx.toCall, ctx.cfg.bigBlind)
  }

  /** A multiple of `base`, rounded, and never below `least`. */
  function SizeOf(base: int, least: int, multiple: real): int {
    Max(RoundHalfEven(base as real * multiple), least)
  }

  function Sizes(base: int, least: int, multiples: seq<real>): (r: seq<int>)
    ensures |r| == |multiples|
  {
    seq(|multiples|, i requires 0 <= i < |multiples| => SizeOf(base, least, multiples[i]))
  }

  /** bet_amount_for_fraction over the menu. */
  function BetAmounts(ctx: Context): (r: seq<int>)
    ensures |r| == |BetFractions(ctx)|
  {
    Sizes(ctx.pot, MinBet(ctx), BetFractions(ctx))
  }

  /** raise_to_for_multiplier over the menu. */
  function RaiseTargets(ctx: Context): (r: seq<int>)
    ensures |r| == |RaiseMultipliers(ctx)|
  {
    Sizes(AggressorTotal(ctx), MinRaiseTo(ctx), RaiseMultipliers(ctx))
  }

  /** compute_bet_amount of a bet id. */
  function BetOf(ctx: Context, action: int): int
    requires IsBet(action) && action - FIRST_BET < |BetFractions(ctx)|
  {
    Min(BetAmounts(ctx)[action - FIRST_BET], Stack(ctx))
  }

  /** compute_raise_to of a raise id. */
  function RaiseOf(ctx: Context, action: int): int
    requires IsRaise(action) && action - FIRST_RAISE < |RaiseMultipliers(ctx)|
  {
    Min(RaiseTargets(ctx)[action - FIRST_RAISE], ctx.contributions.At(ctx.player) + Stack(ctx))
  }

  // ---------------------------------------------------------------- which sizes are offered

  /** Size `i` is offered when it leaves enough behind and no smaller index has the same size. */
  predicate Offered(sizes: seq<int>, ceiling: int, i: int) {
    0 <= i < |sizes| && sizes[i] < ceiling && forall j :: 0 <= j < i ==> sizes[j] != sizes[i]
  }

  function OfferedIds(sizes: seq<int>, ceiling: int, first: int, k: nat): (r: seq<int>)
    requires k <= |sizes|
    ensures forall a :: a in r <==> first <= a < first + k && Offered(sizes, ceiling, a - first)
  {
    if k == 0 then []
    else OfferedIds(sizes, ceiling, first, k - 1) + (if Offered(sizes, ceiling, k - 1) then [first + k - 1] else [])
  }

  function BetCeiling(ctx: Context): int {
    Stack(ctx) - ForceThreshold(ctx)
  }

  function RaiseCeiling(ctx: Context): int {
    ctx.contributions.At(ctx.player) + Stack(ctx) - ForceThreshold(ctx)
  }

  function Bets(ctx: Context): seq<int> {
    OfferedIds(BetAmounts(ctx), BetCeiling(ctx), FIRST_BET, |BetAmounts(ctx)|)
  }

  function Raises(ctx: Context): seq<int> {
    OfferedIds(RaiseTargets(ctx), RaiseCeiling(ctx), FIRST_RAISE, |RaiseTargets(ctx)|)
  }

  function RaiseCap(ctx: Context): nat {
    if ctx.street == Preflop then ctx.cfg.preflopRaiseCap else ctx.cfg.postflopRaiseCap
  }

  predicate CapReached(ctx: Context) {
    ctx.raises >= RaiseCap(ctx)
  }

  /** The player out of position may be barred from leading into the flop. */
  predicate FlopLeadBarred(ctx: Context) {
    !ctx.cfg.allowFlopLead && ctx.street == Flop && ctx.player == OUT_OF_POSITION && ctx.actionCount == 0 &&
    ctx.toCall == 0 && ctx.aggressor < 0
  }

  /** stack_to_pot_ratio(ctx) <= threshold, an empty pot making the ratio infinite or zero. */
  predicate ShortStacked(ctx: Context, threshold: real) {
    var effective := Min(ctx.stacks.zero, ctx.stacks.one);
    if ctx.pot <= 0 then effective <= 0 && 0.0 <= threshold
    else effective as real / ctx.pot as real <= threshold
  }

  predicate AllInWanted(ctx: Context) {
    ctx.cfg.includeAllIn || (ctx.cfg.autoAllInSpr.Some? && ShortStacked(ctx, ctx.cfg.autoAllInSpr.value))
  }

  predicate MayAggress(ctx: Context) {
    !CapReached(ctx) && !FlopLeadBarred(ctx)
  }

  /** enumerate_legal_actions. */
  function LegalActions(ctx: Context): seq<int> {
    if Stack(ctx) <= 0 then []
    else
      (if ctx.toCall > 0 then [FOLD, CALL] else [CHECK]) +
      (if !MayAggress(ctx) then [] else if ctx.toCall > 0 then Raises(ctx) else Bets(ctx)) +
      (if AllInWanted(ctx) && MayAggress(ctx) && Stack(ctx) > ctx.toCall then [ALL_IN] else [])
  }

  /** What each listed action is worth; together with the converse this is the whole menu. */
  lemma MenuIsExact(ctx: Context, action: int)
    ensures action in LegalActions(ctx) <==> Stack(ctx) > 0 && ActionAllowed(ctx, action)
  {
    hide OfferedIds, BetAmounts, RaiseTargets, AllInWanted, MayAggress;
  }

  predicate ActionAllowed(ctx: Context, action: int) {
    || (action == FOLD && ctx.toCall > 0)
    || (action == CALL && ctx.toCall > 0)
    || (action == CHECK && ctx.toCall <= 0)
    || (IsBet(action) && ctx.toCall <= 0 && MayAggress(ctx) &&
        Offered(BetAmounts(ctx), BetCeiling(ctx), action - FIRST_BET))
    || (IsRaise(action) && ctx.toCall > 0 && MayAggress(ctx) &&
        Offered(RaiseTargets(ctx), RaiseCeiling(ctx), action - FIRST_RAISE))
    || (action == ALL_IN && AllInWanted(ctx) && MayAggress(ctx) && Stack(ctx) > ctx.toCall)
  }

  // ---------------------------------------------------------------- when the arithmetic throws

  /** python_round_positive accepts the value. */
  predicate Roundable(value: real) {
    0.0 <= value <= INT_MAX as real
  }

  predicate Scalable(base: int, multiple: real) {
    Roundable(base as real * multiple)
  }

  predicate AllRoundable(base: int, multiples: seq<real>) {
    forall i :: 0 <= i < |multiples| ==> Scalable(base, multiples[i])
  }

  predicate BetsFit(ctx: Context) {
    && 0 <= ForceThreshold(ctx) <= INT_MAX
    && (BetFractions(ctx) != [] ==> 0 <= MinBet(ctx) <= INT_MAX && AllRoundable(ctx.pot, BetFractions(ctx)))
  }

  predicate RaisesFit(ctx: Context) {
    && 0 <= ctx.contributions.At(ctx.player) && ctx.contributions.At(ctx.player) + Stack(ctx) <= INT_MAX
    && 0 <= ForceThreshold(ctx) <= INT_MAX
    && (RaiseMultipliers(ctx) != [] ==>
          0 <= AggressorTotal(ctx) && MinRaiseTo(ctx) <= INT_MAX &&
          AllRoundable(AggressorTotal(ctx), RaiseMultipliers(ctx)))
  }

  /** No guard of action_context or of the menu throws. */
  predicate MenuFits(ctx: Context) {
    && 0 <= ctx.pot <= INT_MAX
    && (Stack(ctx) > 0 && MayAggress(ctx) ==> if ctx.toCall > 0 then RaisesFit(ctx) else BetsFit(ctx))
  }

  predicate OutOfRange(x: int) {
    x < 0 || x > 0x7fff_ffff
  }

  /** Some multiple of the base is negative or too large. */
  ghost predicate MultipleOutOfRange(base: int, multiples: seq<real>) {
    exists i :: 0 <= i < |multiples| &&
                (base as real * multiples[i] < 0.0 || base as real * multiples[i] > 2_147_483_647.0)
  }

  /**
   The menu throws exactly when the pot is no int, or when sizes are asked for and one of the chip amounts or
   multiples they are made from is none: the reserve, and for a bet the least bet and the fractions of the pot, for
   a raise the player's whole chips, the opponent's total, the smallest raise and the multiples of that total.
   */
  lemma MenuThrowsExactly(ctx: Context)
    ensures !MenuFits(ctx) <==>
            || OutOfRange(ctx.pot)
            || (ctx.stacks.At(ctx.player) > 0 && MayAggress(ctx) &&
                var own, faced := ctx.contributions.At(ctx.player), ctx.contributions.At(Max(ctx.aggressor, 0));
                || OutOfRange(ctx.cfg.forceAllInThreshold * ctx.cfg.bigBlind)
                || if ctx.toCall > 0 then
                     || own < 0 || own + ctx.stacks.At(ctx.player) > 0x7fff_ffff
                     || (RaiseMultipliers(ctx) != [] &&
                         (faced < 0 || faced + Max(ctx.toCall, ctx.cfg.bigBlind) > 0x7fff_ffff
                          || MultipleOutOfRange(faced, RaiseMultipliers(ctx))))
                   else
                     BetFractions(ctx) != [] &&
                     (OutOfRange(ctx.cfg.minBetBlinds * ctx.cfg.bigBlind)
                      || MultipleOutOfRange(ctx.pot, BetFractions(ctx))))
  {
    RoundableExactly(ctx.pot, BetFractions(ctx));
    RoundableExactly(AggressorTotal(ctx), RaiseMultipliers(ctx));
    hide AllRoundable, MultipleOutOfRange, MayAggress, BetFractions, RaiseMultipliers;
  }

  lemma RoundableExactly(base: int, multiples: seq<real>)
    ensures AllRoundable(base, multiples) <==> !MultipleOutOfRange(base, multiples)
  {
    if !AllRoundable(base, multiples) {
      var i :| 0 <= i < |multiples| && !Scalable(base, multiples[i]);
      assert base as real * multiples[i] < 0.0 || base as real * multiples[i] > 2_147_483_647.0;
    }
  }

  // ---------------------------------------------------------------- the loops

  const OVERFLOW := "outside the supported chip domain"

  /** The loop of both enumerators: skips sizes at or above the ceiling and sizes already seen. */
  method SelectSizes(base: int, least: int, multiples: seq<real>, ceiling: int, first: int)
    returns (r: Result<seq<int>, string>)
    ensures r == if AllRoundable(base, multiples)
                 then Success(OfferedIds(Sizes(base, least, multiples), ceiling, first, |multiples|))
                 else Failure(OVERFLOW)
  {
    hide RoundHalfEven, Scalable;
    ghost var sizes := Sizes(base, least, multiples);
    var seen: seq<int> := [];
    var actions: seq<int> := [];
    for i := 0 to |multiples|
      invariant actions == OfferedIds(sizes, ceiling, first, i)
      invariant forall x :: x in seen <==> x < ceiling && x in sizes[..i]
      invariant forall j :: 0 <= j < i ==> Scalable(base, multiples[j])
    {
      if !Scalable(base, multiples[i]) {
        return Failure(OVERFLOW);
      }
      var size := SizeOf(base, least, multiples[i]);
      assert size == sizes[i];
      assert sizes[..i + 1] == sizes[..i] + [size];
      SeenExactly(sizes, ceiling, i);
      if size < ceiling && size !in seen {
        seen := seen + [size];
        actions := actions + [first + i];
      }
    }
    return Success(actions);
  }

  /** enumerate_bets. */
  method EnumerateBets(ctx: Context) returns (r: Result<seq<int>, string>)
    ensures r == if BetsFit(ctx) then Success(Bets(ctx)) else Failure(OVERFLOW)
  {
    hide RoundHalfEven, Roundable, OfferedIds, Sizes;
    var fractions := BetFractions(ctx);
    if !(0 <= ForceThreshold(ctx) <= INT_MAX) || (fractions != [] && !(0 <= MinBet(ctx) <= INT_MAX)) {
      return Failure(OVERFLOW);
    }
    r := SelectSizes(ctx.pot, MinBet(ctx), fractions, BetCeiling(ctx), FIRST_BET);
  }

  /** enumerate_raises. */
  method EnumerateRaises(ctx: Context) returns (r: Result<seq<int>, string>)
    ensures r == if RaisesFit(ctx) then Success(Raises(ctx)) else Failure(OVERFLOW)
  {
    hide RoundHalfEven, Roundable, OfferedIds, Sizes;
    var current := ctx.contributions.At(ctx.player);
    if !(0 <= current && current + Stack(ctx) <= INT_MAX && 0 <= ForceThreshold(ctx) <= INT_MAX) {
      return Failure(OVERFLOW);
    }
    var multipliers := RaiseMultipliers(ctx);
    if multipliers != [] && !(0 <= AggressorTotal(ctx) && MinRaiseTo(ctx) <= INT_MAX) {
      return Failure(OVERFLOW);
    }
    r := SelectSizes(AggressorTotal(ctx), MinRaiseTo(ctx), multipliers, RaiseCeiling(ctx), FIRST_RAISE);
  }

  lemma SeenExactly(sizes: seq<int>, ceiling: int, i: nat)
    requires i < |sizes|
    ensures Offered(sizes, ceiling, i) <==> sizes[i] < ceiling && sizes[i] !in sizes[..i]
  {
    if sizes[i] in sizes[..i] {
      var j :| 0 <= j < i && sizes[..i][j] == sizes[i];
    } else {
      forall j | 0 <= j < i ensures sizes[j] != sizes[i] {
        assert sizes[..i][j] == sizes[j];
      }
    }
  }

  /** enumerate_legal_actions, refusing what its arithmetic guards refuse. */
  method EnumerateLegalActions(ctx: Context) returns (r: Result<seq<int>, string>)
    requires 0 <= ctx.pot <= INT_MAX
    ensures r == if MenuFits(ctx) then Success(LegalActions(ctx)) else Failure(OVERFLOW)
  {
    hide Bets, Raises, BetsFit, RaisesFit, AllInWanted, CapReached, FlopLeadBarred;
    var actions: seq<int> := [];
    var stack := Stack(ctx);
    if stack <= 0 {
      return Success(actions);
    }
    var facingBet := ctx.toCall > 0;
    if facingBet {
      actions := actions + [FOLD];
      actions := actions + [CALL];
      assert actions == [FOLD, CALL];
    } else {
      actions := actions + [CHECK];
      assert actions == [CHECK];
    }
    ghost var plain, sizes: seq<int> := actions, [];
    if !CapReached(ctx) && !FlopLeadBarred(ctx) {
      var sized: Result<seq<int>, string>;
      if facingBet {
        sized := EnumerateRaises(ctx);
      } else {
        sized := EnumerateBets(ctx);
      }
      if sized.Failure? {
        return sized;
      }
      actions := actions + sized.value;
      sizes := sized.value;
    }
    assert actions == plain + sizes;
    if AllInWanted(ctx) && !CapReached(ctx) && !FlopLeadBarred(ctx) && stack > ctx.toCall {
      actions := actions + [ALL_IN];
    } else {
      assert actions == plain + sizes + [];
    }
    return Success(actions);
  }
}
