/** Heads-up settings and their validation. */
module HeadsUpConfig {
  import opened Arithmetic
  import opened Wrappers
  import opened CommonTypes
  import opened Poker
  import opened HistoryText

  const MAX_RAISES_PER_STREET := 10
  const MAX_MENU := 5
  const MAX_DEPTH_LIMIT := 1_000_000

  /** One value per player. */
  datatype Pair<T> = Pair(zero: T, one: T) {
    function At(player: int): T {
      if player == 0 then zero else one
    }

    function With(player: int, value: T): Pair<T> {
      if player == 0 then Pair(value, one) else Pair(zero, value)
    }
  }

  function Sum(p: Pair<int>): int {
    p.zero + p.one
  }

  datatype Hand = Hand(first: nat, second: nat)

  type Hole = Pair<Hand>

  function HoleCards(hole: Hole): seq<nat> {
    [hole.zero.first, hole.zero.second, hole.one.first, hole.one.second]
  }

  datatype Config = Config(
    startingStack: int,
    smallBlind: int,
    bigBlind: int,
    ante: int,
    startingStreet: Street,
    initialBoard: seq<nat>,
    initialPot: int,
    initialContributions: Pair<int>,
    initialHoleCards: Option<Hole>,
    preflopRaiseCap: nat,
    postflopRaiseCap: nat,
    betFractions: seq<real>,
    flopFractions: Option<seq<real>>,
    turnFractions: Option<seq<real>>,
    riverFractions: Option<seq<real>>,
    raiseMultipliers: seq<real>,
    includeAllIn: bool,
    autoAllInSpr: Option<real>,
    forceAllInThreshold: int,
    minBetBlinds: int,
    allowFlopLead: bool,
    depthLimitPlies: nat)

  predicate ValidMenu(values: seq<real>, maximumPot: int) {
    |values| <= MAX_MENU &&
    forall i :: 0 <= i < |values| ==> values[i] >= 0.0 && values[i] * maximumPot as real <= INT_MAX as real
  }

  predicate ValidMenuIfGiven(values: Option<seq<real>>, maximumPot: int) {
    values.Some? ==> ValidMenu(values.value, maximumPot)
  }

  function MaximumPot(cfg: Config): int {
    if cfg.startingStreet == Preflop then 2 * cfg.startingStack else cfg.initialPot + 2 * cfg.startingStack
  }

  /** Distinct valid private cards that are not on the board. */
  predicate ValidDeal(hole: Hole, board: seq<nat>) {
    && ValidAndDistinct(HoleCards(hole))
    && forall i, j :: 0 <= i < 4 && 0 <= j < |board| ==> HoleCards(hole)[i] != board[j]
  }

  predicate ValidChips(cfg: Config) {
    && cfg.startingStack > 0 && cfg.bigBlind > 0
    && cfg.smallBlind >= 0 && cfg.ante >= 0 && cfg.initialPot >= 0 && cfg.smallBlind <= cfg.bigBlind
    && cfg.initialContributions.zero >= 0 && cfg.initialContributions.one >= 0
    && cfg.smallBlind + cfg.bigBlind + 2 * cfg.ante <= INT_MAX
    && cfg.bigBlind + cfg.ante <= cfg.startingStack
    && cfg.minBetBlinds > 0 && cfg.forceAllInThreshold >= 0
    && cfg.minBetBlinds * cfg.bigBlind <= INT_MAX && cfg.forceAllInThreshold * cfg.bigBlind <= INT_MAX
    && 0 < MaximumPot(cfg) <= INT_MAX - ALL_IN_CODE
  }

  predicate ValidMenus(cfg: Config) {
    var pot := MaximumPot(cfg);
    && ValidMenu(cfg.betFractions, pot) && ValidMenu(cfg.raiseMultipliers, pot)
    && ValidMenuIfGiven(cfg.flopFractions, pot) && ValidMenuIfGiven(cfg.turnFractions, pot)
    && ValidMenuIfGiven(cfg.riverFractions, pot)
    && (cfg.autoAllInSpr.Some? ==> cfg.autoAllInSpr.value >= 0.0)
  }

  predicate ValidCards(cfg: Config) {
    && |cfg.initialBoard| == BoardSize(cfg.startingStreet) && ValidAndDistinct(cfg.initialBoard)
    && (cfg.initialHoleCards.Some? ==> ValidDeal(cfg.initialHoleCards.value, cfg.initialBoard))
  }

  /** Contributions and pot the starting street allows. */
  predicate ValidPot(cfg: Config) {
    var c := cfg.initialContributions;
    if cfg.startingStreet == Preflop then
      || (c == Pair(0, 0) && cfg.initialPot == 0)
      || (c == Pair(cfg.smallBlind + cfg.ante, cfg.bigBlind + cfg.ante) && cfg.initialPot == Sum(c))
    else
      Sum(c) == 0 || Sum(c) == cfg.initialPot
  }

  /** HUNLConfig::validate, without the range inputs. */
  predicate ValidConfig(cfg: Config) {
    && cfg.depthLimitPlies <= MAX_DEPTH_LIMIT
    && cfg.preflopRaiseCap <= MAX_RAISES_PER_STREET && cfg.postflopRaiseCap <= MAX_RAISES_PER_STREET
    && ValidChips(cfg) && ValidMenus(cfg) && ValidCards(cfg) && ValidPot(cfg)
  }

  // ---------------------------------------------------------------- what validation lets through

  /** At most five sizes, none negative, none of which takes the largest pot out of range. */
  predicate MenuAllowed(values: seq<real>, pot: int) {
    |values| <= 5 && forall i :: 0 <= i < |values| ==> values[i] >= 0.0 && values[i] * pot as real <= 2_147_483_647.0
  }

  function KnownCards(cfg: Config): seq<nat> {
    if cfg.initialHoleCards.Some? then cfg.initialBoard + HoleCards(cfg.initialHoleCards.value) else cfg.initialBoard
  }

  /** The cards known at the root are different cards of the deck, as many on the board as the street has. */
  predicate CardsAllowed(cfg: Config) {
    var known := KnownCards(cfg);
    && |cfg.initialBoard| == (match cfg.startingStreet case Preflop => 0 case Flop => 3 case Turn => 4 case _ => 5)
    && (forall i :: 0 <= i < |known| ==> known[i] < 52)
    && forall i, j :: 0 <= i < j < |known| ==> known[i] != known[j]
  }

  lemma CardsValidExactly(cfg: Config)
    ensures ValidCards(cfg) <==> CardsAllowed(cfg)
  {
    var board := cfg.initialBoard;
    assert CardsAllowed(cfg) <==> |board| == BoardSize(cfg.startingStreet) && ValidAndDistinct(KnownCards(cfg)) by {
      hide KnownCards;
    }
    if cfg.initialHoleCards.Some? {
      var hole := HoleCards(cfg.initialHoleCards.value);
      JointlyDistinct(board, hole);
      assert ValidDeal(cfg.initialHoleCards.value, board) <==>
             ValidAndDistinct(hole) && forall i, j :: 0 <= i < |board| && 0 <= j < |hole| ==> board[i] != hole[j];
    }
  }

  /**
   A configuration passes exactly when the blinds and antes fit the stack and their sum an int, the largest pot, the
   least bet and the reserve fit too, the menus and cards are allowed, caps and depth limit are in range, and the
   contributions are none or the blinds before the flop, and none or the whole pot after it.
   */
  lemma ConfigValidExactly(cfg: Config)
    ensures var stack, small, big, ante := cfg.startingStack, cfg.smallBlind, cfg.bigBlind, cfg.ante;
            var pot, c := (if cfg.startingStreet == Preflop then 0 else cfg.initialPot) + 2 * stack,
                cfg.initialContributions;
            ValidConfig(cfg) <==>
            && 0 <= small <= big && 0 < big && 0 <= ante && big + ante <= stack
            && small + big + 2 * ante <= 0x7fff_ffff && 0 <= cfg.initialPot && pot <= 0x7fff_ffff - 4
            && 0 < cfg.minBetBlinds && cfg.minBetBlinds * big <= 0x7fff_ffff
            && 0 <= cfg.forceAllInThreshold && cfg.forceAllInThreshold * big <= 0x7fff_ffff
            && cfg.preflopRaiseCap <= 10 && cfg.postflopRaiseCap <= 10 && cfg.depthLimitPlies <= 1_000_000
            && MenuAllowed(cfg.betFractions, pot) && MenuAllowed(cfg.raiseMultipliers, pot)
            && (cfg.flopFractions.Some? ==> MenuAllowed(cfg.flopFractions.value, pot))
            && (cfg.turnFractions.Some? ==> MenuAllowed(cfg.turnFractions.value, pot))
            && (cfg.riverFractions.Some? ==> MenuAllowed(cfg.riverFractions.value, pot))
            && (cfg.autoAllInSpr.Some? ==> cfg.autoAllInSpr.value >= 0.0)
            && CardsAllowed(cfg) && c.zero >= 0 && c.one >= 0
            && if cfg.startingStreet != Preflop then c.zero + c.one == 0 || c.zero + c.one == cfg.initialPot
               else
                 || (c.zero == 0 && c.one == 0 && cfg.initialPot == 0)
                 || (c.zero == small + ante && c.one == big + ante && cfg.initialPot == c.zero + c.one)
  {
    CardsValidExactly(cfg);
    hide ValidCards, CardsAllowed;
    var pot := MaximumPot(cfg);
    assert forall values :: ValidMenu(values, pot) == MenuAllowed(values, pot);
  }
}
