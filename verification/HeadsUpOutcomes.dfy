/** Who wins and loses what at the end of a heads-up hand. */
module HeadsUpOutcomes {
  import opened Wrappers
  import opened CommonTypes
  import opened HeadsUpConfig
  import opened HeadsUpState
  import opened HeadsUpRuns

  /** Chips a player has put in since the root. */
  function Added(cfg: Config, t: State, p: int): int {
    t.contributions.At(p) - cfg.initialContributions.At(p)
  }

  function HandOf(t: State, p: int): Hand
    requires t.hole.Some?
  {
    t.hole.value.At(p)
  }

  /** The seven cards a player shows. */
  function Shown(t: State, p: int): seq<nat>
    requires t.hole.Some?
  {
    [HandOf(t, p).first, HandOf(t, p).second] + t.board
  }

  /** Nobody folded and all five cards are out. */
  predicate AtShowdown(t: State) {
    !t.folded.zero && !t.folded.one && t.street == Showdown && t.hole.Some? && |t.board| == 5
  }

  /** A player who folded, or whose hand is strictly the weaker. */
  predicate Loses(t: State, strength: seq<nat> -> int, p: int) {
    t.folded.At(p) || (AtShowdown(t) && strength(Shown(t, p)) < strength(Shown(t, 1 - p)))
  }

  function UtilityOf(cfg: Config, t: State, strength: seq<nat> -> int, p: int): real
    requires cfg.bigBlind > 0 && Utility(cfg, t, strength).Success?
  {
    var u := Utility(cfg, t, strength).value;
    if p == 0 then u.0 else u.1
  }

  /** What a hand must look like when a run ends. */
  lemma EndOfRun(cfg: Config, moves: seq<int>, t: State, strength: seq<nat> -> int)
    requires ValidConfig(cfg) && cfg.initialHoleCards.Some? && Reaches(cfg, Initial(cfg), moves, t) && IsTerminal(t)
    ensures cfg.bigBlind > 0 && Utility(cfg, t, strength).Success? && t.hole.Some?
    ensures !(t.folded.zero && t.folded.one) && (!t.folded.zero && !t.folded.one ==> AtShowdown(t))
  {
    RootReachable(cfg);
    RunKeeps(cfg, Initial(cfg), moves, t);
    TerminalsPayOut(cfg, moves, t, strength);
    hide ValidMenus, ValidCards, ValidPot, ChipsOk, HistoryOk, Reaches, Initial;
  }

  lemma FirstFive(board: seq<nat>)
    requires |board| == 5
    ensures board[..5] == board
  {
  }

  lemma LoserPays(cfg: Config, t: State, strength: seq<nat> -> int, p: int)
    requires cfg.bigBlind > 0 && Utility(cfg, t, strength).Success? && 0 <= p <= 1 && Loses(t, strength, p)
    requires !(t.folded.zero && t.folded.one)
    ensures UtilityOf(cfg, t, strength, p) == (-Added(cfg, t, p)) as real / cfg.bigBlind as real
  {
    if !t.folded.At(p) {
      FirstFive(t.board);
    }
  }

  /**
   On every finished run the player who folded, or whose hand is strictly weaker, loses exactly what it put in
   since the root, in big blinds; the other wins that and the pot the hand started with.
   */
  lemma LoserPaysExactly(cfg: Config, moves: seq<int>, t: State, strength: seq<nat> -> int, p: int)
    requires ValidConfig(cfg) && cfg.initialHoleCards.Some? && Reaches(cfg, Initial(cfg), moves, t) && IsTerminal(t)
    requires 0 <= p <= 1 && Loses(t, strength, p)
    ensures cfg.bigBlind > 0 && Utility(cfg, t, strength).Success?
    ensures UtilityOf(cfg, t, strength, p) == (-Added(cfg, t, p)) as real / cfg.bigBlind as real
    ensures UtilityOf(cfg, t, strength, 1 - p)
            == (cfg.initialPot + Added(cfg, t, p)) as real / cfg.bigBlind as real
  {
    hide *;
    EndOfRun(cfg, moves, t, strength);
    LoserPays(cfg, t, strength, p);
    SharesOfPot(cfg, t, strength, p);
    OtherShare(UtilityOf(cfg, t, strength, p), UtilityOf(cfg, t, strength, 1 - p), cfg.initialPot, Added(cfg, t, p),
               cfg.bigBlind as real);
  }

  lemma SharesOfPot(cfg: Config, t: State, strength: seq<nat> -> int, p: int)
    requires cfg.bigBlind > 0 && Utility(cfg, t, strength).Success? && 0 <= p <= 1
    ensures UtilityOf(cfg, t, strength, p) + UtilityOf(cfg, t, strength, 1 - p)
            == cfg.initialPot as real / cfg.bigBlind as real
  {
    UtilitiesShareThePot(cfg, t, strength);
    hide Utility;
  }

  lemma OtherShare(u: real, v: real, pot: int, added: int, bb: real)
    requires bb > 0.0 && u == (-added) as real / bb && u + v == pot as real / bb
    ensures v == (pot + added) as real / bb
  {
    assert u * bb == -(added as real);
    assert (u + v) * bb == pot as real;
    assert v * bb == (pot + added) as real;
  }

  lemma TieSplits(cfg: Config, t: State, strength: seq<nat> -> int)
    requires cfg.bigBlind > 0 && AtShowdown(t) && strength(Shown(t, 0)) == strength(Shown(t, 1))
    ensures Utility(cfg, t, strength).Success?
    ensures var pot := (cfg.initialPot + Added(cfg, t, 0) + Added(cfg, t, 1)) as real;
            && UtilityOf(cfg, t, strength, 0) == (pot / 2.0 - Added(cfg, t, 0) as real) / cfg.bigBlind as real
            && UtilityOf(cfg, t, strength, 1) == (pot / 2.0 - Added(cfg, t, 1) as real) / cfg.bigBlind as real
  {
    FirstFive(t.board);
  }

  /** On equal strengths each player gets half of the pot, whatever each put in. */
  lemma TieSplitsExactly(cfg: Config, moves: seq<int>, t: State, strength: seq<nat> -> int, p: int)
    requires ValidConfig(cfg) && cfg.initialHoleCards.Some? && Reaches(cfg, Initial(cfg), moves, t) && IsTerminal(t)
    requires 0 <= p <= 1 && AtShowdown(t) && strength(Shown(t, 0)) == strength(Shown(t, 1))
    ensures cfg.bigBlind > 0 && Utility(cfg, t, strength).Success?
    ensures var pot := cfg.initialPot + Added(cfg, t, 0) + Added(cfg, t, 1);
            UtilityOf(cfg, t, strength, p) == (pot as real / 2.0 - Added(cfg, t, p) as real) / cfg.bigBlind as real
  {
    hide *;
    EndOfRun(cfg, moves, t, strength);
    TieSplits(cfg, t, strength);
  }

  /** Where both added the same, exchanging the hands exchanges the utilities. */
  lemma HandsExchange(cfg: Config, t: State, strength: seq<nat> -> int)
    requires cfg.bigBlind > 0 && AtShowdown(t) && Added(cfg, t, 0) == Added(cfg, t, 1)
    ensures var swapped := t.(hole := Some(Pair(t.hole.value.one, t.hole.value.zero)));
            && Utility(cfg, t, strength).Success? && Utility(cfg, swapped, strength).Success?
            && UtilityOf(cfg, swapped, strength, 0) == UtilityOf(cfg, t, strength, 1)
            && UtilityOf(cfg, swapped, strength, 1) == UtilityOf(cfg, t, strength, 0)
  {
    FirstFive(t.board);
  }
}
