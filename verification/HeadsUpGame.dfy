/**
 The heads-up game handed to the graph builders.  Its reachable states meet every hypothesis of the
 builder theorems, for the recursive builder's memo key and for the flat builder's.
 */
module HeadsUpGame {
  import opened Arithmetic
  import opened Wrappers
  import opened CommonTypes
  import opened Poker
  import opened InfosetKey
  import opened HeadsUpConfig
  import opened HeadsUpState
  import opened HeadsUpRuns
  import opened HeadsUpInfoset
  import opened HeadsUpMemo
  import opened HeadsUpHistories
  import opened GameTree
  import opened GraphEquality
  import opened FlatBuilder
  import opened GraphPlacement
  import opened GraphTheorems
  import opened FlatSlices
  import opened GraphFinish

  /** The utility of a finished hand is defined: somebody folded, or there are hands and a board to compare. */
  predicate Payable(s: State) {
    s.folded.zero || s.folded.one || (s.hole.Some? && |s.board| >= 5)
  }

  /** classify_terminal_kind; a finished hand whose utility throws is of no kind, and refused. */
  function TerminalTagOf(s: State): TerminalTag {
    if s.folded.zero || s.folded.one then FoldTag
    else if !Payable(s) then NotTerminal
    else if s.street == Showdown || (s.allIn.zero && s.allIn.one) then ShowdownTag
    else NotTerminal
  }

  function ValueOf(cfg: Config, strength: seq<nat> -> int, s: State): real {
    if cfg.bigBlind > 0 && Utility(cfg, s, strength).Success? then Utility(cfg, s, strength).value.0 else 0.0
  }

  function OutcomesOf(s: State): (r: seq<Move>)
    ensures s.hole.Some? ==> |r| == |RemainingCards(Held(s), DECK)|
  {
    if s.hole.None? then []
    else
      var cards := RemainingCards(Held(s), DECK);
      seq(|cards|, i requires 0 <= i < |cards| => Move(cards[i], 1.0 / |cards| as real))
  }

  function ApplyOrStay(cfg: Config, s: State, action: int): State {
    match Apply(cfg, s, action)
    case Success(t) => t
    case Failure(_) => s
  }

  function ViewOf(s: State): View {
    View(s.player, StreetIndex(s.street), s.board, (s.contributions.zero, s.contributions.one))
  }

  /** make_flat_infoset_key: the acting player's key, then the board and the street once more. */
  function InfosetKeyOf(s: State): string {
    match Encode(s, s.player)
    case Success(e) => KeyText(e) + ("|" + BoardAndStreet(s))
    case Failure(_) => ""
  }

  function BoardAndStreet(s: State): string {
    if !AllValid(s.board) then ""
    else "board:" + CardsText(Sorted(s.board)) + "|street:" + [StreetToken(s.street)]
  }

  /** Some run of exactly `d` moves from the root ends in `s`. */
  ghost predicate GoodState(cfg: Config, s: State, d: nat) {
    ValidConfig(cfg) && exists moves :: |moves| == d && Reaches(cfg, Initial(cfg), moves, s)
  }

  lemma GoodIsReachable(cfg: Config, s: State, d: nat)
    requires cfg.initialHoleCards.Some? && GoodState(cfg, s, d)
    ensures Reachable(cfg, s) && Plies(cfg, s) == d && s.hole.Some? && d <= PLY_LIMIT
  {
    var moves :| |moves| == d && Reaches(cfg, Initial(cfg), moves, s);
    RootReachable(cfg);
    hide ValidConfig, Apply, Phase, ChipsOk, HistoryOk, Plies, Initial;
    RunKeeps(cfg, Initial(cfg), moves, s);
    HistoryFits(cfg, s);
  }

  lemma {:induction false} RunExtends(cfg: Config, s: State, moves: seq<int>, t: State, action: int)
    requires Reaches(cfg, s, moves, t) && Apply(cfg, t, action).Success?
    ensures Reaches(cfg, s, moves + [action], Apply(cfg, t, action).value)
    decreases |moves|
  {
    hide Apply;
    if moves == [] {
      assert moves + [action] == [action];
      assert Reaches(cfg, Apply(cfg, s, action).value, [], Apply(cfg, s, action).value);
    } else {
      assert (moves + [action])[1..] == moves[1..] + [action];
      RunExtends(cfg, Apply(cfg, s, moves[0]).value, moves[1..], t, action);
    }
  }

  lemma NextIsGood(cfg: Config, s: State, d: nat, action: int)
    requires GoodState(cfg, s, d) && Apply(cfg, s, action).Success?
    ensures GoodState(cfg, Apply(cfg, s, action).value, d + 1)
  {
    hide ValidConfig, Apply, Reaches;
    var moves :| |moves| == d && Reaches(cfg, Initial(cfg), moves, s);
    RunExtends(cfg, Initial(cfg), moves, s, action);
    assert |moves + [action]| == d + 1;
  }

  function MovesLeft(cfg: Config, s: State): nat {
    Max(PLY_LIMIT - Plies(cfg, s), 0)
  }

  ghost function GameOf(cfg: Config, strength: seq<nat> -> int): Game<State> {
    Game(
      root := Initial(cfg),
      terminal := IsTerminal,
      terminalTag := TerminalTagOf,
      value := s => ValueOf(cfg, strength, s),
      chance := (s: State) => s.player == -1,
      outcomes := OutcomesOf,
      actions := s => Legal(cfg, s),
      apply := (s, action) => ApplyOrStay(cfg, s, action),
      view := ViewOf,
      infosetKey := InfosetKeyOf,
      depthLimit := cfg.depthLimitPlies,
      good := (s, d) => GoodState(cfg, s, d),
      rank := s => MovesLeft(cfg, s))
  }

  lemma ListedIsAccepted(cfg: Config, strength: seq<nat> -> int, s: State, d: nat, k: nat)
    requires cfg.initialHoleCards.Some? && GoodState(cfg, s, d) && k < |Moves(GameOf(cfg, strength), s, d)|
    ensures Apply(cfg, s, Moves(GameOf(cfg, strength), s, d)[k].action).Success?
  {
    var game := GameOf(cfg, strength);
    var action := Moves(game, s, d)[k].action;
    GoodIsReachable(cfg, s, d);
    hide ValidConfig, GoodState, Reachable, Plies, Legal, KeyText, RemainingCards, Apply;
    assert !IsTerminal(s);
    if s.player == -1 {
      ChanceNeverStuck(cfg, s);
      assert action in RemainingCards(Held(s), DECK);
    } else {
      DecisionNeverStuck(cfg, s);
      assert action in Legal(cfg, s);
    }
  }

  /** An accepted move from a good state leads to a good state, one ply deeper and one move closer to the end. */
  lemma AcceptedStaysGood(cfg: Config, s: State, d: nat, action: int)
    requires cfg.initialHoleCards.Some? && GoodState(cfg, s, d) && Apply(cfg, s, action).Success?
    ensures GoodState(cfg, ApplyOrStay(cfg, s, action), d + 1)
    ensures MovesLeft(cfg, ApplyOrStay(cfg, s, action)) < MovesLeft(cfg, s)
  {
    hide GoodState, Apply, Plies, Reachable;
    NextIsGood(cfg, s, d, action);
    GoodIsReachable(cfg, s, d);
    GoodIsReachable(cfg, ApplyOrStay(cfg, s, action), d + 1);
  }

  /** Every listed move of a good state leads to a good state. */
  lemma MoveStaysGood(cfg: Config, strength: seq<nat> -> int, s: State, d: nat, k: nat)
    requires cfg.initialHoleCards.Some? && GoodState(cfg, s, d) && k < |Moves(GameOf(cfg, strength), s, d)|
    ensures MoveOk(GameOf(cfg, strength), s, d, k)
  {
    ListedIsAccepted(cfg, strength, s, d, k);
    hide GoodState, Apply, MovesLeft, Moves, ApplyOrStay;
    AcceptedStaysGood(cfg, s, d, Moves(GameOf(cfg, strength), s, d)[k].action);
  }

  /** Without private cards nothing can be done at the root. */
  lemma BareRunStays(cfg: Config, s: State, d: nat)
    requires ValidConfig(cfg) && cfg.initialHoleCards.None? && GoodState(cfg, s, d)
    ensures s == Initial(cfg) && d == 0
  {
    var moves :| |moves| == d && Reaches(cfg, Initial(cfg), moves, s);
    hide ValidConfig;
    if cfg.startingStreet != Showdown {
      LateDealIsRoot(cfg, NO_HOLE);
    }
    if moves != [] {
      assert false;
    }
  }

  lemma RootIsGood(cfg: Config)
    requires ValidConfig(cfg)
    ensures GoodState(cfg, Initial(cfg), 0)
  {
    hide ValidConfig, Initial;
    assert Reaches(cfg, Initial(cfg), [], Initial(cfg));
  }

  /** What the root of a configuration without private cards is to the builders. */
  lemma BareRootKind(cfg: Config, strength: seq<nat> -> int)
    requires ValidConfig(cfg) && cfg.initialHoleCards.None?
    ensures var game := GameOf(cfg, strength);
            && KindOf(game, game.root, 0) == (if cfg.startingStreet == Showdown then BadLeaf else ChanceNode)
            && Moves(game, game.root, 0) == [] && game.outcomes(game.root) == []
  {
    hide ValidConfig;
  }

  /** Runs are finite; every chance node has an outcome if and only if the hands are given or the hand is over. */
  lemma GameIsFinite(cfg: Config, strength: seq<nat> -> int)
    requires ValidConfig(cfg)
    ensures GameOk(GameOf(cfg, strength))
    ensures ChanceHasOutcomes(GameOf(cfg, strength)) <==> cfg.initialHoleCards.Some? || cfg.startingStreet == Showdown
  {
    var game := GameOf(cfg, strength);
    RootIsGood(cfg);
    if cfg.initialHoleCards.None? {
      BareRootKind(cfg, strength);
      hide ValidConfig, GoodState, KindOf, Moves, Initial;
      forall s, d: nat | game.good(s, d) ensures s == game.root && d == 0 {
        BareRunStays(cfg, s, d);
      }
    } else {
      hide ValidConfig, GoodState, Initial;
      forall s, d: nat, k: nat | game.good(s, d) && k < |Moves(game, s, d)| ensures MoveOk(game, s, d, k) {
        MoveStaysGood(cfg, strength, s, d, k);
      }
      forall s, d: nat | game.good(s, d) && KindOf(game, s, d).ChanceNode? ensures game.outcomes(s) != [] {
        GoodIsReachable(cfg, s, d);
        ChanceNeverStuck(cfg, s);
      }
    }
  }

  lemma SameKeySameState(cfg: Config, s: State, d: nat, t: State, e: nat)
    requires cfg.initialHoleCards.Some? && GoodState(cfg, s, d) && GoodState(cfg, t, e)
    ensures TreeKeyOf(s) == TreeKeyOf(t) ==> s == t
    ensures FlatKeyOf(s) == FlatKeyOf(t) ==> s == t
    ensures s == t ==> d == e
  {
    hide Reachable, Plies, ValidConfig, TreeKeyOf, FlatKeyOf;
    GoodIsReachable(cfg, s, d);
    GoodIsReachable(cfg, t, e);
    if TreeKeyOf(s) == TreeKeyOf(t) {
      TreeKeyInjective(cfg, s, t);
    }
    if FlatKeyOf(s) == FlatKeyOf(t) {
      FlatKeyInjective(cfg, s, t);
    }
  }

  /** Reachable states with the same memo key are the same state, so both keys draw the same lines. */
  lemma KeysDetermineStates(cfg: Config, strength: seq<nat> -> int)
    requires ValidConfig(cfg)
    ensures var game := GameOf(cfg, strength);
            SameStates(game, TreeKeyOf, FlatKeyOf) && KeyDetermines(game, TreeKeyOf) && KeyDetermines(game, FlatKeyOf)
  {
    var game := GameOf(cfg, strength);
    hide Reachable, ValidConfig, Plies, GoodState;
    forall s, d: nat, t, e: nat | game.good(s, d) && game.good(t, e)
      ensures TreeKeyOf(s) == TreeKeyOf(t) ==> s == t
      ensures FlatKeyOf(s) == FlatKeyOf(t) ==> s == t
      ensures s == t ==> d == e
    {
      if cfg.initialHoleCards.None? {
        BareRunStays(cfg, s, d);
        BareRunStays(cfg, t, e);
      } else {
        SameKeySameState(cfg, s, d, t, e);
      }
    }
    hide TreeKeyOf, FlatKeyOf, KindOf, Moves, Full;
  }

  /** The two builders make the same nodes of any valid configuration, whether or not it gives the private cards. */
  lemma SameNodes(cfg: Config, strength: seq<nat> -> int)
    requires ValidConfig(cfg)
    ensures var game := GameOf(cfg, strength);
            && GameOk(game) && SlotsMatch(TreeOf(game, TreeKeyOf).nodes)
            && TreeOf(game, TreeKeyOf) == Target(game, FlatKeyOf)
            && (cfg.initialHoleCards.Some? ==>
                  FlattenAll(TreeOf(game, TreeKeyOf).nodes) == PlaceAll(Target(game, FlatKeyOf).nodes))
  {
    hide ValidConfig, GameOf;
    GameIsFinite(cfg, strength);
    KeysDetermineStates(cfg, strength);
    BuildersAgree(GameOf(cfg, strength), TreeKeyOf, FlatKeyOf);
  }

  /**
   The flattened tree is the directly built graph, array for array, if and only if the private cards are
   given or the hand starts at showdown.  Otherwise the tree is one chance node with nothing to deal, which
   the direct builder lays out and the flattening pass refuses.
   */
  lemma HeadsUpBuildersAgree(cfg: Config, strength: seq<nat> -> int)
    requires ValidConfig(cfg)
    ensures var game := GameOf(cfg, strength);
            && GameOk(game) && SlotsMatch(TreeOf(game, TreeKeyOf).nodes)
            && TreeOf(game, TreeKeyOf) == Target(game, FlatKeyOf)
            && (FlattenAll(TreeOf(game, TreeKeyOf).nodes) == PlaceAll(Target(game, FlatKeyOf).nodes) <==>
                  cfg.initialHoleCards.Some? || cfg.startingStreet == Showdown)
            && (cfg.initialHoleCards.None? && cfg.startingStreet != Showdown ==>
                  && |TreeOf(game, TreeKeyOf).nodes| == 1 && DealsNothing(TreeOf(game, TreeKeyOf).nodes[0])
                  && FlattenAll(TreeOf(game, TreeKeyOf).nodes).None? && PlaceAll(Target(game, FlatKeyOf).nodes).Some?)
  {
    SameNodes(cfg, strength);
    hide ValidConfig, FlattenAll, PlaceAll, TreeOf, Target;
    var game := GameOf(cfg, strength);
    if cfg.initialHoleCards.None? {
      BareRootKind(cfg, strength);
      if cfg.startingStreet == Showdown {
        LoneRoot(game, TreeKeyOf);
        BadRootRefused(Full(game, game.root, 0, []));
      } else {
        FlatteningRefusesEmptyChance(game, TreeKeyOf);
      }
    }
  }

  lemma BadRootRefused(node: Node)
    requires node.kind.BadLeaf? && |node.moves| == |node.children|
    ensures PlaceAll([node]).None? && FlattenAll([node]).None?
  {
    FlattenExactly([node]);
    assert [node][..0] == [];
  }

  /** Blinds of 1 and 2, 100 chips each, private cards still to be dealt. */
  const BARE_CONFIG := Config(
    startingStack := 100, smallBlind := 1, bigBlind := 2, ante := 0, startingStreet := Preflop,
    initialBoard := [], initialPot := 0, initialContributions := Pair(0, 0), initialHoleCards := None,
    preflopRaiseCap := 4, postflopRaiseCap := 3, betFractions := [], flopFractions := None, turnFractions := None,
    riverFractions := None, raiseMultipliers := [], includeAllIn := true, autoAllInSpr := None,
    forceAllInThreshold := 1, minBetBlinds := 1, allowFlopLead := false, depthLimitPlies := 0)

  /** A validated configuration whose tree one builder accepts and the other refuses. */
  lemma BareConfigSplitsBuilders(strength: seq<nat> -> int)
    ensures ValidConfig(BARE_CONFIG)
    ensures var game := GameOf(BARE_CONFIG, strength);
            && GameOk(game) && SlotsMatch(TreeOf(game, TreeKeyOf).nodes) && SlotsMatch(Target(game, FlatKeyOf).nodes)
            && FlattenAll(TreeOf(game, TreeKeyOf).nodes).None? && PlaceAll(Target(game, FlatKeyOf).nodes).Some?
  {
    assert ValidChips(BARE_CONFIG) && ValidMenus(BARE_CONFIG) && ValidPot(BARE_CONFIG) && ValidCards(BARE_CONFIG);
    hide ValidConfig, GameOf;
    HeadsUpBuildersAgree(BARE_CONFIG, strength);
  }

  /** Every node of the shared graph unfolds to the tree of play of the state and depth it was made for. */
  lemma HeadsUpGraphUnfolds(cfg: Config, strength: seq<nat> -> int, j: nat)
    requires ValidConfig(cfg) && cfg.initialHoleCards.Some?
    requires GameOk(GameOf(cfg, strength)) && j < |TreeOf(GameOf(cfg, strength), TreeKeyOf).nodes|
    ensures var game := GameOf(cfg, strength);
            var tree := TreeOf(game, TreeKeyOf);
            && |tree.origins| == |tree.nodes| && game.good(tree.origins[j].state, tree.origins[j].depth)
            && Unfolds(tree.nodes, {}, j, Expand(game, tree.origins[j].state, tree.origins[j].depth))
            && tree.origins[j].depth == Plies(cfg, tree.origins[j].state) <= PLY_LIMIT
  {
    KeysDetermineStates(cfg, strength);
    GraphUnfoldsToPlay(GameOf(cfg, strength), TreeKeyOf, j);
    var origin := TreeOf(GameOf(cfg, strength), TreeKeyOf).origins[j];
    assert GoodState(cfg, origin.state, origin.depth);
    hide ValidConfig, Reachable, Unfolds, Expand, GoodState;
    GoodIsReachable(cfg, origin.state, origin.depth);
  }

  // ---------------------------------------------------------------- the graph is built

  /** Every node of the graph is the finished node of a state some run reaches. */
  lemma NodesAreFinished(cfg: Config, strength: seq<nat> -> int, j: nat)
    requires ValidConfig(cfg) && cfg.initialHoleCards.Some?
    requires GameOk(GameOf(cfg, strength)) && j < |TreeOf(GameOf(cfg, strength), TreeKeyOf).nodes|
    ensures var game := GameOf(cfg, strength);
            var tree := TreeOf(game, TreeKeyOf);
            && |tree.origins| == |tree.nodes|
            && GoodState(cfg, tree.origins[j].state, tree.origins[j].depth)
            && tree.nodes[j].(children := []) == Full(game, tree.origins[j].state, tree.origins[j].depth, [])
  {
    HeadsUpGraphUnfolds(cfg, strength, j);
    hide ValidConfig, GoodState, KindOf, Moves, Full;
  }

  /** Nodes of one information set agree: the key determines the betting, and the betting the menu. */
  lemma SetsAgree(cfg: Config, strength: seq<nat> -> int, s: State, d: nat, t: State, e: nat)
    requires cfg.initialHoleCards.Some? && GoodState(cfg, s, d) && GoodState(cfg, t, e)
    requires var game := GameOf(cfg, strength);
             KindOf(game, s, d).DecisionNode? && KindOf(game, s, d) == KindOf(game, t, e)
    ensures var game := GameOf(cfg, strength);
            SignatureOf(Full(game, s, d, [])) == SignatureOf(Full(game, t, e, []))
  {
    GoodIsReachable(cfg, s, d);
    GoodIsReachable(cfg, t, e);
    DecidesWhenOpen(cfg, s);
    DecidesWhenOpen(cfg, t);
    hide ValidConfig, Reachable, GoodState, KeyText, Legal, Encode, Plies;
    SameKeySameView(cfg, s, d, t, e);
  }

  lemma SameKeySameView(cfg: Config, s: State, d: nat, t: State, e: nat)
    requires cfg.initialHoleCards.Some? && GoodState(cfg, s, d) && GoodState(cfg, t, e)
    requires 0 <= s.player <= 1 && 0 <= t.player <= 1 && InfosetKeyOf(s) == InfosetKeyOf(t)
    ensures Legal(cfg, s) == Legal(cfg, t) && s.player == t.player && s.street == t.street
    ensures multiset(s.board) == multiset(t.board)
  {
    GoodIsReachable(cfg, s, d);
    GoodIsReachable(cfg, t, e);
    var ms :| |ms| == d && Reaches(cfg, Initial(cfg), ms, s);
    var mt :| |mt| == e && Reaches(cfg, Initial(cfg), mt, t);
    hide ValidConfig, Reachable, Initial, Reaches, KeyText, Legal, Encode, Plies;
    ReachableEncodesCanonically(cfg, s, s.player);
    ReachableEncodesCanonically(cfg, t, t.player);
    hide BoardAndStreet, Canonical;
    EncodedIsValid(s, s.player);
    EncodedIsValid(t, t.player);
    KeyThenInjective(Encode(s, s.player).value, Encode(t, t.player).value, BoardAndStreet(s), BoardAndStreet(t));
    SameKeySameMenu(cfg, ms, s, mt, t);
  }

  lemma EncodedIsValid(s: State, player: int)
    requires Encode(s, player).Success?
    ensures ValidEncoding(Encode(s, player).value)
  {
  }

  lemma DecidesWhenOpen(cfg: Config, s: State)
    requires Reachable(cfg, s)
    ensures !IsTerminal(s) && s.player != -1 ==> 0 <= s.player <= 1
    ensures IsTerminal(s) ==> TerminalTagOf(s) != NotTerminal
  {
  }

  // ---------------------------------------------------------------- every state played has a node

  predicate WithinLimit(cfg: Config, d: nat) {
    cfg.depthLimitPlies == 0 || d <= cfg.depthLimitPlies
  }

  /** Node `j` was made for state `s` at depth `d`. */
  ghost predicate NodeFor(cfg: Config, strength: seq<nat> -> int, j: nat, s: State, d: nat)
    requires GameOk(GameOf(cfg, strength))
  {
    var tree := TreeOf(GameOf(cfg, strength), TreeKeyOf);
    j < |tree.nodes| == |tree.origins| && tree.origins[j] == Origin(s, d)
  }

  lemma AcceptedIsOpen(cfg: Config, s: State, action: int)
    requires Apply(cfg, s, action).Success?
    ensures !IsTerminal(s) && (s.player == -1 ==> action >= 0) && (s.player != -1 ==> action in Legal(cfg, s))
  {
    hide Legal, AfterPlayer;
  }

  /** An accepted move is one of the moves the builders follow, short of the depth limit. */
  lemma AcceptedIsListed(cfg: Config, strength: seq<nat> -> int, s: State, d: nat, action: int) returns (k: nat)
    requires cfg.initialHoleCards.Some? && GoodState(cfg, s, d) && Apply(cfg, s, action).Success?
    requires WithinLimit(cfg, d + 1)
    ensures k < |Moves(GameOf(cfg, strength), s, d)|
    ensures Next(GameOf(cfg, strength), s, d, k) == Apply(cfg, s, action).value
  {
    hide Apply, ValidConfig, GoodState, Reachable, Plies, Legal, KeyText, RemainingCards, InfosetKeyOf, ValueOf;
    GoodIsReachable(cfg, s, d);
    AcceptedIsOpen(cfg, s, action);
    var game := GameOf(cfg, strength);
    if s.player == -1 {
      ChanceNeverStuck(cfg, s);
      var cards := RemainingCards(Held(s), DECK);
      assert action in cards;
      k :| k < |cards| && cards[k] == action;
      assert Moves(game, s, d)[k].action == action;
    } else {
      k :| k < |Legal(cfg, s)| && Legal(cfg, s)[k] == action;
      assert Moves(game, s, d)[k].action == action;
    }
  }

  lemma SlotIsLinked(cfg: Config, strength: seq<nat> -> int, i: nat, s: State, d: nat, k: nat)
    requires k < |Moves(GameOf(cfg, strength), s, d)|
    requires GameOk(GameOf(cfg, strength)) && NodeFor(cfg, strength, i, s, d)
    ensures var tree := TreeOf(GameOf(cfg, strength), TreeKeyOf);
            && |tree.nodes[i].children| == |Moves(GameOf(cfg, strength), s, d)|
            && tree.nodes[i].children[k] < |tree.nodes| == |tree.origins|
            && TreeKeyOf(tree.origins[tree.nodes[i].children[k]].state)
               == TreeKeyOf(Next(GameOf(cfg, strength), s, d, k))
  {
    var game := GameOf(cfg, strength);
    hide GoodState, Apply, Moves, KindOf, ValidConfig, Next, TreeKeyOf;
    BuildLinks(game, TreeKeyOf, EmptyBuild<State>(), game.root, 0, {});
    var tree := TreeOf(game, TreeKeyOf);
    assert NodeLinked(game, TreeKeyOf, tree.origins, tree.nodes[i].children, s, d, 0);
  }

  /** The node in slot `k` was made for the state the `k`-th move leads to. */
  lemma SlotNode(cfg: Config, strength: seq<nat> -> int, i: nat, s: State, d: nat, k: nat)
    requires cfg.initialHoleCards.Some? && GoodState(cfg, s, d) && k < |Moves(GameOf(cfg, strength), s, d)|
    requires GameOk(GameOf(cfg, strength)) && NodeFor(cfg, strength, i, s, d)
    ensures var children := TreeOf(GameOf(cfg, strength), TreeKeyOf).nodes[i].children;
            && |children| == |Moves(GameOf(cfg, strength), s, d)|
            && NodeFor(cfg, strength, children[k], Next(GameOf(cfg, strength), s, d, k), d + 1)
  {
    var game := GameOf(cfg, strength);
    assert ValidConfig(cfg) && game.good(s, d);
    hide GoodState, Apply, Moves, KindOf, ValidConfig, Next, TreeOf, TreeKeyOf, Unfolds, Expand;
    MoveStaysGood(cfg, strength, s, d, k);
    SlotIsLinked(cfg, strength, i, s, d, k);
    var tree := TreeOf(game, TreeKeyOf);
    var j := tree.nodes[i].children[k];
    HeadsUpGraphUnfolds(cfg, strength, j);
    SameKeySameState(cfg, tree.origins[j].state, tree.origins[j].depth, Next(game, s, d, k), d + 1);
  }

  /** The child of a state's node along an accepted move is the node of the state it leads to. */
  lemma ChildNode(cfg: Config, strength: seq<nat> -> int, i: nat, s: State, d: nat, action: int) returns (j: nat)
    requires cfg.initialHoleCards.Some? && GoodState(cfg, s, d) && Apply(cfg, s, action).Success?
    requires WithinLimit(cfg, d + 1) && GameOk(GameOf(cfg, strength)) && NodeFor(cfg, strength, i, s, d)
    ensures NodeFor(cfg, strength, j, Apply(cfg, s, action).value, d + 1)
  {
    var k := AcceptedIsListed(cfg, strength, s, d, action);
    hide GoodState, Apply, Moves, Next, TreeOf;
    SlotNode(cfg, strength, i, s, d, k);
    j := TreeOf(GameOf(cfg, strength), TreeKeyOf).nodes[i].children[k];
  }

  /** Whatever is played within the depth limit, the state reached has a node. */
  lemma {:induction false} PlayHasNode(cfg: Config, strength: seq<nat> -> int, i: nat, s: State, d: nat,
                                       moves: seq<int>, t: State) returns (j: nat)
    requires cfg.initialHoleCards.Some? && GoodState(cfg, s, d) && Reaches(cfg, s, moves, t)
    requires WithinLimit(cfg, d + |moves|) && GameOk(GameOf(cfg, strength)) && NodeFor(cfg, strength, i, s, d)
    ensures NodeFor(cfg, strength, j, t, d + |moves|)
    decreases |moves|
  {
    if moves == [] {
      j := i;
    } else {
      NextIsGood(cfg, s, d, moves[0]);
      hide GoodState, Apply, NodeFor;
      var child := ChildNode(cfg, strength, i, s, d, moves[0]);
      j := PlayHasNode(cfg, strength, child, Apply(cfg, s, moves[0]).value, d + 1, moves[1..], t);
    }
  }

  /** A decision some hand comes to before the depth limit, at which no action is listed. */
  ghost predicate DeadEnd(cfg: Config, moves: seq<int>, s: State) {
    && Reaches(cfg, Initial(cfg), moves, s)
    && (cfg.depthLimitPlies == 0 || |moves| < cfg.depthLimitPlies)
    && !IsTerminal(s) && s.player != -1
    && (BlindedOut(cfg, s) || RaiseOverflows(ContextOf(cfg, s)))
  }

  ghost predicate CanGetStuck(cfg: Config) {
    exists moves, s :: DeadEnd(cfg, moves, s)
  }

  /** The tree has a decision at which no action is listed. */
  ghost predicate HasEmptyMenu(cfg: Config, strength: seq<nat> -> int)
    requires GameOk(GameOf(cfg, strength))
  {
    var game := GameOf(cfg, strength);
    var nodes := TreeOf(game, TreeKeyOf).nodes;
    exists j :: 0 <= j < |nodes| && nodes[j].kind.DecisionNode? && nodes[j].children == []
  }

  lemma MenuIsEmptyExactly(cfg: Config, strength: seq<nat> -> int, s: State, d: nat)
    requires cfg.initialHoleCards.Some? && GoodState(cfg, s, d)
    ensures var game := GameOf(cfg, strength);
            KindOf(game, s, d).DecisionNode? && Moves(game, s, d) == [] <==>
              && !IsTerminal(s) && s.player != -1 && (cfg.depthLimitPlies == 0 || d < cfg.depthLimitPlies)
              && (BlindedOut(cfg, s) || RaiseOverflows(ContextOf(cfg, s)))
  {
    GoodIsReachable(cfg, s, d);
    DecidesWhenOpen(cfg, s);
    if !IsTerminal(s) && s.player != -1 {
      DecisionNeverStuck(cfg, s);
    }
    hide ValidConfig, GoodState, Reachable, Legal, KeyText, Encode, Plies, RaiseOverflows, BlindedOut;
  }

  /** An empty menu in the tree is a dead end some hand comes to, and every such dead end has its node. */
  lemma EmptyMenuIsDeadEnd(cfg: Config, strength: seq<nat> -> int)
    requires ValidConfig(cfg) && cfg.initialHoleCards.Some? && GameOk(GameOf(cfg, strength))
    ensures HasEmptyMenu(cfg, strength) <==> CanGetStuck(cfg)
  {
    var game := GameOf(cfg, strength);
    var tree := TreeOf(game, TreeKeyOf);
    hide ValidConfig, KindOf, Moves, TreeOf, RaiseOverflows, BlindedOut, Apply, IsTerminal;
    if HasEmptyMenu(cfg, strength) {
      var j :| 0 <= j < |tree.nodes| && tree.nodes[j].kind.DecisionNode? && tree.nodes[j].children == [];
      NodesAreFinished(cfg, strength, j);
      NodeChildren(cfg, strength, j);
      MenuIsEmptyExactly(cfg, strength, tree.origins[j].state, tree.origins[j].depth);
      var moves :| |moves| == tree.origins[j].depth && Reaches(cfg, Initial(cfg), moves, tree.origins[j].state);
      assert DeadEnd(cfg, moves, tree.origins[j].state);
    }
    if CanGetStuck(cfg) {
      var moves, s :| DeadEnd(cfg, moves, s);
      RootIsGood(cfg);
      RootHasNode(cfg, strength);
      var j := PlayHasNode(cfg, strength, 0, Initial(cfg), 0, moves, s);
      NodesAreFinished(cfg, strength, j);
      NodeChildren(cfg, strength, j);
      MenuIsEmptyExactly(cfg, strength, s, |moves|);
    }
  }

  lemma RootHasNode(cfg: Config, strength: seq<nat> -> int)
    requires GameOk(GameOf(cfg, strength))
    ensures NodeFor(cfg, strength, 0, Initial(cfg), 0)
  {
    var game := GameOf(cfg, strength);
    TreeHasRoot(game, TreeKeyOf);
    FirstIsRoot(game, TreeKeyOf);
  }

  lemma NodeChildren(cfg: Config, strength: seq<nat> -> int, j: nat)
    requires GameOk(GameOf(cfg, strength)) && j < |TreeOf(GameOf(cfg, strength), TreeKeyOf).nodes|
    ensures var tree := TreeOf(GameOf(cfg, strength), TreeKeyOf);
            && |tree.origins| == |tree.nodes|
            && |tree.nodes[j].children|
               == |Moves(GameOf(cfg, strength), tree.origins[j].state, tree.origins[j].depth)|
  {
    var game := GameOf(cfg, strength);
    hide KindOf, Moves;
    BuildLinks(game, TreeKeyOf, EmptyBuild<State>(), game.root, 0, {});
    var tree := TreeOf(game, TreeKeyOf);
    assert NodeLinked(game, TreeKeyOf, tree.origins, tree.nodes[j].children, tree.origins[j].state,
                      tree.origins[j].depth, 0);
  }

  /**
   Information sets never conflict and the sort never refuses: the graph is laid out, sorted and sliced
   exactly when no hand can come, before the depth limit, to a decision without an action.
   */
  lemma GraphIsBuiltExactly(cfg: Config, strength: seq<nat> -> int)
    requires ValidConfig(cfg) && cfg.initialHoleCards.Some?
    ensures var game := GameOf(cfg, strength);
            && GameOk(game) && SlotsMatch(TreeOf(game, TreeKeyOf).nodes)
            && (Solvable(TreeOf(game, TreeKeyOf).nodes) <==> !CanGetStuck(cfg))
  {
    LayoutIsMadeExactly(cfg, strength);
    hide ValidConfig, GameOf;
    GameIsFinite(cfg, strength);
    KeysDetermineStates(cfg, strength);
    LaidOutIsSolvable(GameOf(cfg, strength), TreeKeyOf);
    EmptyMenuIsDeadEnd(cfg, strength);
  }

  lemma LayoutIsMadeExactly(cfg: Config, strength: seq<nat> -> int)
    requires ValidConfig(cfg) && cfg.initialHoleCards.Some?
    ensures var game := GameOf(cfg, strength);
            && GameOk(game) && SlotsMatch(TreeOf(game, TreeKeyOf).nodes)
            && (PlaceAll(TreeOf(game, TreeKeyOf).nodes).Some? <==> !HasEmptyMenu(cfg, strength))
  {
    HeadsUpBuildersAgree(cfg, strength);
    var game := GameOf(cfg, strength);
    var tree := TreeOf(game, TreeKeyOf);
    var nodes := tree.nodes;
    hide ValidConfig, GoodState, KindOf, Moves, SignatureOf;
    PlaceAllExactly(nodes);
    forall j | 0 <= j < |nodes| ensures !nodes[j].kind.BadLeaf? {
      NodesAreFinished(cfg, strength, j);
      NeverBad(cfg, strength, tree.origins[j].state, tree.origins[j].depth);
    }
    forall i, j | 0 <= i < |nodes| && 0 <= j < |nodes| && nodes[i].kind.DecisionNode? && nodes[j].kind == nodes[i].kind
      ensures SignatureOf(nodes[i]) == SignatureOf(nodes[j])
    {
      NodesAreFinished(cfg, strength, i);
      NodesAreFinished(cfg, strength, j);
      SetsAgree(cfg, strength, tree.origins[i].state, tree.origins[i].depth, tree.origins[j].state,
                tree.origins[j].depth);
      SignatureIgnoresChildren(nodes[i]);
      SignatureIgnoresChildren(nodes[j]);
    }
  }

  lemma NeverBad(cfg: Config, strength: seq<nat> -> int, s: State, d: nat)
    requires cfg.initialHoleCards.Some? && GoodState(cfg, s, d)
    ensures !KindOf(GameOf(cfg, strength), s, d).BadLeaf?
  {
    GoodIsReachable(cfg, s, d);
    DecidesWhenOpen(cfg, s);
    hide Reachable, GoodState, KeyText;
  }

  lemma SignatureIgnoresChildren(node: Node)
    ensures SignatureOf(node.(children := [])) == SignatureOf(node)
  {
  }

  predicate SmallBlindCanAct(cfg: Config) {
    cfg.startingStreet == Preflop ==> cfg.smallBlind + cfg.ante < cfg.startingStack
  }

  /** With equal totals the only dead end is a small blind worth the whole stack. */
  lemma EqualTotalsStuckExactly(cfg: Config)
    requires ValidConfig(cfg) && cfg.initialHoleCards.Some? && EqualTotals(cfg)
    ensures CanGetStuck(cfg) <==> !SmallBlindCanAct(cfg)
  {
    if CanGetStuck(cfg) {
      var moves, s :| DeadEnd(cfg, moves, s);
      RootReachable(cfg);
      RunKeeps(cfg, Initial(cfg), moves, s);
      DecisionNeverStuck(cfg, s);
      hide ValidConfig, Reachable, Legal, Apply, RaiseOverflows, Initial, Reaches, Plies, IsTerminal;
    }
    if !SmallBlindCanAct(cfg) {
      BlindedRootIsDeadEnd(cfg);
    }
  }

  lemma BlindedRootIsDeadEnd(cfg: Config)
    requires ValidConfig(cfg) && cfg.initialHoleCards.Some? && !SmallBlindCanAct(cfg)
    ensures DeadEnd(cfg, [], Initial(cfg))
  {
    hide RaiseOverflows, ValidCards, ValidMenus, ValidPot;
  }

  /**
   With equal stack-plus-contribution totals both builders succeed, to the last slice, on exactly the valid
   explicit-hand configurations whose small blind can act.
   */
  lemma EqualTotalsBuild(cfg: Config, strength: seq<nat> -> int)
    requires ValidConfig(cfg) && cfg.initialHoleCards.Some? && EqualTotals(cfg)
    ensures var game := GameOf(cfg, strength);
            && GameOk(game) && SlotsMatch(TreeOf(game, TreeKeyOf).nodes)
            && (Solvable(TreeOf(game, TreeKeyOf).nodes) <==> SmallBlindCanAct(cfg))
  {
    hide ValidConfig, GameOf, Solvable, CanGetStuck, SmallBlindCanAct;
    GraphIsBuiltExactly(cfg, strength);
    EqualTotalsStuckExactly(cfg);
  }

  /** Depth slice `d` of a heads-up graph holds states of runs of `d` moves, so no node lies deeper than ply 53. */
  lemma HeadsUpSlicesArePlies(cfg: Config, strength: seq<nat> -> int, streets: seq<nat>, finished: FinishedGraph,
                              d: nat, i: nat)
    requires ValidConfig(cfg) && cfg.initialHoleCards.Some? && GameOk(GameOf(cfg, strength))
    requires Finished(GraphOf(TreeOf(GameOf(cfg, strength), TreeKeyOf).nodes), streets, finished)
    requires d < |finished.depthSlices|
    requires finished.depthSlices[d].begin <= i < finished.depthSlices[d].begin + finished.depthSlices[d].count
    ensures var tree := TreeOf(GameOf(cfg, strength), TreeKeyOf);
            && |tree.origins| == |tree.nodes| == |finished.depthOrder| && i < |finished.depthOrder|
            && finished.depthOrder[i] < |tree.origins|
            && d == Plies(cfg, tree.origins[finished.depthOrder[i]].state) <= PLY_LIMIT
  {
    hide Finished;
    KeysDetermineStates(cfg, strength);
    SlicesArePlies(GameOf(cfg, strength), TreeKeyOf, streets, finished, d, i);
    HeadsUpGraphUnfolds(cfg, strength, finished.depthOrder[i]);
  }
}
