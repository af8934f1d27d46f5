/** What the nodes of a heads-up graph record of the states they were made for. */
module HeadsUpRecords {
  import opened Wrappers
  import opened CommonTypes
  import opened Poker
  import opened InfosetKey
  import opened HeadsUpConfig
  import opened HeadsUpMenu
  import opened HeadsUpState
  import opened HeadsUpRuns
  import opened HeadsUpInfoset
  import opened HeadsUpMemo
  import opened GameTree
  import opened GraphPlacement
  import opened GraphTheorems
  import opened GraphFinish
  import opened HeadsUpGame

  // ---------------------------------------------------------------- what is listed, and in which order

  ghost predicate Ascending(s: seq<int>) {
    forall i, j :: 0 <= i < j < |s| ==> s[i] < s[j]
  }

  lemma AscendingJoin(a: seq<int>, b: seq<int>)
    requires Ascending(a) && Ascending(b) && forall x, y :: x in a && y in b ==> x < y
    ensures Ascending(a + b)
  {
    var all := a + b;
    forall i, j | 0 <= i < j < |all| ensures all[i] < all[j] {
      assert i < |a| ==> all[i] in a;
      assert j >= |a| ==> all[j] in b;
    }
  }

  lemma {:induction false} OfferedAscend(sizes: seq<int>, ceiling: int, first: int, k: nat)
    requires k <= |sizes|
    ensures Ascending(OfferedIds(sizes, ceiling, first, k))
  {
    if k > 0 {
      OfferedAscend(sizes, ceiling, first, k - 1);
      AscendingJoin(OfferedIds(sizes, ceiling, first, k - 1), [first + k - 1]);
    }
  }

  /** The menu lists actions in the order of their numbers: fold, check, call, bets, raises, all in. */
  lemma MenuAscends(ctx: Context)
    ensures Ascending(LegalActions(ctx))
  {
    hide OfferedIds, BetAmounts, RaiseTargets, AllInWanted, MayAggress, Stack, Offered;
    var plain := if ctx.toCall > 0 then [FOLD, CALL] else [CHECK];
    var sized := if !MayAggress(ctx) then [] else if ctx.toCall > 0 then Raises(ctx) else Bets(ctx);
    var last := if AllInWanted(ctx) && MayAggress(ctx) && Stack(ctx) > ctx.toCall then [ALL_IN] else [];
    OfferedAscend(BetAmounts(ctx), BetCeiling(ctx), FIRST_BET, |BetAmounts(ctx)|);
    OfferedAscend(RaiseTargets(ctx), RaiseCeiling(ctx), FIRST_RAISE, |RaiseTargets(ctx)|);
    SizedBetween(ctx);
    AscendingJoin(plain, sized);
    AscendingJoin(plain + sized, last);
  }

  lemma SizedBetween(ctx: Context)
    ensures forall a :: a in Bets(ctx) || a in Raises(ctx) ==> CALL < a < ALL_IN
  {
  }

  lemma {:induction false} CardsAscend(held: seq<nat>, k: nat)
    ensures Ascending(RemainingCards(held, k))
  {
    if k > 0 {
      CardsAscend(held, k - 1);
      var before := RemainingCards(held, k - 1);
      forall c | c in before ensures c < k - 1 {
        RemainingAreUnheld(held, k - 1, c);
      }
      AscendingJoin(before, [k - 1]);
    }
  }

  // ---------------------------------------------------------------- a node and its state

  predicate Limited(cfg: Config, d: nat) {
    cfg.depthLimitPlies != 0 && d >= cfg.depthLimitPlies
  }

  /** What the node of a state shows before its children: whose turn it is, the cards, the chips and the kind. */
  ghost predicate FaceShows(cfg: Config, s: State, d: nat, node: Node) {
    && node.view.player == (if IsTerminal(s) then -2 else s.player)
    && node.view.street == StreetIndex(s.street) && node.view.board == s.board
    && node.view.contributions == (s.contributions.zero, s.contributions.one)
    && (node.kind == FoldLeaf <==> s.folded.zero || s.folded.one)
    && (node.kind == ShowdownLeaf <==> !s.folded.zero && !s.folded.one && s.street == Showdown)
    && (node.kind == LimitLeaf <==> !IsTerminal(s) && Limited(cfg, d))
    && (node.kind == ChanceNode <==> !IsTerminal(s) && !Limited(cfg, d) && s.player == -1)
    && (node.kind.DecisionNode? <==> !IsTerminal(s) && !Limited(cfg, d) && 0 <= s.player <= 1)
    && (node.kind.DecisionNode? ==> node.kind.key == InfosetKeyOf(s))
  }

  /** Player 0's utility at the end of a hand, and nothing before it. */
  predicate ValueShows(cfg: Config, strength: seq<nat> -> int, s: State, node: Node)
    requires cfg.bigBlind > 0
  {
    if IsTerminal(s) then
      Utility(cfg, s, strength).Success? && node.value == Utility(cfg, s, strength).value.0
    else node.value == 0.0
  }

  ghost function ActionsIn(node: Node): (r: seq<int>)
    ensures |r| == |node.moves| && forall k :: 0 <= k < |r| ==> r[k] == node.moves[k].action
  {
    seq(|node.moves|, k requires 0 <= k < |node.moves| => node.moves[k].action)
  }

  /** The moves of a node are those the state accepts, in ascending order; cards come equally likely. */
  ghost predicate MovesShow(cfg: Config, s: State, node: Node) {
    && (node.moves != [] ==> Inner(node.kind)) && Ascending(ActionsIn(node))
    && (Inner(node.kind) ==> forall a :: a in ActionsIn(node) <==> Apply(cfg, s, a).Success?)
    && forall k :: 0 <= k < |node.moves| ==>
                     node.moves[k].probability == if s.player == -1 then 1.0 / |node.moves| as real else 0.0
  }

  lemma FaceOfState(cfg: Config, strength: seq<nat> -> int, s: State, d: nat)
    requires cfg.initialHoleCards.Some? && GoodState(cfg, s, d)
    ensures FaceShows(cfg, s, d, Full(GameOf(cfg, strength), s, d, []))
  {
    GoodIsReachable(cfg, s, d);
    DecidesWhenOpen(cfg, s);
    hide GoodState, KeyDetermines, Plies, ChipsOk, HistoryOk, Legal, RemainingCards, ValueOf;
  }

  lemma ValueOfState(cfg: Config, strength: seq<nat> -> int, s: State, d: nat)
    requires cfg.initialHoleCards.Some? && GoodState(cfg, s, d)
    ensures cfg.bigBlind > 0 && ValueShows(cfg, strength, s, Full(GameOf(cfg, strength), s, d, []))
  {
    var moves :| |moves| == d && Reaches(cfg, Initial(cfg), moves, s);
    if IsTerminal(s) {
      TerminalsPayOut(cfg, moves, s, strength);
    }
    hide GoodState, Reaches, Initial, KindOf, Moves, Utility;
  }

  lemma CardsOfState(cfg: Config, strength: seq<nat> -> int, s: State, d: nat)
    requires Reachable(cfg, s) && KindOf(GameOf(cfg, strength), s, d).ChanceNode?
    ensures MovesShow(cfg, s, Full(GameOf(cfg, strength), s, d, []))
  {
    ChanceNeverStuck(cfg, s);
    CardsAscend(Held(s), DECK);
    AcceptedIsCard(cfg, s);
    hide Reachable, RemainingCards, ValueOf, Apply;
    var node := Full(GameOf(cfg, strength), s, d, []);
    var cards := RemainingCards(Held(s), DECK);
    assert ActionsIn(node) == cards;
  }

  lemma MenuOfState(cfg: Config, strength: seq<nat> -> int, s: State, d: nat)
    requires ValidConfig(cfg) && Reachable(cfg, s) && KindOf(GameOf(cfg, strength), s, d).DecisionNode?
    ensures MovesShow(cfg, s, Full(GameOf(cfg, strength), s, d, []))
  {
    DecisionNeverStuck(cfg, s);
    MenuAscends(ContextOf(cfg, s));
    hide Reachable, LegalActions, ValueOf, Apply, ValidConfig, InfosetKeyOf;
    var node := Full(GameOf(cfg, strength), s, d, []);
    assert ActionsIn(node) == Legal(cfg, s);
  }

  lemma MovesOfState(cfg: Config, strength: seq<nat> -> int, s: State, d: nat)
    requires cfg.initialHoleCards.Some? && GoodState(cfg, s, d)
    ensures MovesShow(cfg, s, Full(GameOf(cfg, strength), s, d, []))
  {
    GoodIsReachable(cfg, s, d);
    var game := GameOf(cfg, strength);
    hide GoodState, Reachable, ValidConfig, Plies, ValueOf, Apply, InfosetKeyOf, OutcomesOf, Legal;
    if KindOf(game, s, d).ChanceNode? {
      CardsOfState(cfg, strength, s, d);
    } else if KindOf(game, s, d).DecisionNode? {
      MenuOfState(cfg, strength, s, d);
    }
  }

  /** Chance accepts only numbers of cards. */
  lemma AcceptedIsCard(cfg: Config, s: State)
    requires s.player == -1
    ensures forall a :: Apply(cfg, s, a).Success? ==> a >= 0
  {
  }

  /** Slot by slot, the children of a node are the nodes of the states its moves lead to. */
  ghost predicate ChildrenFollow(cfg: Config, strength: seq<nat> -> int, s: State, d: nat, node: Node)
    requires GameOk(GameOf(cfg, strength))
  {
    && |node.children| == |node.moves|
    && forall k :: 0 <= k < |node.moves| ==>
                     var next := Apply(cfg, s, node.moves[k].action);
                     next.Success? && NodeFor(cfg, strength, node.children[k], next.value, d + 1)
  }

  lemma MovesFollow(cfg: Config, strength: seq<nat> -> int, j: nat, s: State, d: nat)
    requires ValidConfig(cfg) && cfg.initialHoleCards.Some? && GoodState(cfg, s, d)
    requires GameOk(GameOf(cfg, strength)) && NodeFor(cfg, strength, j, s, d)
    ensures ChildrenFollow(cfg, strength, s, d, TreeOf(GameOf(cfg, strength), TreeKeyOf).nodes[j])
  {
    var game := GameOf(cfg, strength);
    NodesAreFinished(cfg, strength, j);
    NodeChildren(cfg, strength, j);
    hide ValidConfig, GoodState, KindOf, Moves, TreeOf, Apply;
    var node := TreeOf(game, TreeKeyOf).nodes[j];
    assert node.moves == Moves(game, s, d);
    forall k | 0 <= k < |node.moves|
      ensures Apply(cfg, s, node.moves[k].action).Success?
      ensures NodeFor(cfg, strength, node.children[k], Apply(cfg, s, node.moves[k].action).value, d + 1)
    {
      SlotNode(cfg, strength, j, s, d, k);
      ListedIsAccepted(cfg, strength, s, d, k);
    }
  }

  lemma ChildrenDoNotShow(cfg: Config, strength: seq<nat> -> int, s: State, d: nat, node: Node)
    requires cfg.bigBlind > 0
    ensures FaceShows(cfg, s, d, node.(children := [])) ==> FaceShows(cfg, s, d, node)
    ensures ValueShows(cfg, strength, s, node.(children := [])) ==> ValueShows(cfg, strength, s, node)
    ensures MovesShow(cfg, s, node.(children := [])) ==> MovesShow(cfg, s, node)
  {
    hide Apply, Utility, InfosetKeyOf;
    assert ActionsIn(node.(children := [])) == ActionsIn(node);
  }

  /**
   Every node shows the state it was made for: its player, street, board, chips and kind; at the end of a hand
   its value; before it exactly the moves the state accepts, each leading to the node of the state it makes.
   */
  lemma NodesShowStates(cfg: Config, strength: seq<nat> -> int, j: nat)
    requires ValidConfig(cfg) && cfg.initialHoleCards.Some?
    requires GameOk(GameOf(cfg, strength)) && j < |TreeOf(GameOf(cfg, strength), TreeKeyOf).nodes|
    ensures cfg.bigBlind > 0
    ensures var tree := TreeOf(GameOf(cfg, strength), TreeKeyOf);
            && |tree.origins| == |tree.nodes|
            && var node, s, d := tree.nodes[j], tree.origins[j].state, tree.origins[j].depth;
            && GoodState(cfg, s, d) && FaceShows(cfg, s, d, node) && ValueShows(cfg, strength, s, node)
            && MovesShow(cfg, s, node) && ChildrenFollow(cfg, strength, s, d, node)
  {
    NodesAreFinished(cfg, strength, j);
    var tree := TreeOf(GameOf(cfg, strength), TreeKeyOf);
    var s, d := tree.origins[j].state, tree.origins[j].depth;
    hide ValidConfig, GoodState, KindOf, Moves, TreeOf, FaceShows, ValueShows, MovesShow, ChildrenFollow, Full, GameOf;
    FaceOfState(cfg, strength, s, d);
    ValueOfState(cfg, strength, s, d);
    MovesOfState(cfg, strength, s, d);
    ChildrenDoNotShow(cfg, strength, s, d, tree.nodes[j]);
    MovesFollow(cfg, strength, j, s, d);
  }

  // ---------------------------------------------------------------- information sets

  lemma SameSuffix(s: State, t: State)
    requires multiset(s.board) == multiset(t.board) && s.street == t.street && AllValid(s.board) && AllValid(t.board)
    ensures BoardAndStreet(s) == BoardAndStreet(t)
  {
    hide Sorted;
    SortedSameExactly(s.board, t.board);
  }

  /**
   Two decisions lie in one information set exactly when the players to act hold the same cards, the same cards
   lie on the board, and the same actions were taken street by street.
   */
  lemma SetsShareExactly(cfg: Config, s: State, t: State)
    requires ValidConfig(cfg) && Reachable(cfg, s) && Reachable(cfg, t)
    requires 0 <= s.player <= 1 && 0 <= t.player <= 1
    ensures s.hole.Some? && t.hole.Some?
    ensures InfosetKeyOf(s) == InfosetKeyOf(t) <==>
            && OwnCards(s, s.player) == OwnCards(t, t.player) && multiset(s.board) == multiset(t.board)
            && s.street == t.street && Streets(s) == Streets(t)
  {
    KeysSeparateExactly(cfg, s, s.player, t, t.player);
    assert AllValid(s.board) && AllValid(t.board);
    hide ValidConfig, Reachable, Streets, Encode, KeyText, OwnCards, BoardAndStreet;
    EncodedIsValid(s, s.player);
    EncodedIsValid(t, t.player);
    var a, b := Encode(s, s.player).value, Encode(t, t.player).value;
    if InfosetKeyOf(s) == InfosetKeyOf(t) {
      KeyThenInjective(a, b, BoardAndStreet(s), BoardAndStreet(t));
    } else if multiset(s.board) == multiset(t.board) && s.street == t.street {
      SameSuffix(s, t);
    }
  }
}
