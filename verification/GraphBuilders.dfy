/**
 The builders as the source runs them: the memoised recursion that writes nodes back, the pass
 that flattens its tree, and the explicit-stack builder that fills the flat arrays directly.
 */
module GraphBuilders {
  import opened Arithmetic
  import opened Wrappers
  import opened GameTree
  import opened GraphEquality

  // ---------------------------------------------------------------- the memo table

  /** The table maps each node's memo key to that node. */
  ghost predicate MemoIs<S(!new), K>(key: S -> K, origins: seq<Origin<S>>, memo: map<K, nat>) {
    && (forall i :: 0 <= i < |origins| ==> key(origins[i].state) in memo && memo[key(origins[i].state)] == i)
    && forall k :: k in memo ==> memo[k] < |origins| && key(origins[memo[k]].state) == k
  }

  lemma MemoLookup<S(!new), K>(key: S -> K, origins: seq<Origin<S>>, memo: map<K, nat>, s: S)
    requires MemoIs(key, origins, memo)
    ensures Lookup(key, origins, s) == if key(s) in memo then Some(memo[key(s)]) else None
  {
    match Lookup(key, origins, s)
    case Some(i) => assert key(origins[i].state) == key(s);
    case None =>
  }

  lemma MemoGrows<S(!new), K>(key: S -> K, origins: seq<Origin<S>>, memo: map<K, nat>, origin: Origin<S>)
    requires MemoIs(key, origins, memo) && key(origin.state) !in memo
    ensures MemoIs(key, origins + [origin], memo[key(origin.state) := |origins|])
  {
  }

  // ---------------------------------------------------------------- the recursive tree

  class TreeBuilder<S(!new), K(==, !new)> {
    var nodes: seq<Node>
    var memo: map<K, nat>
    ghost var origins: seq<Origin<S>>
    var maxDepth: nat
    var maxActions: nat

    constructor ()
      ensures Value() == Build([], [], 0, 0) && memo == map[]
    {
      nodes, memo, origins, maxDepth, maxActions := [], map[], [], 0, 0;
    }

    ghost function Value(): Build<S>
      reads this
    {
      Build(nodes, origins, maxDepth, maxActions)
    }

    ghost predicate Consistent(key: S -> K)
      reads this
    {
      |nodes| == |origins| && MemoIs(key, origins, memo)
    }

    /** Pushes the bare node of a new state and records it in the memo. */
    method Push(game: Game<S>, key: S -> K, s: S, d: nat) returns (index: nat)
      requires Consistent(key) && key(s) !in memo
      modifies this
      ensures Consistent(key) && index == old(|nodes|)
      ensures Value() == Enter(game, old(Value()), s, d, Bare(game, s))
    {
      MemoGrows(key, origins, memo, Origin(s, d));
      index := |nodes|;
      nodes := nodes + [Node(game.view(s), BARE_KIND, 0.0, [], [])];
      memo := memo[key(s) := index];
      origins := origins + [Origin(s, d)];
      maxDepth := Max(maxDepth, d);
      if KindOf(game, s, d).DecisionNode? {
        maxActions := Max(maxActions, |Moves(game, s, d)|);
      }
    }

    /** Builds the children of a state one after the other. */
    method BuildAll(game: Game<S>, key: S -> K, s: S, d: nat) returns (children: seq<nat>)
      requires GameOk(game) && game.good(s, d) && Consistent(key)
      modifies this
      ensures Consistent(key)
      ensures (Value(), children) == BuildChildren(game, key, old(Value()), s, d, 0)
      decreases game.rank(s), 0
    {
      hide MemoIs, Moves, GameTree.BuildNode;
      ghost var entered := Value();
      var moves := Moves(game, s, d);
      children := [];
      assert [] + BuildChildren(game, key, entered, s, d, 0).1 == BuildChildren(game, key, entered, s, d, 0).1;
      for k := 0 to |moves|
        invariant Consistent(key) && |children| == k
        invariant BuildChildren(game, key, entered, s, d, 0)
               == (BuildChildren(game, key, Value(), s, d, k).0,
                   children + BuildChildren(game, key, Value(), s, d, k).1)
      {
        assert MoveOk(game, s, d, k);
        ghost var here, done := Value(), children;
        var child := BuildNode(game, key, game.apply(s, moves[k].action), d + 1);
        children := children + [child];
        ghost var rest := BuildChildren(game, key, Value(), s, d, k + 1).1;
        assert BuildChildren(game, key, here, s, d, k).1 == [child] + rest;
        assert done + ([child] + rest) == children + rest;
      }
      assert children + [] == children;
    }

    /** build_node: one node per memo key, children built first and the node written back last. */
    method BuildNode(game: Game<S>, key: S -> K, s: S, d: nat) returns (index: nat)
      requires GameOk(game) && game.good(s, d) && Consistent(key)
      modifies this
      ensures Consistent(key)
      ensures (Value(), index) == GameTree.BuildNode(game, key, old(Value()), s, d)
      decreases game.rank(s), 1
    {
      hide MemoIs, BuildChildren, Moves;
      MemoLookup(key, origins, memo, s);
      if key(s) in memo {
        return memo[key(s)];
      }
      index := Push(game, key, s, d);
      var children := BuildAll(game, key, s, d);
      nodes := nodes[index := Node(NodeView(game, s), KindOf(game, s, d), NodeValue(game, s),
                                   Moves(game, s, d), children)];
    }
  }

  // ---------------------------------------------------------------- flattening a tree

  /** The loop that copies a chance node's children and outcomes. */
  method AppendChance(f: FlatGraph, node: Node) returns (r: FlatGraph)
    requires |node.moves| == |node.children|
    ensures r == f.(children := f.children + node.children, chance := f.chance + Entries(node))
  {
    r := f;
    for k := 0 to |node.children|
      invariant r == f.(children := f.children + node.children[..k], chance := f.chance + Entries(node)[..k])
    {
      assert node.children[..k + 1] == node.children[..k] + [node.children[k]];
      assert Entries(node)[..k + 1] == Entries(node)[..k] + [Entries(node)[k]];
      r := r.(children := r.children + [node.children[k]],
              chance := r.chance + [ChanceEntry(node.moves[k].action, node.moves[k].probability, node.children[k], 1)]);
    }
    assert node.children[..|node.children|] == node.children;
    assert Entries(node)[..|node.children|] == Entries(node);
  }

  method AppendDecision(f: FlatGraph, node: Node) returns (r: FlatGraph)
    requires |node.moves| == |node.children|
    ensures r == f.(children := f.children + node.children, actions := f.actions + ActionsOf(node))
  {
    r := f;
    for k := 0 to |node.children|
      invariant r == f.(children := f.children + node.children[..k], actions := f.actions + ActionsOf(node)[..k])
    {
      assert node.children[..k + 1] == node.children[..k] + [node.children[k]];
      assert ActionsOf(node)[..k + 1] == ActionsOf(node)[..k] + [ActionsOf(node)[k]];
      r := r.(children := r.children + [node.children[k]], actions := r.actions + [node.moves[k].action]);
    }
    assert node.children[..|node.children|] == node.children;
    assert ActionsOf(node)[..|node.children|] == ActionsOf(node);
  }

  /** One step of the flattening loop: classify, check, append. */
  method FlattenNode(f: FlatGraph, node: Node) returns (r: Option<FlatGraph>)
    requires |node.moves| == |node.children| && IdsInRange(f)
    ensures r == Flatten1(f, node)
  {
    var index := |f.meta|;
    match node.kind {
      case BadLeaf =>
        return None;
      case FoldLeaf =>
        return Some(f.(meta := f.meta + [LeafMeta(node, TerminalFold)],
                       terminals := f.terminals + [index], terminalValues := f.terminalValues + [node.value],
                       folds := f.folds + [index], foldValues := f.foldValues + [node.value]));
      case ShowdownLeaf =>
        return Some(f.(meta := f.meta + [LeafMeta(node, TerminalShowdown)],
                       terminals := f.terminals + [index], terminalValues := f.terminalValues + [node.value],
                       showdowns := f.showdowns + [index], showdownValues := f.showdownValues + [node.value]));
      case LimitLeaf =>
        return Some(f.(meta := f.meta + [LeafMeta(node, DepthLimited)],
                       terminals := f.terminals + [index], terminalValues := f.terminalValues + [node.value]));
      case ChanceNode =>
        if |node.children| == 0 {
          return None;
        }
        var g := AppendChance(f, node);
        var n := |node.children|;
        return Some(g.(meta := f.meta + [Meta(node.view, Chance, node.value, |f.children|, n, 0, 0, |f.chance|, n,
                                              None)]));
      case DecisionNode(key) =>
        var n := |node.children|;
        if n == 0 {
          return None;
        }
        var joined := JoinInfoset(f, key, SignatureOf(node));
        if joined.None? {
          return None;
        }
        var g := AppendDecision(joined.value.0, node);
        return Some(g.(meta := f.meta +
          [Meta(node.view, Decision, node.value, |f.children|, n, |f.actions|, n, 0, 0, Some(joined.value.1))]));
    }
  }

  /** HUNLFlatSolveGraph::build(tree) up to the topological sort. */
  method FlattenTree(nodes: seq<Node>) returns (r: Option<FlatGraph>)
    requires SlotsMatch(nodes)
    ensures r == FlattenAll(nodes)
  {
    var f := EMPTY_GRAPH;
    for index := 0 to |nodes|
      invariant SlotsMatch(nodes[..index]) && FlattenAll(nodes[..index]) == Some(f)
    {
      assert nodes[..index + 1][..index] == nodes[..index];
      r := FlattenNode(f, nodes[index]);
      if r.None? {
        FlattenRefusalStays(nodes, index + 1);
        return;
      }
      f := r.value;
    }
    assert nodes[..|nodes|] == nodes;
    return Some(f);
  }

  lemma {:induction false} FlattenRefusalStays(nodes: seq<Node>, k: nat)
    requires SlotsMatch(nodes) && k <= |nodes| && FlattenAll(nodes[..k]).None?
    ensures FlattenAll(nodes).None?
  {
    if k == |nodes| {
      assert nodes[..k] == nodes;
    } else {
      assert nodes[..|nodes| - 1][..k] == nodes[..k];
      FlattenRefusalStays(nodes[..|nodes| - 1], k);
    }
  }
}
