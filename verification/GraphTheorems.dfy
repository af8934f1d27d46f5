/**
 What the two builders promise together: one graph from either, and a graph that unfolds to the
 very tree of play it compresses.
 */
module GraphTheorems {
  import opened Wrappers
  import opened GameTree
  import opened GraphEquality
  import opened FlatBuilder

  // ---------------------------------------------------------------- the same graph, exactly when

  /** A chance node with nothing to deal. */
  predicate DealsNothing(node: Node) {
    node.kind.ChanceNode? && node.children == []
  }

  predicate EmptyChance(nodes: seq<Node>) {
    exists j :: 0 <= j < |nodes| && DealsNothing(nodes[j])
  }

  /** Flattening refuses a chance node without children and otherwise lays nodes out like the direct builder. */
  lemma {:induction false} FlattenExactly(nodes: seq<Node>)
    requires SlotsMatch(nodes)
    ensures FlattenAll(nodes) == if EmptyChance(nodes) then None else PlaceAll(nodes)
  {
    hide Place;
    if nodes != [] {
      var front := nodes[..|nodes| - 1];
      FlattenExactly(front);
      assert forall j :: 0 <= j < |front| ==> front[j] == nodes[j];
      if EmptyChance(front) {
        var j :| 0 <= j < |front| && DealsNothing(front[j]);
        assert DealsNothing(nodes[j]);
      }
    }
  }

  /** The tree HUNLTree::build makes. */
  ghost function TreeOf<S(!new), K>(game: Game<S>, key: S -> K): Build<S>
    requires GameOk(game)
  {
    BuildNode(game, key, EmptyBuild(), game.root, 0).0
  }

  /**
   Whatever two memo keys the builders use, as long as both tell the same reachable states apart, the
   recursion and the explicit stack make the same nodes in the same order with the same maxima; and the
   flattened tree is the directly built graph, array for array, if and only if the direct builder refuses
   too or no chance node was built without an outcome.
   */
  lemma BuildersAgree<S(!new), K(!new), L(!new)>(game: Game<S>, treeKey: S -> K, flatKey: S -> L)
    requires GameOk(game) && SameStates(game, treeKey, flatKey)
    ensures var tree, flat := TreeOf(game, treeKey), Target(game, flatKey);
            && tree == flat
            && SlotsMatch(tree.nodes)
            && (FlattenAll(tree.nodes) == PlaceAll(flat.nodes) <==>
                  PlaceAll(flat.nodes).None? || !EmptyChance(flat.nodes))
            && (ChanceHasOutcomes(game) ==> FlattenAll(tree.nodes) == PlaceAll(flat.nodes))
  {
    hide Place;
    var b := EmptyBuild<S>();
    SameBuild(game, treeKey, flatKey, b, game.root, 0);
    SameVisit(game, treeKey, b, b, game.root, 0);
    var tree, flat := TreeOf(game, treeKey), Target(game, flatKey);
    assert tree.nodes == flat.nodes;
    VisitShaped(game, flatKey, b, game.root, 0);
    ShapedMatches(game, flat);
    FlattenExactly(flat.nodes);
    if ChanceHasOutcomes(game) {
      FlattenIsPlacement(game, flat, |flat.nodes|);
      assert flat.nodes[..|flat.nodes|] == flat.nodes;
    }
  }

  /** A root with no move is the whole tree. */
  lemma LoneRoot<S(!new), K(!new)>(game: Game<S>, key: S -> K)
    requires GameOk(game) && Moves(game, game.root, 0) == []
    ensures TreeOf(game, key).nodes == [Full(game, game.root, 0, [])] == Target(game, key).nodes
    ensures SlotsMatch([Full(game, game.root, 0, [])])
  {
    hide Lookup, KindOf, Moves;
    var b := Enter(game, EmptyBuild(), game.root, 0, Bare(game, game.root));
    assert Lookup(key, [], game.root).None?;
    assert BuildChildren(game, key, b, game.root, 0, 0) == (b, []);
    assert b.nodes == [Bare(game, game.root)];
    hide FlattenAll, PlaceAll;
    BuildersAgree(game, key, key);
  }

  /** When the root is a chance node without an outcome the direct builder lays it out and flattening refuses it. */
  lemma FlatteningRefusesEmptyChance<S(!new), K(!new)>(game: Game<S>, key: S -> K)
    requires GameOk(game) && KindOf(game, game.root, 0).ChanceNode? && game.outcomes(game.root) == []
    ensures var nodes := TreeOf(game, key).nodes;
            && |nodes| == 1 && DealsNothing(nodes[0]) && nodes == Target(game, key).nodes && SlotsMatch(nodes)
            && FlattenAll(nodes).None? && PlaceAll(nodes).Some?
  {
    LoneRoot(game, key);
    var nodes := TreeOf(game, key).nodes;
    hide TreeOf, Target, GameOk;
    assert DealsNothing(nodes[0]);
    FlattenExactly(nodes);
    assert nodes[..0] == [];
  }

  // ---------------------------------------------------------------- unfolding

  /** The tree of play: what a node shows, and the trees below it. */
  datatype PlayTree = PlayTree(face: Node, below: seq<PlayTree>)

  ghost function Expand<S(!new)>(game: Game<S>, s: S, d: nat): (t: PlayTree)
    requires GameOk(game) && game.good(s, d)
    ensures t.face == Full(game, s, d, []) && |t.below| == |Moves(game, s, d)|
    decreases game.rank(s)
  {
    PlayTree(Full(game, s, d, []),
             seq(|Moves(game, s, d)|, k requires 0 <= k < |Moves(game, s, d)| =>
               assert MoveOk(game, s, d, k);
               Expand(game, Next(game, s, d, k), d + 1)))
  }

  /** Equal keys mean equal depth, equal nodes and, move for move, equal keys again. */
  ghost predicate KeyDetermines<S(!new), K>(game: Game<S>, key: S -> K) {
    forall s, d: nat, t, e: nat :: game.good(s, d) && game.good(t, e) && key(s) == key(t) ==>
                                     SameFuture(game, key, s, d, t, e)
  }

  ghost predicate SameFuture<S(!new), K>(game: Game<S>, key: S -> K, s: S, d: nat, t: S, e: nat) {
    && d == e && Full(game, s, d, []) == Full(game, t, e, [])
    && forall k :: 0 <= k < |Moves(game, s, d)| ==> key(Next(game, s, d, k)) == key(Next(game, t, e, k))
  }

  lemma {:induction false} EqualKeysExpandAlike<S(!new), K>(game: Game<S>, key: S -> K, s: S, d: nat, t: S, e: nat)
    requires GameOk(game) && KeyDetermines(game, key)
    requires game.good(s, d) && game.good(t, e) && key(s) == key(t)
    ensures d == e && Expand(game, s, d) == Expand(game, t, e)
    decreases game.rank(s)
  {
    hide KindOf;
    assert SameFuture(game, key, s, d, t, e);
    forall k | 0 <= k < |Moves(game, s, d)|
      ensures Expand(game, s, d).below[k] == Expand(game, t, e).below[k]
    {
      assert MoveOk(game, s, d, k) && MoveOk(game, t, e, k);
      EqualKeysExpandAlike(game, key, Next(game, s, d, k), d + 1, Next(game, t, e, k), e + 1);
    }
    assert Expand(game, s, d).below == Expand(game, t, e).below;
  }

  /** Following child indices from node `i`, and never through a pending node, shows exactly `t`. */
  ghost predicate Unfolds(nodes: seq<Node>, pending: set<nat>, i: nat, t: PlayTree)
    decreases t
  {
    && i < |nodes| && i !in pending
    && nodes[i].(children := []) == t.face && |nodes[i].children| == |t.below|
    && forall k :: 0 <= k < |t.below| ==> Unfolds(nodes, pending, nodes[i].children[k], t.below[k])
  }

  lemma {:induction false} UnfoldsStays(nodes: seq<Node>, after: seq<Node>, pending: set<nat>, still: set<nat>,
                                        i: nat, t: PlayTree)
    requires Unfolds(nodes, pending, i, t) && |after| >= |nodes|
    requires forall j: nat :: j < |nodes| && j !in pending ==> after[j] == nodes[j] && j !in still
    ensures Unfolds(after, still, i, t)
    decreases t
  {
    forall k | 0 <= k < |t.below|
      ensures Unfolds(after, still, after[i].children[k], t.below[k])
    {
      UnfoldsStays(nodes, after, pending, still, nodes[i].children[k], t.below[k]);
    }
  }

  /** Nodes being built lie above depth `d`; every other node unfolds to its state's tree of play. */
  ghost predicate Done<S(!new)>(game: Game<S>, b: Build<S>, pending: set<nat>, d: nat) {
    && GameOk(game) && |b.nodes| == |b.origins| && GoodOrigins(game, b.origins)
    && forall j: nat :: j < |b.nodes| ==> NodeDone(game, b, pending, d, j)
  }

  ghost predicate NodeDone<S(!new)>(game: Game<S>, b: Build<S>, pending: set<nat>, d: nat, j: nat)
    requires GameOk(game) && |b.nodes| == |b.origins| && GoodOrigins(game, b.origins) && j < |b.nodes|
  {
    if j in pending then b.origins[j].depth < d
    else Unfolds(b.nodes, pending, j, Expand(game, b.origins[j].state, b.origins[j].depth))
  }

  ghost predicate KeepsOld<S(!new)>(b: Build<S>, r: Build<S>) {
    && |r.nodes| >= |b.nodes| && b.origins <= r.origins
    && forall j: nat :: j < |b.nodes| ==> r.nodes[j] == b.nodes[j]
  }

  lemma {:induction false} BuildUnfolds<S(!new), K>(game: Game<S>, key: S -> K, b: Build<S>, s: S, d: nat,
                                                    pending: set<nat>)
    requires KeyDetermines(game, key) && Done(game, b, pending, d) && game.good(s, d)
    requires forall j :: j in pending ==> j < |b.nodes|
    ensures var r := BuildNode(game, key, b, s, d);
            && Done(game, r.0, pending, d) && KeepsOld(b, r.0)
            && Unfolds(r.0.nodes, pending, r.1, Expand(game, s, d))
    decreases game.rank(s), 1, 0
  {
    hide Unfolds, KindOf;
    match Lookup(key, b.origins, s)
    case Some(i) =>
      assert game.good(b.origins[i].state, b.origins[i].depth);
      EqualKeysExpandAlike(game, key, b.origins[i].state, b.origins[i].depth, s, d);
      assert NodeDone(game, b, pending, d, i);
    case None =>
      var i := |b.nodes|;
      var entered := Enter(game, b, s, d, Bare(game, s));
      EnterPending(game, b, s, d, Bare(game, s), pending);
      ChildrenUnfold(game, key, entered, s, d, 0, pending + {i});
      var built := BuildChildren(game, key, entered, s, d, 0);
      forall j | j in pending ensures j < |built.0.nodes| && built.0.origins[j].depth < d {
        assert NodeDone(game, b, pending, d, j);
        assert built.0.origins[j] == b.origins[j];
      }
      WriteBack(game, built.0, s, d, i, built.1, pending);
  }

  lemma EnterPending<S(!new)>(game: Game<S>, b: Build<S>, s: S, d: nat, node: Node, pending: set<nat>)
    requires Done(game, b, pending, d) && game.good(s, d)
    ensures Done(game, Enter(game, b, s, d, node), pending + {|b.nodes|}, d + 1)
  {
    hide Unfolds;
    var r := Enter(game, b, s, d, node);
    var more, deeper := pending + {|b.nodes|}, d + 1;
    forall j: nat | j < |r.nodes| ensures NodeDone(game, r, more, deeper, j) {
      if j < |b.nodes| {
        assert NodeDone(game, b, pending, d, j);
        if j !in pending {
          UnfoldsStays(b.nodes, r.nodes, pending, more, j, Expand(game, b.origins[j].state, b.origins[j].depth));
        }
      }
    }
  }

  lemma WriteBack<S(!new)>(game: Game<S>, b: Build<S>, s: S, d: nat, i: nat, children: seq<nat>, pending: set<nat>)
    requires Done(game, b, pending + {i}, d + 1) && i < |b.nodes| && i !in pending
    requires game.good(s, d) && b.origins[i] == Origin(s, d)
    requires forall j :: j in pending ==> j < |b.nodes| && b.origins[j].depth < d
    requires |children| == |Moves(game, s, d)|
    requires forall k :: 0 <= k < |children| ==>
                           Unfolds(b.nodes, pending + {i}, children[k], Expand(game, s, d).below[k])
    ensures var r := b.(nodes := b.nodes[i := Full(game, s, d, children)]);
            Done(game, r, pending, d) && Unfolds(r.nodes, pending, i, Expand(game, s, d))
  {
    hide Unfolds, KindOf, Moves, Expand, Full, GameOk, NodeDone;
    WrittenNodeUnfolds(game, b, s, d, i, children, pending);
    var r := b.(nodes := b.nodes[i := Full(game, s, d, children)]);
    WrittenNodeDone(game, r, pending, d, i);
    forall j: nat | j < |r.nodes| ensures NodeDone(game, r, pending, d, j) {
      if j != i {
        OtherNodeDone(game, b, Full(game, s, d, children), pending, d, i, j);
      }
    }
  }

  lemma WrittenNodeDone<S(!new)>(game: Game<S>, r: Build<S>, pending: set<nat>, d: nat, i: nat)
    requires GameOk(game) && |r.nodes| == |r.origins| && GoodOrigins(game, r.origins) && i < |r.nodes| && i !in pending
    requires game.good(r.origins[i].state, r.origins[i].depth)
    requires Unfolds(r.nodes, pending, i, Expand(game, r.origins[i].state, r.origins[i].depth))
    ensures NodeDone(game, r, pending, d, i)
  {
  }

  lemma OtherNodeDone<S(!new)>(game: Game<S>, b: Build<S>, node: Node, pending: set<nat>, d: nat, i: nat, j: nat)
    requires Done(game, b, pending + {i}, d + 1) && i < |b.nodes| && j < |b.nodes| && j != i
    requires j in pending ==> b.origins[j].depth < d
    ensures GoodOrigins(game, b.origins) && NodeDone(game, b.(nodes := b.nodes[i := node]), pending, d, j)
  {
    hide Unfolds, Expand;
    assert NodeDone(game, b, pending + {i}, d + 1, j);
    assert game.good(b.origins[j].state, b.origins[j].depth);
    if j !in pending {
      UnfoldsStays(b.nodes, b.nodes[i := node], pending + {i}, pending, j,
                   Expand(game, b.origins[j].state, b.origins[j].depth));
    }
  }

  lemma WrittenNodeUnfolds<S(!new)>(game: Game<S>, b: Build<S>, s: S, d: nat, i: nat, children: seq<nat>,
                                    pending: set<nat>)
    requires GameOk(game) && game.good(s, d) && i < |b.nodes| && i !in pending
    requires |children| == |Moves(game, s, d)|
    requires forall k :: 0 <= k < |children| ==>
                           Unfolds(b.nodes, pending + {i}, children[k], Expand(game, s, d).below[k])
    ensures Unfolds(b.nodes[i := Full(game, s, d, children)], pending, i, Expand(game, s, d))
  {
    var nodes := b.nodes[i := Full(game, s, d, children)];
    var t := Expand(game, s, d);
    forall k | 0 <= k < |children| ensures Unfolds(nodes, pending, children[k], t.below[k]) {
      UnfoldsStays(b.nodes, nodes, pending + {i}, pending, children[k], t.below[k]);
    }
    hide KindOf, Moves, Expand;
    assert nodes[i].(children := []) == t.face;
  }

  lemma {:induction false} ChildrenUnfold<S(!new), K>(game: Game<S>, key: S -> K, b: Build<S>, s: S, d: nat, k: nat,
                                                      pending: set<nat>)
    requires KeyDetermines(game, key) && Done(game, b, pending, d + 1) && game.good(s, d)
    requires k <= |Moves(game, s, d)| && forall j :: j in pending ==> j < |b.nodes|
    ensures var r := BuildChildren(game, key, b, s, d, k);
            && Done(game, r.0, pending, d + 1) && KeepsOld(b, r.0)
            && forall m :: 0 <= m < |r.1| ==>
                             Unfolds(r.0.nodes, pending, r.1[m], Expand(game, s, d).below[k + m])
    decreases game.rank(s), 0, |Moves(game, s, d)| - k
  {
    hide Unfolds, KindOf, Full;
    if k < |Moves(game, s, d)| {
      assert MoveOk(game, s, d, k);
      var next := Next(game, s, d, k);
      BuildUnfolds(game, key, b, next, d + 1, pending);
      var first := BuildNode(game, key, b, next, d + 1);
      ChildrenUnfold(game, key, first.0, s, d, k + 1, pending);
      var rest := BuildChildren(game, key, first.0, s, d, k + 1);
      UnfoldsStays(first.0.nodes, rest.0.nodes, pending, pending, first.1, Expand(game, next, d + 1));
      var below := Expand(game, s, d).below;
      assert below[k] == Expand(game, next, d + 1);
      assert BuildChildren(game, key, b, s, d, k) == (rest.0, [first.1] + rest.1);
      hide Expand, BuildChildren, BuildNode, Done, KeyDetermines, Moves;
      UnfoldsTogether(rest.0.nodes, pending, first.1, rest.1, below, k);
    }
  }

  lemma UnfoldsTogether(nodes: seq<Node>, pending: set<nat>, first: nat, rest: seq<nat>, below: seq<PlayTree>, k: nat)
    requires k + 1 + |rest| == |below| && Unfolds(nodes, pending, first, below[k])
    requires forall m :: 0 <= m < |rest| ==> Unfolds(nodes, pending, rest[m], below[k + 1 + m])
    ensures var all := [first] + rest; forall m :: 0 <= m < |all| ==> Unfolds(nodes, pending, all[m], below[k + m])
  {
    hide Unfolds;
    var all := [first] + rest;
    forall m | 0 <= m < |all| ensures Unfolds(nodes, pending, all[m], below[k + m]) {
      if m > 0 {
        var j := m - 1;
        assert all[m] == rest[j] && Unfolds(nodes, pending, rest[j], below[k + 1 + j]);
      }
    }
  }

  /**
   If equal memo keys mean equal futures, sharing is invisible: from any node of the finished graph,
   following children shows exactly the tree of play of the state the node was made for.
   */
  lemma GraphUnfoldsToPlay<S(!new), K>(game: Game<S>, key: S -> K, j: nat)
    requires GameOk(game) && KeyDetermines(game, key)
    requires j < |TreeOf(game, key).nodes|
    ensures var tree := TreeOf(game, key);
            && |tree.origins| == |tree.nodes| && game.good(tree.origins[j].state, tree.origins[j].depth)
            && Unfolds(tree.nodes, {}, j, Expand(game, tree.origins[j].state, tree.origins[j].depth))
            && tree.origins[0] == Origin(game.root, 0)
  {
    hide Unfolds, KindOf;
    var b := EmptyBuild<S>();
    BuildUnfolds(game, key, b, game.root, 0, {});
    var tree := TreeOf(game, key);
    assert NodeDone(game, tree, {}, 0, j);
    assert game.good(tree.origins[j].state, tree.origins[j].depth);
    FirstIsRoot(game, key);
  }

  lemma FirstIsRoot<S(!new), K>(game: Game<S>, key: S -> K)
    requires GameOk(game)
    ensures |TreeOf(game, key).origins| > 0 && TreeOf(game, key).origins[0] == Origin(game.root, 0)
  {
    var b := EmptyBuild<S>();
    SameVisit(game, key, b, b, game.root, 0);
    var entered := Enter(game, b, game.root, 0, Blank(game, game.root, 0));
    EnteredShape(game, b, game.root, 0);
    FillShaped(game, key, entered, game.root, 0, 0, 0);
  }
}
