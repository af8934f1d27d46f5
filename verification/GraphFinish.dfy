/**
 The end of both builds: information sets laid end to end, then the sort and the slices.  A graph laid
 out from built nodes is never refused there, and its depth slices are the plies of the game.
 */
module GraphFinish {
  import opened Arithmetic
  import opened Wrappers
  import opened SeqFolds
  import opened GameTree
  import opened GraphPaths
  import opened TopologicalSort
  import opened FlatSlices
  import opened GraphEquality
  import opened GraphBuilders
  import opened FlatBuilder
  import opened GraphTheorems
  import opened GraphRecords

  // ---------------------------------------------------------------- the laid-out graph as a graph

  /** What the sort reads of each node record. */
  function SlotsOf(f: FlatGraph): (slots: seq<NodeSlots>)
    ensures |slots| == |f.meta|
  {
    seq(|f.meta|, u requires 0 <= u < |f.meta| =>
      NodeSlots(f.meta[u].childBegin, f.meta[u].childCount, f.meta[u].view.street))
  }

  function ChildrenOf(node: Node): seq<nat> {
    if Inner(node.kind) then node.children else []
  }

  /** The graph of the inner nodes' children. */
  function GraphOf(nodes: seq<Node>): (g: Graph)
    ensures |g| == |nodes|
  {
    seq(|nodes|, u requires 0 <= u < |nodes| => ChildrenOf(nodes[u]))
  }

  /** The slots of a laid-out graph are in range and hold exactly the children of its nodes. */
  lemma OutgoingIsChildren(nodes: seq<Node>)
    requires SlotsMatch(nodes) && PlaceAll(nodes).Some?
    ensures var f := PlaceAll(nodes).value;
            && SlotsInRange(SlotsOf(f), f.children)
            && Outgoing(SlotsOf(f), f.children) == GraphOf(nodes)
  {
    hide Place, PlaceAll;
    var f := PlaceAll(nodes).value;
    var slots := SlotsOf(f);
    forall u | 0 <= u < |nodes|
      ensures slots[u].childBegin + slots[u].childCount <= |f.children|
      ensures f.children[slots[u].childBegin..slots[u].childBegin + slots[u].childCount] == ChildrenOf(nodes[u])
    {
      PlacedSlots(nodes, u);
    }
  }

  // ---------------------------------------------------------------- children are the successors

  /** Each child of the node was made for a state with the memo key of the successor. */
  ghost predicate NodeLinked<S(!new), K>(game: Game<S>, key: S -> K, origins: seq<Origin<S>>, children: seq<nat>,
                                         s: S, d: nat, k: nat)
    requires k <= |Moves(game, s, d)|
  {
    && |children| == |Moves(game, s, d)| - k
    && forall m :: 0 <= m < |children| ==>
                     children[m] < |origins| && key(origins[children[m]].state) == key(Next(game, s, d, k + m))
  }

  ghost predicate Linked<S(!new), K>(game: Game<S>, key: S -> K, b: Build<S>, pending: set<nat>) {
    && |b.nodes| == |b.origins|
    && forall j: nat :: j < |b.nodes| && j !in pending ==>
                          NodeLinked(game, key, b.origins, b.nodes[j].children, b.origins[j].state,
                                     b.origins[j].depth, 0)
  }

  lemma LinkedLonger<S(!new), K>(game: Game<S>, key: S -> K, origins: seq<Origin<S>>, more: seq<Origin<S>>,
                                 children: seq<nat>, s: S, d: nat, k: nat)
    requires k <= |Moves(game, s, d)| && NodeLinked(game, key, origins, children, s, d, k) && origins <= more
    ensures NodeLinked(game, key, more, children, s, d, k)
  {
  }

  ghost predicate HasParent(nodes: seq<Node>, from: nat, j: nat) {
    exists i :: from <= i < |nodes| && j in nodes[i].children
  }

  /** Every node from `from` on is one of `tops` or a child of another such node. */
  ghost predicate Parented(nodes: seq<Node>, from: nat, tops: seq<nat>) {
    forall j: nat :: from <= j < |nodes| ==> j in tops || HasParent(nodes, from, j)
  }

  lemma ParentedJoin(nodes: seq<Node>, more: seq<Node>, from: nat, top: nat, rest: seq<nat>)
    requires from <= |nodes| <= |more| && forall j :: 0 <= j < |nodes| ==> more[j] == nodes[j]
    requires Parented(nodes, from, [top]) && Parented(more, |nodes|, rest)
    ensures Parented(more, from, [top] + rest)
  {
    forall j: nat | from <= j < |more| && j !in [top] + rest ensures HasParent(more, from, j) {
      if j < |nodes| {
        var i :| from <= i < |nodes| && j in nodes[i].children;
        assert j in more[i].children;
      } else {
        var i :| |nodes| <= i < |more| && j in more[i].children;
      }
    }
  }

  lemma ParentedClose(nodes: seq<Node>, i: nat, node: Node)
    requires i < |nodes| && Parented(nodes, i + 1, node.children)
    ensures Parented(nodes[i := node], i, [i])
  {
    var after := nodes[i := node];
    forall j: nat | i < j < |after| ensures HasParent(after, i, j) {
      if j in node.children {
        assert j in after[i].children;
      } else {
        var p :| i + 1 <= p < |nodes| && j in nodes[p].children;
        assert j in after[p].children;
      }
    }
  }

  lemma NothingNew(nodes: seq<Node>, top: nat)
    ensures Parented(nodes, |nodes|, [top]) && Parented(nodes, |nodes|, [])
  {
  }

  /** Building links every node to its successors' nodes and hangs every new node below the one asked for. */
  lemma {:induction false} BuildLinks<S(!new), K>(game: Game<S>, key: S -> K, b: Build<S>, s: S, d: nat,
                                                  pending: set<nat>)
    requires GameOk(game) && game.good(s, d) && Linked(game, key, b, pending)
    requires forall j :: j in pending ==> j < |b.nodes|
    ensures var r := BuildNode(game, key, b, s, d);
            && Linked(game, key, r.0, pending) && KeepsOld(b, r.0)
            && key(r.0.origins[r.1].state) == key(s) && Parented(r.0.nodes, |b.nodes|, [r.1])
    decreases game.rank(s), 1, 0
  {
    hide KindOf, Moves, NodeLinked, Parented;
    if Lookup(key, b.origins, s).None? {
      var i := |b.nodes|;
      var entered := Enter(game, b, s, d, Bare(game, s));
      forall j: nat | j < |entered.nodes| && j !in pending + {i}
        ensures NodeLinked(game, key, entered.origins, entered.nodes[j].children,
                           entered.origins[j].state, entered.origins[j].depth, 0)
      {
        LinkedLonger(game, key, b.origins, entered.origins, b.nodes[j].children, b.origins[j].state,
                     b.origins[j].depth, 0);
      }
      ChildrenLink(game, key, entered, s, d, 0, pending + {i});
      var built := BuildChildren(game, key, entered, s, d, 0);
      ParentedClose(built.0.nodes, i, Full(game, s, d, built.1));
    } else {
      NothingNew(b.nodes, BuildNode(game, key, b, s, d).1);
    }
  }

  lemma {:induction false} ChildrenLink<S(!new), K>(game: Game<S>, key: S -> K, b: Build<S>, s: S, d: nat, k: nat,
                                                    pending: set<nat>)
    requires GameOk(game) && game.good(s, d) && k <= |Moves(game, s, d)| && Linked(game, key, b, pending)
    requires forall j :: j in pending ==> j < |b.nodes|
    ensures var r := BuildChildren(game, key, b, s, d, k);
            && Linked(game, key, r.0, pending) && KeepsOld(b, r.0)
            && NodeLinked(game, key, r.0.origins, r.1, s, d, k) && Parented(r.0.nodes, |b.nodes|, r.1)
    decreases game.rank(s), 0, |Moves(game, s, d)| - k
  {
    assert |b.nodes| == |b.origins|;
    hide KindOf, Linked, Parented;
    if k < |Moves(game, s, d)| {
      assert MoveOk(game, s, d, k);
      var next := Next(game, s, d, k);
      BuildLinks(game, key, b, next, d + 1, pending);
      var first := BuildNode(game, key, b, next, d + 1);
      ChildrenLink(game, key, first.0, s, d, k + 1, pending);
      var rest := BuildChildren(game, key, first.0, s, d, k + 1);
      assert rest.0.origins[first.1] == first.0.origins[first.1];
      var all := [first.1] + rest.1;
      forall m | 0 <= m < |all|
        ensures all[m] < |rest.0.origins| && key(rest.0.origins[all[m]].state) == key(Next(game, s, d, k + m))
      {
        if m > 0 {
          assert all[m] == rest.1[m - 1];
        }
      }
      ParentedJoin(first.0.nodes, rest.0.nodes, |b.nodes|, first.1, rest.1);
    } else {
      NothingNew(b.nodes, 0);
    }
  }

  // ---------------------------------------------------------------- plies rank the graph

  ghost function PliesOf<S>(b: Build<S>): (plies: seq<nat>)
    ensures |plies| == |b.origins| && forall j :: 0 <= j < |plies| ==> plies[j] == b.origins[j].depth
  {
    seq(|b.origins|, j requires 0 <= j < |b.origins| => b.origins[j].depth)
  }

  /** A child's node was made one ply below its parent's. */
  lemma ChildIsOnePlyDeeper<S(!new), K>(game: Game<S>, key: S -> K, u: nat, m: nat)
    requires GameOk(game) && KeyDetermines(game, key)
    requires var nodes := TreeOf(game, key).nodes; u < |nodes| && m < |nodes[u].children|
    ensures var tree := TreeOf(game, key);
            var c := tree.nodes[u].children[m];
            && |tree.origins| == |tree.nodes| && c < |tree.nodes|
            && tree.origins[c].depth == tree.origins[u].depth + 1
  {
    hide KindOf, Moves;
    var tree := TreeOf(game, key);
    BuildLinks(game, key, EmptyBuild<S>(), game.root, 0, {});
    var parent, c := tree.origins[u], tree.nodes[u].children[m];
    assert NodeLinked(game, key, tree.origins, tree.nodes[u].children, parent.state, parent.depth, 0);
    hide Unfolds, Expand, TreeOf;
    GraphUnfoldsToPlay(game, key, u);
    GraphUnfoldsToPlay(game, key, c);
    assert MoveOk(game, parent.state, parent.depth, m);
    assert SameFuture(game, key, tree.origins[c].state, tree.origins[c].depth,
                      Next(game, parent.state, parent.depth, m), parent.depth + 1);
  }

  lemma TreeHasRoot<S(!new), K>(game: Game<S>, key: S -> K)
    requires GameOk(game)
    ensures var tree := TreeOf(game, key); |tree.nodes| > 0 && Parented(tree.nodes, 0, [0])
  {
    BuildLinks(game, key, EmptyBuild<S>(), game.root, 0, {});
  }

  /** Every edge of the graph leads to a node, one ply down. */
  lemma EdgesAreMoves<S(!new), K>(game: Game<S>, key: S -> K)
    requires GameOk(game) && KeyDetermines(game, key)
    ensures var tree := TreeOf(game, key);
            && |tree.origins| == |tree.nodes| && InBounds(GraphOf(tree.nodes))
            && forall u, v :: Edge(GraphOf(tree.nodes), u, v) ==> tree.origins[v].depth == tree.origins[u].depth + 1
  {
    TreeHasRoot(game, key);
    hide TreeOf, KeyDetermines, Parented;
    var tree := TreeOf(game, key);
    var g := GraphOf(tree.nodes);
    forall u, m | 0 <= u < |g| && 0 <= m < |g[u]|
      ensures g[u][m] < |g| && |tree.origins| == |tree.nodes|
              && tree.origins[g[u][m]].depth == tree.origins[u].depth + 1
    {
      ChildIsOnePlyDeeper(game, key, u, m);
    }
    GraphUnfoldsToPlay(game, key, 0);
  }

  /** Every node but the root has an edge into it. */
  lemma ParentEdge<S(!new), K>(game: Game<S>, key: S -> K, v: nat)
    requires GameOk(game) && KeyDetermines(game, key) && 0 < v < |TreeOf(game, key).nodes|
    ensures exists u :: Edge(GraphOf(TreeOf(game, key).nodes), u, v)
  {
    TreeHasRoot(game, key);
    hide TreeOf, KeyDetermines, KindOf, Unfolds;
    var tree := TreeOf(game, key);
    assert HasParent(tree.nodes, 0, v);
    var u :| 0 <= u < |tree.nodes| && v in tree.nodes[u].children;
    GraphUnfoldsToPlay(game, key, u);
    OnlyInnerNodesHaveChildren(game, tree.nodes, u, tree.origins[u].state, tree.origins[u].depth);
    assert Edge(GraphOf(tree.nodes), u, v);
  }

  lemma OnlyInnerNodesHaveChildren<S(!new)>(game: Game<S>, nodes: seq<Node>, u: nat, s: S, d: nat)
    requires GameOk(game) && game.good(s, d) && Unfolds(nodes, {}, u, Expand(game, s, d))
    ensures ChildrenOf(nodes[u]) == nodes[u].children
  {
    var t := Expand(game, s, d);
    assert nodes[u].kind == t.face.kind;
  }

  /** The longest path into a node is as long as its state is deep. */
  lemma DepthsArePlies<S(!new), K>(game: Game<S>, key: S -> K, depths: seq<nat>, v: nat)
    requires GameOk(game) && KeyDetermines(game, key)
    requires LongestPathDepths(GraphOf(TreeOf(game, key).nodes), depths) && v < |TreeOf(game, key).nodes|
    ensures |TreeOf(game, key).origins| == |TreeOf(game, key).nodes|
    ensures depths[v] == TreeOf(game, key).origins[v].depth
    decreases TreeOf(game, key).origins[v].depth
  {
    EdgesAreMoves(game, key);
    var tree := TreeOf(game, key);
    var g := GraphOf(tree.nodes);
    hide TreeOf, KeyDetermines, GraphOf;
    assert Reached(g, v, depths[v]);
    var p :| EndsAt(g, p, v) && |p| - 1 == depths[v];
    PathWithinDepth(g, PliesOf(tree), p);
    if v == 0 {
      GraphUnfoldsToPlay(game, key, 0);
    } else {
      ParentEdge(game, key, v);
      var u :| Edge(g, u, v);
      DepthsArePlies(game, key, depths, u);
      ReachedChild(g, u, v, depths[u]);
    }
  }

  // ---------------------------------------------------------------- information sets laid end to end

  ghost predicate NoneEmpty(lists: seq<seq<nat>>) {
    forall id :: 0 <= id < |lists| ==> lists[id] != []
  }

  /** Slice `id` of `order` is list `id`, and the slices follow each other without gaps. */
  ghost predicate LaidEndToEnd(lists: seq<seq<nat>>, slices: seq<Slice>, order: seq<nat>) {
    && |slices| == |lists| && EndToEnd(slices, |order|)
    && forall id :: 0 <= id < |lists| ==> Holds(order, slices[id], lists[id])
  }

  /** The loop that makes the infoset records, refusing a set without nodes. */
  method AssembleInfosets(lists: seq<seq<nat>>) returns (r: Option<(seq<Slice>, seq<nat>)>)
    ensures r.Some? <==> NoneEmpty(lists)
    ensures r.Some? ==> LaidEndToEnd(lists, r.value.0, r.value.1)
  {
    var slices: seq<Slice>, order: seq<nat> := [], [];
    for id := 0 to |lists|
      invariant NoneEmpty(lists[..id])
      invariant LaidEndToEnd(lists[..id], slices, order) && (id == 0 ==> order == [])
    {
      if lists[id] == [] {
        return None;
      }
      SliceAppended(slices, |order|, |lists[id]|);
      forall e | 0 <= e <= id
        ensures Holds(order + lists[id], (slices + [Slice(|order|, |lists[id]|)])[e], lists[e])
      {
        HoldsLonger(order, lists[id], (slices + [Slice(|order|, |lists[id]|)])[e]);
        if e < id {
          assert Holds(order, slices[e], lists[..id][e]);
        }
      }
      slices := slices + [Slice(|order|, |lists[id]|)];
      order := order + lists[id];
    }
    assert lists[..|lists|] == lists;
    return Some((slices, order));
  }

  /** The list of each information set names exactly the decision nodes with its key, in index order. */
  ghost predicate SetsListed(f: FlatGraph, nodes: seq<Node>) {
    && |f.infosetKeys| == |f.infosetNodes|
    && (forall key :: key in f.infosetIds ==>
                        f.infosetIds[key] < |f.infosetKeys| && f.infosetKeys[f.infosetIds[key]] == key)
    && (forall j: nat :: j < |nodes| && nodes[j].kind.DecisionNode? ==> nodes[j].kind.key in f.infosetIds)
    && forall id: nat :: id < |f.infosetKeys| ==>
                           && f.infosetKeys[id] in f.infosetIds && f.infosetIds[f.infosetKeys[id]] == id
                           && SetListed(f.infosetNodes[id], nodes, f.infosetKeys[id])
  }

  ghost predicate SetListed(list: seq<nat>, nodes: seq<Node>, key: string) {
    && list != []
    && (forall i, j :: 0 <= i < j < |list| ==> list[i] < list[j])
    && forall j: nat :: j in list <==> j < |nodes| && nodes[j].kind == DecisionNode(key)
  }

  lemma {:induction false} PlacedSetsListed(nodes: seq<Node>)
    requires SlotsMatch(nodes) && PlaceAll(nodes).Some?
    ensures SetsListed(PlaceAll(nodes).value, nodes)
  {
    hide Place;
    if nodes != [] {
      var front := nodes[..|nodes| - 1];
      PlacedSetsListed(front);
      assert nodes == front + [nodes[|nodes| - 1]];
      PlaceKeepsListed(PlaceAll(front).value, front, nodes[|nodes| - 1]);
    }
  }

  lemma AppendedMember(list: seq<nat>, last: nat, j: nat)
    ensures j in list + [last] <==> j in list || j == last
  {
    assert (list + [last])[|list|] == last;
    if j in list {
      var i :| 0 <= i < |list| && list[i] == j;
      assert (list + [last])[i] == j;
    }
  }

  lemma ListedLonger(list: seq<nat>, nodes: seq<Node>, node: Node, key: string)
    requires SetListed(list, nodes, key)
    ensures node.kind == DecisionNode(key) ==> SetListed(list + [|nodes|], nodes + [node], key)
    ensures node.kind != DecisionNode(key) ==> SetListed(list, nodes + [node], key)
  {
    var all := nodes + [node];
    assert forall j: nat :: j < |nodes| ==> all[j] == nodes[j];
    forall i | 0 <= i < |list| ensures list[i] < |nodes| {
      assert list[i] in list;
    }
    forall j: nat ensures j in list + [|nodes|] <==> j in list || j == |nodes| {
      AppendedMember(list, |nodes|, j);
    }
  }

  lemma PlaceKeepsListed(f: FlatGraph, nodes: seq<Node>, node: Node)
    requires IdsInRange(f) && |f.meta| == |nodes| && SetsListed(f, nodes)
    requires |node.moves| == |node.children| && Place(f, node).Some?
    ensures SetsListed(Place(f, node).value, nodes + [node])
  {
    var g, all := Place(f, node).value, nodes + [node];
    assert forall j: nat :: j < |nodes| ==> all[j] == nodes[j];
    hide SetListed;
    forall id: nat | id < |g.infosetKeys| ensures SetListed(g.infosetNodes[id], all, g.infosetKeys[id]) {
      if id < |f.infosetKeys| {
        ListedLonger(f.infosetNodes[id], nodes, node, f.infosetKeys[id]);
      } else {
        FirstListed(nodes, node, g.infosetKeys[id]);
      }
    }
  }

  lemma FirstListed(nodes: seq<Node>, node: Node, key: string)
    requires node.kind == DecisionNode(key)
    requires forall j: nat :: j < |nodes| ==> nodes[j].kind != DecisionNode(key)
    ensures SetListed([|nodes|], nodes + [node], key)
  {
    var all := nodes + [node];
    assert forall j: nat :: j < |nodes| ==> all[j] == nodes[j];
  }

  // ---------------------------------------------------------------- the whole build

  ghost predicate CanFinish(f: FlatGraph) {
    && NoneEmpty(f.infosetNodes) && SlotsInRange(SlotsOf(f), f.children)
    && InBounds(Outgoing(SlotsOf(f), f.children)) && Acyclic(Outgoing(SlotsOf(f), f.children))
  }

  /** The nodes can be laid out, and the graph they make passes every check that follows. */
  ghost predicate Solvable(nodes: seq<Node>)
    requires SlotsMatch(nodes)
  {
    PlaceAll(nodes).Some? && CanFinish(PlaceAll(nodes).value)
  }

  datatype Ending = Ending(infosetSlices: seq<Slice>, infosetOrder: seq<nat>, order: FinishedGraph)

  datatype SolveGraph = SolveGraph(built: Built, ending: Ending)

  ghost predicate EndsWell(f: FlatGraph, e: Ending) {
    && CanFinish(f) && LaidEndToEnd(f.infosetNodes, e.infosetSlices, e.infosetOrder)
    && Finished(Outgoing(SlotsOf(f), f.children), Streets(SlotsOf(f)), e.order)
  }

  /** What both builders do once the arrays are filled. */
  method FinishGraph(f: FlatGraph) returns (r: Option<Ending>)
    requires SlotsInRange(SlotsOf(f), f.children)
    ensures r.Some? <==> CanFinish(f)
    ensures r.Some? ==> EndsWell(f, r.value)
  {
    hide InBounds, Acyclic, SlotsInRange, NoneEmpty, Finished, LaidEndToEnd;
    var infosets := AssembleInfosets(f.infosetNodes);
    if infosets.None? {
      return None;
    }
    var finished := FinalizeGraph(SlotsOf(f), f.children);
    if finished.Failure? {
      return None;
    }
    return Some(Ending(infosets.value.0, infosets.value.1, finished.value));
  }

  /** HUNLFlatBuilder::build. */
  method BuildSolveGraph<S(!new), K(==, !new)>(game: Game<S>, key: S -> K) returns (r: Option<SolveGraph>)
    requires GameOk(game)
    ensures SlotsMatch(Target(game, key).nodes)
    ensures r.Some? <==> Solvable(Target(game, key).nodes)
    ensures r.Some? ==>
              var target := Target(game, key);
              && r.value.built == Built(PlaceAll(target.nodes).value, target.maxDepth, target.maxActions)
              && LaidOut(r.value.built.graph, target.nodes)
              && EndsWell(r.value.built.graph, r.value.ending)
  {
    hide Target, PlaceAll, CanFinish, EndsWell, LaidOut;
    var built := BuildFlat(game, key);
    if built.None? {
      return None;
    }
    PlacedIsLaidOut(Target(game, key).nodes);
    OutgoingIsChildren(Target(game, key).nodes);
    var ending := FinishGraph(built.value.graph);
    if ending.None? {
      return None;
    }
    return Some(SolveGraph(built.value, ending.value));
  }

  /** HUNLFlatSolveGraph::build on the tree of HUNLTree::build. */
  method BuildFromTree<S(!new), K(==, !new)>(game: Game<S>, key: S -> K) returns (r: Option<SolveGraph>)
    requires GameOk(game)
    ensures SlotsMatch(TreeOf(game, key).nodes)
    ensures r.Some? <==> !EmptyChance(TreeOf(game, key).nodes) && Solvable(TreeOf(game, key).nodes)
    ensures r.Some? ==>
              var tree := TreeOf(game, key);
              && r.value.built == Built(PlaceAll(tree.nodes).value, tree.maxDepth, tree.maxActions)
              && LaidOut(r.value.built.graph, tree.nodes)
              && EndsWell(r.value.built.graph, r.value.ending)
  {
    hide PlaceAll, FlattenAll, CanFinish, EndsWell, LaidOut;
    var builder := new TreeBuilder<S, K>();
    var root := builder.BuildNode(game, key, game.root, 0);
    SameTree(game, key);
    hide TreeOf;
    ghost var tree := TreeOf(game, key);
    assert builder.Value() == tree;
    FlattenExactly(tree.nodes);
    var flat := FlattenTree(builder.nodes);
    if flat.None? {
      return None;
    }
    PlacedIsLaidOut(tree.nodes);
    OutgoingIsChildren(tree.nodes);
    var ending := FinishGraph(flat.value);
    if ending.None? {
      return None;
    }
    return Some(SolveGraph(Built(flat.value, builder.maxDepth, builder.maxActions), ending.value));
  }

  lemma SameTree<S(!new), K(!new)>(game: Game<S>, key: S -> K)
    requires GameOk(game)
    ensures TreeOf(game, key) == Target(game, key) && SlotsMatch(TreeOf(game, key).nodes)
  {
    hide TreeOf, Target, FlattenAll, PlaceAll;
    BuildersAgree(game, key, key);
  }

  /**
   When equal memo keys mean equal futures, no graph that can be laid out is refused afterwards: every
   set has a node, every child is a node, and plies rank the graph.
   */
  lemma LaidOutIsSolvable<S(!new), K(!new)>(game: Game<S>, key: S -> K)
    requires GameOk(game) && KeyDetermines(game, key)
    ensures var tree := TreeOf(game, key);
            && SlotsMatch(tree.nodes) && (Solvable(tree.nodes) <==> PlaceAll(tree.nodes).Some?)
            && IsRank(GraphOf(tree.nodes), PliesOf(tree))
            && (PlaceAll(tree.nodes).Some? ==>
                  var f := PlaceAll(tree.nodes).value;
                  && SlotsInRange(SlotsOf(f), f.children) && Outgoing(SlotsOf(f), f.children) == GraphOf(tree.nodes)
                  && SetsListed(f, tree.nodes))
  {
    SameTree(game, key);
    EdgesAreMoves(game, key);
    hide TreeOf, KeyDetermines, PlaceAll, SlotsInRange, InBounds, SlotsMatch;
    var tree := TreeOf(game, key);
    assert IsRank(GraphOf(tree.nodes), PliesOf(tree));
    if PlaceAll(tree.nodes).Some? {
      OutgoingIsChildren(tree.nodes);
      PlacedSetsListed(tree.nodes);
    }
  }

  /** Depth slice `d` of a finished graph holds the nodes made `d` plies into the game. */
  lemma SlicesArePlies<S(!new), K>(game: Game<S>, key: S -> K, streets: seq<nat>, finished: FinishedGraph, d: nat,
                                   i: nat)
    requires GameOk(game) && KeyDetermines(game, key) && Finished(GraphOf(TreeOf(game, key).nodes), streets, finished)
    requires d < |finished.depthSlices|
    requires finished.depthSlices[d].begin <= i < finished.depthSlices[d].begin + finished.depthSlices[d].count
    ensures var tree := TreeOf(game, key);
            && |tree.origins| == |tree.nodes| == |finished.depthOrder| && i < |finished.depthOrder|
            && finished.depthOrder[i] < |tree.origins| && tree.origins[finished.depthOrder[i]].depth == d
  {
    hide TreeOf, KeyDetermines, GraphOf, LongestPathDepths, TopologicalOrder;
    DepthsArePlies(game, key, finished.depths, finished.depthOrder[i]);
  }
}
