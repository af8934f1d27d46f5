/** Kahn's algorithm as the flat graph runs it: in-degrees counted per edge, a queue, and depths. */
module TopologicalSort {
  import opened Arithmetic
  import opened SeqFolds
  import opened GraphPaths

  // ---------------------------------------------------------------- counting edges

  /** How often `v` occurs in a list of children. */
  function Occurrences(s: seq<nat>, v: int): nat {
    if s == [] then 0 else (if s[0] == v then 1 else 0) + Occurrences(s[1..], v)
  }

  lemma {:induction false} OccursIfPresent(s: seq<nat>, v: int)
    ensures Occurrences(s, v) > 0 <==> v in s
  {
    if s != [] {
      OccursIfPresent(s[1..], v);
      assert v in s <==> s[0] == v || v in s[1..];
    }
  }

  /** Edges into `v` from nodes below `k` that are not yet done. */
  ghost function OpenEdges(g: Graph, v: int, done: set<int>, k: nat): nat
    requires k <= |g|
  {
    if k == 0 then 0
    else OpenEdges(g, v, done, k - 1) + if k - 1 in done then 0 else Occurrences(g[k - 1], v)
  }

  lemma {:induction false} OpenEdgesZero(g: Graph, v: int, done: set<int>, k: nat)
    requires k <= |g|
    ensures OpenEdges(g, v, done, k) == 0 <==> forall u :: 0 <= u < k && u !in done ==> v !in g[u]
  {
    if k > 0 {
      OpenEdgesZero(g, v, done, k - 1);
      OccursIfPresent(g[k - 1], v);
    }
  }

  /** Finishing a node closes exactly its own edges. */
  lemma {:induction false} OpenEdgesFinish(g: Graph, v: int, done: set<int>, node: nat, k: nat)
    requires k <= |g| && node !in done
    ensures OpenEdges(g, v, done, k)
            == OpenEdges(g, v, done + {node}, k) + if node < k then Occurrences(g[node], v) else 0
  {
    if k > 0 {
      OpenEdgesFinish(g, v, done, node, k - 1);
    }
  }

  lemma OccurrencesStep(s: seq<nat>, k: nat, v: int)
    requires k < |s|
    ensures Occurrences(s[k..], v) == (if s[k] == v then 1 else 0) + Occurrences(s[k + 1..], v)
  {
    assert s[k..][1..] == s[k + 1..];
  }

  // ---------------------------------------------------------------- the state of the sort

  /** Nodes done and queued are distinct, and every done node has its parents done before it. */
  ghost predicate Sorting(g: Graph, order: seq<nat>, ready: seq<nat>) {
    && Distinct(order + ready)
    && (forall v :: v in order + ready ==> v < |g|)
    && forall j, u :: 0 <= j < |order| && Edge(g, u, order[j]) ==> u in order[..j]
  }

  /** Each in-degree counts the edges from nodes not done, and those of a finished node still in `rest`. */
  ghost predicate Indegrees(g: Graph, indegree: seq<nat>, done: set<int>, rest: seq<nat>) {
    && |indegree| == |g|
    && forall v :: 0 <= v < |g| ==> indegree[v] == OpenEdges(g, v, done, |g|) + Occurrences(rest, v)
  }

  /** The nodes with nothing left to wait for are the done and the queued ones. */
  ghost predicate Queued(g: Graph, indegree: seq<nat>, order: seq<nat>, ready: seq<nat>) {
    && |indegree| == |g|
    && forall v :: 0 <= v < |g| ==> (indegree[v] == 0 <==> v in order + ready)
  }

  /** Depths are lengths of paths, and grow along the edges of done nodes. */
  ghost predicate Depths(g: Graph, depths: seq<nat>, done: set<int>) {
    && |depths| == |g|
    && (forall u, v :: u in done && Edge(g, u, v) ==> depths[u] + 1 <= depths[v])
    && forall v :: 0 <= v < |g| ==> Reached(g, v, depths[v])
  }

  // ---------------------------------------------------------------- steps of the sort

  lemma DepthsStart(g: Graph, depths: seq<nat>)
    requires |depths| == |g| && forall v :: 0 <= v < |g| ==> depths[v] == 0
    ensures Depths(g, depths, {})
  {
    forall v | 0 <= v < |g| ensures Reached(g, v, depths[v]) {
      assert EndsAt(g, [v], v);
    }
  }

  lemma ReachedChild(g: Graph, node: int, child: int, d: int)
    requires Reached(g, node, d) && Edge(g, node, child)
    ensures Reached(g, child, d + 1)
  {
    var p: seq<nat> :| EndsAt(g, p, node) && |p| - 1 == d;
    var last: nat := child;
    assert EndsAt(g, p + [last], child);
  }

  /** Raising a child past its parent keeps every depth the length of some path. */
  lemma DepthRaised(g: Graph, depths: seq<nat>, done: set<int>, node: nat, child: nat)
    requires Depths(g, depths, done) && Edge(g, node, child) && child !in done
    ensures Depths(g, depths[child := Max(depths[child], depths[node] + 1)], done)
  {
    ReachedChild(g, node, child, depths[node]);
  }

  lemma DepthsFinish(g: Graph, depths: seq<nat>, done: set<int>, node: nat)
    requires Depths(g, depths, done) && node < |g|
    requires forall k :: 0 <= k < |g[node]| ==> g[node][k] < |g| && depths[node] + 1 <= depths[g[node][k]]
    ensures Depths(g, depths, done + {node})
  {
  }

  lemma EdgeCounted(g: Graph, indegree: seq<nat>, done: set<int>, node: nat, k: nat)
    requires node < |g| && k < |g[node]| && g[node][k] < |g|
    requires Indegrees(g, indegree, done, g[node][k..])
    ensures indegree[g[node][k]] > 0
    ensures Indegrees(g, indegree[g[node][k] := indegree[g[node][k]] - 1], done, g[node][k + 1..])
  {
    hide OpenEdges, Occurrences;
    forall v | 0 <= v < |g|
      ensures Occurrences(g[node][k..], v) == (if g[node][k] == v then 1 else 0) + Occurrences(g[node][k + 1..], v)
    {
      OccurrencesStep(g[node], k, v);
    }
  }

  function Enqueue(ready: seq<nat>, child: nat, left: nat): seq<nat> {
    if left == 0 then ready + [child] else ready
  }

  lemma ChildQueued(g: Graph, indegree: seq<nat>, order: seq<nat>, ready: seq<nat>, child: nat)
    requires Sorting(g, order, ready) && Queued(g, indegree, order, ready)
    requires child < |g| && indegree[child] > 0
    ensures var left := indegree[child] - 1;
            && child !in order
            && Sorting(g, order, Enqueue(ready, child, left))
            && Queued(g, indegree[child := left], order, Enqueue(ready, child, left))
  {
    assert child !in order + ready;
    assert order + (ready + [child]) == (order + ready) + [child];
  }

  /** A node taken off the queue has all its parents done, and is no child of itself. */
  lemma ReadyNode(g: Graph, order: seq<nat>, ready: seq<nat>, indegree: seq<nat>)
    requires Sorting(g, order, ready) && ready != [] && Queued(g, indegree, order, ready)
    requires Indegrees(g, indegree, Members(order), [])
    ensures ready[0] < |g| && ready[0] !in g[ready[0]]
    ensures Sorting(g, order + [ready[0]], ready[1..])
    ensures Queued(g, indegree, order + [ready[0]], ready[1..])
    ensures Members(order + [ready[0]]) == Members(order) + {ready[0]} && ready[0] !in Members(order)
    ensures Indegrees(g, indegree, Members(order + [ready[0]]), g[ready[0]])
  {
    var node := ready[0];
    NodeIsFree(g, order, ready, indegree);
    assert (order + [node]) + ready[1..] == order + ready;
    forall v | 0 <= v < |g|
      ensures indegree[v] == OpenEdges(g, v, Members(order + [node]), |g|) + Occurrences(g[node], v)
    {
      OpenEdgesFinish(g, v, Members(order), node, |g|);
    }
  }

  lemma NodeIsFree(g: Graph, order: seq<nat>, ready: seq<nat>, indegree: seq<nat>)
    requires Sorting(g, order, ready) && ready != [] && Queued(g, indegree, order, ready)
    requires Indegrees(g, indegree, Members(order), [])
    ensures ready[0] < |g| && ready[0] !in g[ready[0]] && ready[0] !in order
    ensures Sorting(g, order + [ready[0]], ready[1..])
    ensures Members(order + [ready[0]]) == Members(order) + {ready[0]}
  {
    var node := ready[0];
    assert (order + ready)[|order|] == node;
    assert node in order + ready;
    forall i | 0 <= i < |order| ensures order[i] != node { assert (order + ready)[i] == order[i]; }
    assert (order + [node]) + ready[1..] == order + ready;
    OpenEdgesZero(g, node, Members(order), |g|);
    forall j, u | 0 <= j < |order + [node]| && Edge(g, u, (order + [node])[j])
      ensures u in (order + [node])[..j]
    {
      assert (order + [node])[..j] == order[..j];
      assert order[..|order|] == order;
    }
  }

  /** Nodes that never become free block every rank. */
  lemma StuckNodesBlockRanks(g: Graph, order: seq<nat>, indegree: seq<nat>)
    requires Sorting(g, order, []) && Queued(g, indegree, order, []) && |order| < |g|
    requires Indegrees(g, indegree, Members(order), [])
    ensures !Acyclic(g)
  {
    assert order + [] == order;
    var stuck := Nodes(|g|) - Members(order);
    DistinctSize(order);
    var v := OutsideNode(Members(order), |g|);
    forall w | w in stuck ensures 0 <= w < |g| && exists u :: u in stuck && Edge(g, u, w) {
      OpenEdgesZero(g, w, Members(order), |g|);
      var u :| 0 <= u < |g| && u !in Members(order) && w in g[u];
      assert u in stuck && Edge(g, u, w);
    }
    if rank :| IsRank(g, rank) {
      NoRankBelow(g, rank, stuck, v);
    }
  }

  lemma OutsideNode(done: set<int>, n: nat) returns (v: int)
    requires |done| < n
    ensures v in Nodes(n) - done
  {
    if Nodes(n) - done == {} {
      SubsetSize(Nodes(n), done);
    }
    v :| v in Nodes(n) - done;
  }

  lemma FinishedSort(g: Graph, order: seq<nat>, depths: seq<nat>)
    requires Sorting(g, order, []) && |order| == |g| && Depths(g, depths, Members(order))
    ensures Acyclic(g) && TopologicalOrder(g, order) && IsRank(g, depths) && LongestPathDepths(g, depths)
  {
    assert order + [] == order;
    DistinctNodes(order, |g|);
    assert IsRank(g, depths);
    forall p, v | EndsAt(g, p, v) ensures |p| - 1 <= depths[v] {
      PathWithinDepth(g, depths, p);
    }
  }

  lemma SortingBound(g: Graph, order: seq<nat>, ready: seq<nat>)
    requires Sorting(g, order, ready)
    ensures |order| <= |g|
  {
    DistinctNodes(order + ready, |g|);
  }

  // ---------------------------------------------------------------- the algorithm

  /** The in-degree table: one entry per node, counting every parallel edge. */
  method CountIndegrees(g: Graph) returns (indegree: array<nat>)
    requires InBounds(g)
    ensures fresh(indegree) && Indegrees(g, indegree[..], {}, [])
  {
    indegree := new nat[|g|](_ => 0);
    for node := 0 to |g|
      invariant forall v :: 0 <= v < |g| ==> indegree[v] == OpenEdges(g, v, {}, node)
    {
      ghost var before := indegree[..];
      for k := 0 to |g[node]|
        invariant forall v :: 0 <= v < |g| ==>
                                indegree[v] + Occurrences(g[node][k..], v) == before[v] + Occurrences(g[node], v)
      {
        var child := g[node][k];
        assert g[node][k..][1..] == g[node][k + 1..];
        indegree[child] := indegree[child] + 1;
      }
    }
  }

  /** Visits the children of the node just finished: depths grow, in-degrees drop, free nodes queue up. */
  method VisitChildren(g: Graph, node: nat, indegree: array<nat>, depths: array<nat>,
                       ghost order: seq<nat>, queue: seq<nat>) returns (ready: seq<nat>)
    requires InBounds(g) && node < |g| && node in order && node !in g[node]
    requires indegree != depths && indegree.Length == depths.Length == |g|
    requires Sorting(g, order, queue) && Queued(g, indegree[..], order, queue)
    requires Indegrees(g, indegree[..], Members(order), g[node])
    requires Depths(g, depths[..], Members(order) - {node})
    modifies indegree, depths
    ensures Sorting(g, order, ready) && Queued(g, indegree[..], order, ready)
    ensures Indegrees(g, indegree[..], Members(order), [])
    ensures Depths(g, depths[..], Members(order))
  {
    hide Sorting, Queued, Indegrees, Depths;
    ready := queue;
    var parentDepth := depths[node];
    ghost var done := Members(order) - {node};
    for k := 0 to |g[node]|
      invariant depths[node] == parentDepth
      invariant Sorting(g, order, ready) && Queued(g, indegree[..], order, ready)
      invariant Indegrees(g, indegree[..], Members(order), g[node][k..])
      invariant Depths(g, depths[..], done)
      invariant forall m :: 0 <= m < k ==> parentDepth + 1 <= depths[g[node][m]]
    {
      var child := g[node][k];
      assert Edge(g, node, child);
      ghost var counts, lengths := indegree[..], depths[..];
      EdgeCounted(g, counts, Members(order), node, k);
      ChildQueued(g, counts, order, ready, child);
      DepthRaised(g, lengths, done, node, child);
      depths[child] := Max(depths[child], parentDepth + 1);
      assert depths[..] == lengths[child := Max(lengths[child], lengths[node] + 1)];
      indegree[child] := indegree[child] - 1;
      assert indegree[..] == counts[child := counts[child] - 1];
      if indegree[child] == 0 {
        ready := ready + [child];
      }
    }
    DepthsFinish(g, depths[..], done, node);
    assert done + {node} == Members(order);
    assert g[node][|g[node]|..] == [];
  }

  /**
   The sort accepts exactly the graphs that have a rank; its order is topological and each depth is
   the length of a longest path into the node.
   */
  method Sort(g: Graph) returns (accepted: bool, order: seq<nat>, depths: seq<nat>)
    requires InBounds(g)
    ensures accepted <==> Acyclic(g)
    ensures accepted ==> TopologicalOrder(g, order) && LongestPathDepths(g, depths) && IsRank(g, depths)
  {
    hide Sorting, Queued, Indegrees, Depths;
    var indegree := CountIndegrees(g);
    var depthOf := new nat[|g|](_ => 0);
    var ready := FreeNodes(g, indegree);
    order := [];
    assert Members([]) == {};
    DepthsStart(g, depthOf[..]);
    while ready != []
      invariant indegree.Length == |g|
      invariant Sorting(g, order, ready) && Queued(g, indegree[..], order, ready)
      invariant Indegrees(g, indegree[..], Members(order), [])
      invariant Depths(g, depthOf[..], Members(order))
      decreases |g| - |order|
    {
      ReadyNode(g, order, ready, indegree[..]);
      var node := ready[0];
      ghost var done := Members(order);
      order := order + [node];
      assert Members(order) - {node} == done;
      SortingBound(g, order, ready[1..]);
      ready := VisitChildren(g, node, indegree, depthOf, order, ready[1..]);
    }
    depths := depthOf[..];
    SortingBound(g, order, []);
    if |order| != |g| {
      StuckNodesBlockRanks(g, order, indegree[..]);
      return false, order, depths;
    }
    FinishedSort(g, order, depths);
    return true, order, depths;
  }

  /** The first queue: the nodes nothing points to, in index order. */
  method FreeNodes(g: Graph, indegree: array<nat>) returns (ready: seq<nat>)
    requires Indegrees(g, indegree[..], {}, [])
    ensures indegree.Length == |g|
    ensures Sorting(g, [], ready) && Queued(g, indegree[..], [], ready)
  {
    assert indegree.Length == |g|;
    ready := [];
    for node := 0 to |g|
      invariant forall v :: 0 <= v < node ==> (indegree[v] == 0 <==> v in ready)
      invariant Distinct(ready) && forall v :: v in ready ==> v < node
    {
      if indegree[node] == 0 {
        assert forall i :: 0 <= i < |ready| ==> ready[i] in ready;
        ready := ready + [node];
      }
    }
    assert [] + ready == ready;
  }
}
