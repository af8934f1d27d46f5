/**
 Directed graphs as lists of children with repetition, paths in them, and what it means to
 order their nodes.
 */
module GraphPaths {
  import opened SeqFolds

  /** `g[u]` lists the children of node `u`; a child listed twice is two edges. */
  type Graph = seq<seq<nat>>

  predicate InBounds(g: Graph) {
    forall u, k :: 0 <= u < |g| && 0 <= k < |g[u]| ==> g[u][k] < |g|
  }

  ghost predicate Edge(g: Graph, u: int, v: int) {
    0 <= u < |g| && 0 <= v < |g| && v in g[u]
  }

  /** A rank that grows along every edge: the graphs that have one are the acyclic ones. */
  ghost predicate IsRank(g: Graph, rank: seq<nat>) {
    && |rank| == |g|
    && forall u, v :: Edge(g, u, v) ==> rank[u] < rank[v]
  }

  ghost predicate Acyclic(g: Graph) {
    exists rank :: IsRank(g, rank)
  }

  ghost predicate IsPath(g: Graph, p: seq<nat>) {
    && p != []
    && (forall i :: 0 <= i < |p| ==> p[i] < |g|)
    && forall i :: 0 < i < |p| ==> Edge(g, p[i - 1], p[i])
  }

  ghost predicate EndsAt(g: Graph, p: seq<nat>, v: int) {
    IsPath(g, p) && p[|p| - 1] == v
  }

  /** Some path of `d` edges ends at `v`. */
  ghost predicate Reached(g: Graph, v: int, d: int) {
    exists p :: EndsAt(g, p, v) && |p| - 1 == d
  }

  /** `depths[v]` is the number of edges on a longest path into `v`. */
  ghost predicate LongestPathDepths(g: Graph, depths: seq<nat>) {
    && |depths| == |g|
    && (forall v :: 0 <= v < |g| ==> Reached(g, v, depths[v]))
    && (forall p, v :: EndsAt(g, p, v) ==> |p| - 1 <= depths[v])
  }

  /** Every node once, and every edge from an earlier to a later place. */
  ghost predicate TopologicalOrder(g: Graph, order: seq<nat>) {
    && |order| == |g| && Distinct(order)
    && (forall v :: 0 <= v < |g| ==> v in order)
    && forall j, u :: 0 <= j < |order| && Edge(g, u, order[j]) ==> u in order[..j]
  }

  // ---------------------------------------------------------------- distinct lists of nodes

  ghost function Nodes(n: nat): (s: set<int>)
    ensures |s| == n && forall v :: v in s <==> 0 <= v < n
  {
    if n == 0 then {} else Nodes(n - 1) + {n - 1}
  }

  ghost function Members(s: seq<nat>): (r: set<int>)
    ensures forall v :: v in r <==> v in s
  {
    set v: int | v in s
  }

  lemma {:induction false} DistinctSize(s: seq<nat>)
    requires Distinct(s)
    ensures |Members(s)| == |s|
  {
    if s != [] {
      var front, last := s[..|s| - 1], s[|s| - 1];
      DistinctSize(front);
      assert last !in front;
      assert Members(s) == Members(front) + {last};
    } else {
      assert Members(s) == {};
    }
  }

  lemma SubsetSize(a: set<int>, b: set<int>)
    requires a <= b
    ensures |a| <= |b| && (|a| == |b| ==> a == b)
  {
    assert b == a + (b - a);
    if |a| == |b| {
      assert |b - a| == 0;
    }
  }

  /** A list of distinct nodes below `n` has at most `n` entries, and with `n` entries it has them all. */
  lemma DistinctNodes(s: seq<nat>, n: nat)
    requires Distinct(s) && forall v :: v in s ==> v < n
    ensures |s| <= n && (|s| == n ==> forall v :: 0 <= v < n ==> v in s)
  {
    DistinctSize(s);
    SubsetSize(Members(s), Nodes(n));
    if |s| == n {
      assert Members(s) == Nodes(n);
    }
  }

  // ---------------------------------------------------------------- depths that grow along edges

  lemma {:induction false} PathWithinDepth(g: Graph, depths: seq<nat>, p: seq<nat>)
    requires |depths| == |g| && IsPath(g, p)
    requires forall u, v :: Edge(g, u, v) ==> depths[u] + 1 <= depths[v]
    ensures |p| - 1 <= depths[p[|p| - 1]]
  {
    if |p| > 1 {
      var front := p[..|p| - 1];
      PathWithinDepth(g, depths, front);
      assert Edge(g, p[|p| - 2], p[|p| - 1]);
    }
  }

  lemma {:induction false} DepthGrowsAlongPath(g: Graph, depths: seq<nat>, p: seq<nat>)
    requires IsRank(g, depths) && IsPath(g, p)
    ensures depths[p[0]] + (|p| - 1) <= depths[p[|p| - 1]]
  {
    if |p| > 1 {
      var front := p[..|p| - 1];
      DepthGrowsAlongPath(g, depths, front);
      assert Edge(g, p[|p| - 2], p[|p| - 1]);
    }
  }

  /** Nodes of one depth depend on each other in no number of steps. */
  lemma SameDepthIndependent(g: Graph, depths: seq<nat>, p: seq<nat>)
    requires IsRank(g, depths) && IsPath(g, p) && |p| > 1
    ensures depths[p[0]] != depths[p[|p| - 1]]
  {
    DepthGrowsAlongPath(g, depths, p);
  }

  /** A non-empty set of nodes that all have a parent inside the set rules out every rank. */
  lemma {:induction false} NoRankBelow(g: Graph, rank: seq<nat>, stuck: set<int>, v: int)
    requires IsRank(g, rank) && v in stuck
    requires forall w :: w in stuck ==> 0 <= w < |g| && exists u :: u in stuck && Edge(g, u, w)
    ensures false
    decreases rank[v]
  {
    var u :| u in stuck && Edge(g, u, v);
    NoRankBelow(g, rank, stuck, u);
  }
}
