/**
 The finished flat graph: forward and reverse order, depth and street slices, and the worker
 ranges that cut a slice into even pieces.
 */
module FlatSlices {
  import opened Arithmetic
  import opened Wrappers
  import opened CommonTypes
  import opened SeqFolds
  import opened GraphPaths
  import opened TopologicalSort

  datatype Slice = Slice(begin: nat, count: nat)

  datatype WorkerRange = WorkerRange(begin: nat, end: nat)

  const MAX_RANGES: nat := 4

  // ---------------------------------------------------------------- worker ranges

  /** Consecutive non-empty ranges from `begin` to `end`, the wider ones first, widths at most one apart. */
  ghost predicate EvenTiling(ranges: seq<WorkerRange>, begin: nat, end: nat) {
    && (ranges == [] <==> begin == end)
    && (ranges != [] ==> ranges[0].begin == begin && ranges[|ranges| - 1].end == end)
    && (forall i :: 0 <= i < |ranges| - 1 ==> ranges[i].end == ranges[i + 1].begin)
    && (forall i :: 0 <= i < |ranges| ==> ranges[i].begin < ranges[i].end)
    && forall i, j :: 0 <= i < j < |ranges| ==>
                        0 <= (ranges[i].end - ranges[i].begin) - (ranges[j].end - ranges[j].begin) <= 1
  }

  method MakeRanges(begin: nat, count: nat) returns (ranges: seq<WorkerRange>)
    ensures EvenTiling(ranges, begin, begin + count)
    ensures |ranges| == if count < MAX_RANGES then count else MAX_RANGES
  {
    if count == 0 {
      return [];
    }
    var target := if count < MAX_RANGES then count else MAX_RANGES;
    ShareOfCount(count, target);
    ranges := TileEvenly(begin, begin + count, count / target, count % target, target);
  }

  /** The loop of make_ranges: `target` ranges, the first `remainder` of them one wider. */
  method TileEvenly(begin: nat, end: nat, base: nat, remainder: nat, target: nat) returns (ranges: seq<WorkerRange>)
    requires base >= 1 && remainder < target && end == begin + Times(base, target) + remainder
    ensures |ranges| == target && EvenTiling(ranges, begin, end)
  {
    ranges := [];
    var offset := begin;
    for i := 0 to target
      invariant |ranges| == i
      invariant offset == begin + Times(base, i) + Min(i, remainder)
      invariant ranges == [] ==> offset == begin
      invariant ranges != [] ==> ranges[0].begin == begin && ranges[|ranges| - 1].end == offset
      invariant forall k :: 0 <= k < |ranges| - 1 ==> ranges[k].end == ranges[k + 1].begin
      invariant forall k :: 0 <= k < |ranges| ==>
                              ranges[k].end - ranges[k].begin == base + if k < remainder then 1 else 0
    {
      var width := base + if i < remainder then 1 else 0;
      if width == 0 {
        assert false;
      }
      ranges := ranges + [WorkerRange(offset, offset + width)];
      offset := offset + width;
    }
    TimesPositive(base, target);
  }

  lemma ShareOfCount(count: nat, target: nat)
    requires 0 < target <= count
    ensures count / target >= 1 && count % target < target
    ensures count == Times(count / target, target) + count % target
  {
    assert count == (count / target) * target + count % target;
    TimesIsProduct(count / target, target);
  }

  // ---------------------------------------------------------------- buckets laid end to end

  /** The nodes of `order` with key `d`, in order. */
  function WithKey(order: seq<nat>, key: seq<nat>, d: nat): seq<nat>
    requires forall v :: v in order ==> v < |key|
  {
    if order == [] then []
    else
      var front, last := order[..|order| - 1], order[|order| - 1];
      assert last in order && forall v :: v in front ==> v in order;
      WithKey(front, key, d) + if key[last] == d then [last] else []
  }

  ghost function BelowKey(order: seq<nat>, key: seq<nat>, d: nat): seq<nat>
    requires forall v :: v in order ==> v < |key|
  {
    if order == [] then []
    else
      var front, last := order[..|order| - 1], order[|order| - 1];
      assert last in order && forall v :: v in front ==> v in order;
      BelowKey(front, key, d) + if key[last] < d then [last] else []
  }

  lemma {:induction false} BelowKeyStep(order: seq<nat>, key: seq<nat>, d: nat)
    requires forall v :: v in order ==> v < |key|
    ensures multiset(BelowKey(order, key, d + 1))
            == multiset(BelowKey(order, key, d)) + multiset(WithKey(order, key, d))
  {
    if order != [] {
      var front, last := order[..|order| - 1], order[|order| - 1];
      assert last in order && forall v :: v in front ==> v in order;
      BelowKeyStep(front, key, d);
    }
  }

  lemma {:induction false} BelowNothing(order: seq<nat>, key: seq<nat>)
    requires forall v :: v in order ==> v < |key|
    ensures BelowKey(order, key, 0) == []
  {
    if order != [] {
      var front, last := order[..|order| - 1], order[|order| - 1];
      assert last in order && forall v :: v in front ==> v in order;
      BelowNothing(front, key);
    }
  }

  lemma {:induction false} BelowAll(order: seq<nat>, key: seq<nat>, m: nat)
    requires forall v :: v in order ==> v < |key| && key[v] < m
    ensures BelowKey(order, key, m) == order
  {
    if order != [] {
      var front, last := order[..|order| - 1], order[|order| - 1];
      assert last in order && forall v :: v in front ==> v in order;
      BelowAll(front, key, m);
    }
  }

  lemma {:induction false} WithKeyMembers(order: seq<nat>, key: seq<nat>, d: nat)
    requires forall v :: v in order ==> v < |key|
    ensures forall v :: v in WithKey(order, key, d) <==> v in order && key[v] == d
  {
    if order != [] {
      var front, last := order[..|order| - 1], order[|order| - 1];
      assert last in order && forall v :: v in front ==> v in order;
      WithKeyMembers(front, key, d);
      assert forall v :: v in order <==> v in front || v == last;
    }
  }

  /** Slices follow each other from 0 to `total`. */
  ghost predicate EndToEnd(slices: seq<Slice>, total: nat) {
    && (slices != [] ==> slices[0].begin == 0 && slices[|slices| - 1].begin + slices[|slices| - 1].count == total)
    && forall d :: 0 <= d < |slices| - 1 ==> slices[d].begin + slices[d].count == slices[d + 1].begin
  }

  ghost predicate Holds(flat: seq<nat>, slice: Slice, group: seq<nat>) {
    slice.begin + slice.count <= |flat| && flat[slice.begin..slice.begin + slice.count] == group
  }

  /** Slice `d` of `flat` holds the nodes of key `d`, and the slices follow each other without gaps. */
  ghost predicate Sliced(order: seq<nat>, key: seq<nat>, flat: seq<nat>, slices: seq<Slice>)
    requires forall v :: v in order ==> v < |key|
  {
    && EndToEnd(slices, |flat|)
    && forall d :: 0 <= d < |slices| ==> Holds(flat, slices[d], WithKey(order, key, d))
  }

  lemma SlicedGrows(order: seq<nat>, key: seq<nat>, flat: seq<nat>, slices: seq<Slice>, bucket: seq<nat>)
    requires forall v :: v in order ==> v < |key|
    requires Sliced(order, key, flat, slices) && (slices == [] ==> flat == [])
    requires bucket == WithKey(order, key, |slices|)
    ensures Sliced(order, key, flat + bucket, slices + [Slice(|flat|, |bucket|)])
  {
    hide WithKey, EndToEnd, Holds;
    var longer, more := flat + bucket, slices + [Slice(|flat|, |bucket|)];
    SliceAppended(slices, |flat|, |bucket|);
    forall d | 0 <= d < |more| ensures Holds(longer, more[d], WithKey(order, key, d)) {
      HoldsLonger(flat, bucket, more[d]);
      if d < |slices| {
        assert Holds(flat, slices[d], WithKey(order, key, d));
      }
    }
  }

  lemma SliceAppended(slices: seq<Slice>, total: nat, count: nat)
    requires EndToEnd(slices, total) && (slices == [] ==> total == 0)
    ensures EndToEnd(slices + [Slice(total, count)], total + count)
  {
  }

  lemma HoldsLonger(flat: seq<nat>, bucket: seq<nat>, slice: Slice)
    ensures slice.begin + slice.count <= |flat| ==>
              Holds(flat + bucket, slice, flat[slice.begin..slice.begin + slice.count])
    ensures slice == Slice(|flat|, |bucket|) ==> Holds(flat + bucket, slice, bucket)
    ensures forall group :: Holds(flat, slice, group) ==> Holds(flat + bucket, slice, group)
  {
  }

  /** Groups the nodes by key and lays the groups end to end. */
  method SliceBy(order: seq<nat>, key: seq<nat>, m: nat) returns (flat: seq<nat>, slices: seq<Slice>)
    requires forall v :: v in order ==> v < |key| && key[v] < m
    ensures |slices| == m && Sliced(order, key, flat, slices)
    ensures multiset(flat) == multiset(order)
  {
    var buckets := FillBuckets(order, key, m);
    flat, slices := [], [];
    BelowNothing(order, key);
    for d := 0 to m
      invariant |slices| == d
      invariant d == 0 ==> flat == []
      invariant Sliced(order, key, flat, slices)
      invariant multiset(flat) == multiset(BelowKey(order, key, d))
    {
      BelowKeyStep(order, key, d);
      SlicedGrows(order, key, flat, slices, buckets[d]);
      slices := slices + [Slice(|flat|, |buckets[d]|)];
      flat := flat + buckets[d];
    }
    BelowAll(order, key, m);
  }

  method FillBuckets(order: seq<nat>, key: seq<nat>, m: nat) returns (buckets: seq<seq<nat>>)
    requires forall v :: v in order ==> v < |key| && key[v] < m
    ensures |buckets| == m && forall d :: 0 <= d < m ==> buckets[d] == WithKey(order, key, d)
  {
    buckets := seq(m, _ => []);
    for k := 0 to |order|
      invariant |buckets| == m
      invariant forall v :: v in order[..k] ==> v < |key|
      invariant forall d :: 0 <= d < m ==> buckets[d] == WithKey(order[..k], key, d)
    {
      var node := order[k];
      assert node in order;
      ghost var prefix := order[..k + 1];
      assert prefix[..k] == order[..k] && forall v :: v in prefix <==> v in order[..k] || v == node;
      buckets := buckets[key[node] := buckets[key[node]] + [node]];
    }
    assert order[..|order|] == order;
  }

  // ---------------------------------------------------------------- the finished graph

  datatype NodeSlots = NodeSlots(childBegin: nat, childCount: nat, street: nat)

  datatype GraphError = ChildOutOfBounds | CyclicGraph

  datatype FinishedGraph = FinishedGraph(
    forward: seq<nat>,
    reverse: seq<nat>,
    depths: seq<nat>,
    depthOrder: seq<nat>,
    depthSlices: seq<Slice>,
    depthRanges: seq<seq<WorkerRange>>,
    streetOrder: seq<nat>,
    streetSlices: seq<Slice>)

  predicate SlotsInRange(nodes: seq<NodeSlots>, children: seq<nat>) {
    forall u :: 0 <= u < |nodes| ==>
                  nodes[u].childBegin + nodes[u].childCount <= |children| && nodes[u].street < STREETS
  }

  /** The graph stored in the child slots. */
  function Outgoing(nodes: seq<NodeSlots>, children: seq<nat>): (g: Graph)
    requires SlotsInRange(nodes, children)
    ensures |g| == |nodes|
    ensures forall u :: 0 <= u < |g| ==>
                          g[u] == children[nodes[u].childBegin..nodes[u].childBegin + nodes[u].childCount]
  {
    seq(|nodes|, u requires 0 <= u < |nodes| =>
      children[nodes[u].childBegin..nodes[u].childBegin + nodes[u].childCount])
  }

  function Streets(nodes: seq<NodeSlots>): (key: seq<nat>)
    ensures |key| == |nodes| && forall u :: 0 <= u < |key| ==> key[u] == nodes[u].street
  {
    seq(|nodes|, u requires 0 <= u < |nodes| => nodes[u].street)
  }

  /** Each slice in `slices` holds exactly the nodes of one key, once each, and together they hold every node. */
  ghost predicate PartitionsNodes(n: nat, key: seq<nat>, flat: seq<nat>, slices: seq<Slice>) {
    && |key| == n == |flat| && Distinct(flat) && (forall v :: v in flat <==> 0 <= v < n)
    && (slices != [] ==> slices[0].begin == 0 && slices[|slices| - 1].begin + slices[|slices| - 1].count == n)
    && (forall d :: 0 <= d < |slices| - 1 ==> slices[d].begin + slices[d].count == slices[d + 1].begin)
    && forall d :: 0 <= d < |slices| ==>
                     && slices[d].begin + slices[d].count <= n
                     && forall i :: slices[d].begin <= i < slices[d].begin + slices[d].count ==>
                          flat[i] < n && key[flat[i]] == d
  }

  lemma SlicedPartitions(g: Graph, order: seq<nat>, key: seq<nat>, flat: seq<nat>, slices: seq<Slice>)
    requires TopologicalOrder(g, order) && |key| == |g| && forall v :: v in order ==> v < |g|
    requires Sliced(order, key, flat, slices) && multiset(flat) == multiset(order)
    ensures PartitionsNodes(|g|, key, flat, slices)
  {
    assert |flat| == |order| by { assert |multiset(flat)| == |multiset(order)|; }
    forall v ensures v in flat <==> v in order {
      assert v in flat <==> v in multiset(flat);
      assert v in order <==> v in multiset(order);
    }
    forall v ensures multiset(flat)[v] <= 1 { DistinctMultiplicity(order, v); }
    MultiplicityDistinct(flat);
    forall d, i | 0 <= d < |slices| && slices[d].begin <= i < slices[d].begin + slices[d].count
      ensures flat[i] < |g| && key[flat[i]] == d
    {
      WithKeyMembers(order, key, d);
      var slice := flat[slices[d].begin..slices[d].begin + slices[d].count];
      assert slice[i - slices[d].begin] == flat[i];
      assert flat[i] in slice;
    }
  }

  /** Everything the finished graph promises about its nodes. */
  ghost predicate Finished(g: Graph, streets: seq<nat>, f: FinishedGraph) {
    && TopologicalOrder(g, f.forward)
    && Reversed(f.forward, f.reverse)
    && LongestPathDepths(g, f.depths)
    && PartitionsNodes(|g|, f.depths, f.depthOrder, f.depthSlices)
    && (forall v :: 0 <= v < |g| ==> f.depths[v] < |f.depthSlices|)
    && PartitionsNodes(|g|, streets, f.streetOrder, f.streetSlices) && |f.streetSlices| == STREETS
    && RangesTile(f.depthSlices, f.depthRanges)
  }

  ghost predicate Reversed(order: seq<nat>, reverse: seq<nat>) {
    |reverse| == |order| && forall i :: 0 <= i < |reverse| ==> reverse[i] == order[|order| - 1 - i]
  }

  ghost predicate RangesTile(slices: seq<Slice>, ranges: seq<seq<WorkerRange>>) {
    && |ranges| == |slices|
    && forall d :: 0 <= d < |slices| ==> EvenTiling(ranges[d], slices[d].begin, slices[d].begin + slices[d].count)
  }

  method ReverseOf(order: seq<nat>) returns (reverse: seq<nat>)
    ensures Reversed(order, reverse)
  {
    reverse := [];
    for k := 0 to |order|
      invariant |reverse| == k && forall i :: 0 <= i < k ==> reverse[i] == order[|order| - 1 - i]
    {
      reverse := reverse + [order[|order| - 1 - k]];
    }
  }

  method HighestDepth(depths: seq<nat>) returns (highest: nat)
    ensures forall v :: 0 <= v < |depths| ==> depths[v] <= highest
  {
    highest := 0;
    for v := 0 to |depths|
      invariant forall u :: 0 <= u < v ==> depths[u] <= highest
    {
      highest := Max(highest, depths[v]);
    }
  }

  method RangesOf(slices: seq<Slice>) returns (ranges: seq<seq<WorkerRange>>)
    ensures RangesTile(slices, ranges)
  {
    ranges := [];
    for d := 0 to |slices|
      invariant |ranges| == d
      invariant forall e :: 0 <= e < d ==>
                              EvenTiling(ranges[e], slices[e].begin, slices[e].begin + slices[e].count)
    {
      var cut := MakeRanges(slices[d].begin, slices[d].count);
      ranges := ranges + [cut];
    }
  }

  lemma OrderHasNodes(g: Graph, order: seq<nat>)
    requires TopologicalOrder(g, order)
    ensures forall v :: v in order ==> v < |g|
  {
    DistinctSize(order);
    assert Nodes(|g|) <= Members(order);
    SubsetSize(Nodes(|g|), Members(order));
    assert Nodes(|g|) == Members(order);
    forall v | v in order ensures v < |g| { assert v in Members(order); }
  }

  /** Slices and ranges of an accepted graph. */
  method CutSlices(g: Graph, streets: seq<nat>, order: seq<nat>, depths: seq<nat>) returns (f: FinishedGraph)
    requires TopologicalOrder(g, order) && LongestPathDepths(g, depths) && |depths| == |g|
    requires |streets| == |g| && forall v :: 0 <= v < |g| ==> streets[v] < STREETS
    ensures Finished(g, streets, f)
  {
    hide LongestPathDepths, Sliced, EvenTiling, TopologicalOrder, PartitionsNodes, Reversed, RangesTile;
    OrderHasNodes(g, order);
    var reverse := ReverseOf(order);
    var highest := HighestDepth(depths);
    var depthOrder, depthSlices := SliceBy(order, depths, highest + 1);
    SlicedPartitions(g, order, depths, depthOrder, depthSlices);
    var ranges := RangesOf(depthSlices);
    var streetOrder, streetSlices := SliceBy(order, streets, STREETS);
    SlicedPartitions(g, order, streets, streetOrder, streetSlices);
    f := FinishedGraph(order, reverse, depths, depthOrder, depthSlices, ranges, streetOrder, streetSlices);
  }

  /** Collects each node's children, refusing one that names no node. */
  method CollectChildren(nodes: seq<NodeSlots>, children: seq<nat>) returns (r: Option<Graph>)
    requires SlotsInRange(nodes, children)
    ensures r == if InBounds(Outgoing(nodes, children)) then Some(Outgoing(nodes, children)) else None
  {
    ghost var g := Outgoing(nodes, children);
    var outgoing: seq<seq<nat>> := [];
    for u := 0 to |nodes|
      invariant outgoing == g[..u]
      invariant forall w, k :: 0 <= w < u && 0 <= k < |g[w]| ==> g[w][k] < |g|
    {
      var list := children[nodes[u].childBegin..nodes[u].childBegin + nodes[u].childCount];
      for k := 0 to |list|
        invariant forall m :: 0 <= m < k ==> list[m] < |nodes|
      {
        if list[k] >= |nodes| {
          assert g[u][k] >= |g|;
          return None;
        }
      }
      outgoing := outgoing + [list];
    }
    assert g[..|g|] == g;
    return Some(outgoing);
  }

  /** finalize_graph: refuses exactly the graphs with a stray child or a cycle. */
  method FinalizeGraph(nodes: seq<NodeSlots>, children: seq<nat>) returns (r: Result<FinishedGraph, GraphError>)
    requires SlotsInRange(nodes, children)
    ensures r.Success? <==> InBounds(Outgoing(nodes, children)) && Acyclic(Outgoing(nodes, children))
    ensures r == Failure(ChildOutOfBounds) <==> !InBounds(Outgoing(nodes, children))
    ensures r.Success? ==> Finished(Outgoing(nodes, children), Streets(nodes), r.value)
  {
    hide Acyclic, IsRank, InBounds, TopologicalOrder;
    var g := CollectChildren(nodes, children);
    if g.None? {
      return Failure(ChildOutOfBounds);
    }
    var accepted, order, depths := Sort(g.value);
    if !accepted {
      return Failure(CyclicGraph);
    }
    var f := CutSlices(g.value, Streets(nodes), order, depths);
    return Success(f);
  }

  // ---------------------------------------------------------------- one slice can be processed in parallel

  /** Every edge leads to a later depth slice, and no path joins two nodes of one slice. */
  lemma EdgesCrossSlices(g: Graph, streets: seq<nat>, f: FinishedGraph, u: nat, v: nat)
    requires Finished(g, streets, f) && Edge(g, u, v)
    ensures |f.depths| == |g| && f.depths[u] < f.depths[v] < |f.depthSlices|
  {
    hide TopologicalOrder, PartitionsNodes, RangesTile;
    ReachedChild(g, u, v, f.depths[u]);
  }

  lemma SliceIsIndependent(g: Graph, streets: seq<nat>, f: FinishedGraph, d: nat, i: nat, j: nat, p: seq<nat>)
    requires Finished(g, streets, f) && d < |f.depthSlices|
    requires f.depthSlices[d].begin <= i < f.depthSlices[d].begin + f.depthSlices[d].count
    requires f.depthSlices[d].begin <= j < f.depthSlices[d].begin + f.depthSlices[d].count
    requires IsPath(g, p) && p[0] == f.depthOrder[i] && p[|p| - 1] == f.depthOrder[j]
    ensures |p| == 1 && i == j
  {
    hide TopologicalOrder;
    forall u, v | Edge(g, u, v) ensures f.depths[u] < f.depths[v] {
      EdgesCrossSlices(g, streets, f, u, v);
    }
    DepthGrowsAlongPath(g, f.depths, p);
  }
}
