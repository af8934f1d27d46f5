/**
 The two builders agree: visiting with an explicit stack and slots written one by one gives the
 same nodes, index for index, as the recursion that writes each node back complete.
 */
module GraphEquality {
  import opened Arithmetic
  import opened Wrappers
  import opened GameTree

  // ---------------------------------------------------------------- recursion and slots

  ghost predicate Aligned<S(!new)>(a: Build<S>, b: Build<S>) {
    && |a.nodes| == |b.nodes| == |a.origins| && a.origins == b.origins
    && a.maxDepth == b.maxDepth && a.maxActions == b.maxActions
  }

  /** The results agree beyond the first `n` nodes, which each builder left as they were except `i`. */
  ghost predicate Agree<S(!new)>(a: Build<S>, b: Build<S>, ra: Build<S>, rb: Build<S>, i: int) {
    && Aligned(a, b) && Aligned(ra, rb) && |ra.nodes| >= |a.nodes|
    && (forall j :: 0 <= j < |a.nodes| && j != i ==> ra.nodes[j] == a.nodes[j] && rb.nodes[j] == b.nodes[j])
    && forall j :: |a.nodes| <= j < |ra.nodes| ==> ra.nodes[j] == rb.nodes[j]
  }

  ghost predicate Filled(before: Node, after: Node, moves: seq<Move>, k: nat, children: seq<nat>)
    requires k <= |moves| == |before.moves| == |before.children|
  {
    after == before.(moves := before.moves[..k] + moves[k..], children := before.children[..k] + children)
  }

  lemma {:induction false} SameVisit<S(!new), K>(game: Game<S>, key: S -> K, a: Build<S>, b: Build<S>, s: S, d: nat)
    requires GameOk(game) && game.good(s, d) && Aligned(a, b)
    ensures var ra, rb := BuildNode(game, key, a, s, d), Visit(game, key, b, s, d);
            ra.1 == rb.1 && Agree(a, b, ra.0, rb.0, -1)
    decreases game.rank(s), 1, 0
  {
    match Lookup(key, b.origins, s)
    case Some(_) =>
    case None =>
      var i := |b.nodes|;
      var a1 := Enter(game, a, s, d, Bare(game, s));
      var b1 := Enter(game, b, s, d, Blank(game, s, d));
      SameChildren(game, key, a1, b1, s, i, d, 0);
  }

  lemma {:induction false} SameChildren<S(!new), K>(game: Game<S>, key: S -> K, a: Build<S>, b: Build<S>,
                                                        s: S, i: nat, d: nat, k: nat)
    requires GameOk(game) && game.good(s, d) && Aligned(a, b)
    requires k <= |Moves(game, s, d)| && HasSlots(b, i, |Moves(game, s, d)|)
    ensures var ra, rb := BuildChildren(game, key, a, s, d, k), Fill(game, key, b, s, i, d, k);
            && Agree(a, b, ra.0, rb, i) && ra.0.nodes[i] == a.nodes[i]
            && Filled(b.nodes[i], rb.nodes[i], Moves(game, s, d), k, ra.1)
    decreases game.rank(s), 0, |Moves(game, s, d)| - k
  {
    var moves := Moves(game, s, d);
    if k < |moves| {
      assert MoveOk(game, s, d, k);
      var next := Next(game, s, d, k);
      var c := IndexFor(key, b, next);
      var written := Written(b, i, k, moves[k], c);
      SameVisit(game, key, a, written, next, d + 1);
      var first, visited := BuildNode(game, key, a, next, d + 1), Visit(game, key, written, next, d + 1);
      SameChildren(game, key, first.0, visited.0, s, i, d, k + 1);
      var rest := BuildChildren(game, key, first.0, s, d, k + 1);
      SlotThenRest(b.nodes[i], moves, k, c, rest.1, Fill(game, key, visited.0, s, i, d, k + 1).nodes[i]);
    } else {
      assert b.nodes[i].moves[..k] + moves[k..] == b.nodes[i].moves;
      assert b.nodes[i].children[..k] + [] == b.nodes[i].children;
    }
  }

  lemma SlotThenRest(node: Node, moves: seq<Move>, k: nat, child: nat, rest: seq<nat>, after: Node)
    requires k < |moves| == |node.moves| == |node.children|
    requires Filled(SetSlot(node, k, moves[k], child), after, moves, k + 1, rest)
    ensures Filled(node, after, moves, k, [child] + rest)
  {
    assert node.moves[k := moves[k]][..k + 1] + moves[k + 1..] == node.moves[..k] + moves[k..];
    assert node.children[k := child][..k + 1] + rest == node.children[..k] + ([child] + rest);
  }

  // ---------------------------------------------------------------- two keys that identify the same states

  ghost predicate SameStates<S(!new), K(!new), L(!new)>(game: Game<S>, key: S -> K, other: S -> L) {
    forall s, d: nat, t, e: nat :: game.good(s, d) && game.good(t, e) ==> (key(s) == key(t) <==> other(s) == other(t))
  }

  ghost predicate GoodOrigins<S(!new)>(game: Game<S>, origins: seq<Origin<S>>) {
    forall i :: 0 <= i < |origins| ==> game.good(origins[i].state, origins[i].depth)
  }

  lemma {:induction false} SameLookup<S(!new), K(!new), L(!new)>(
      game: Game<S>, key: S -> K, other: S -> L, origins: seq<Origin<S>>, s: S, d: nat)
    requires SameStates(game, key, other) && GoodOrigins(game, origins) && game.good(s, d)
    ensures Lookup(key, origins, s) == Lookup(other, origins, s)
  {
    if origins != [] {
      SameLookup(game, key, other, origins[..|origins| - 1], s, d);
      var last := origins[|origins| - 1];
      assert game.good(last.state, last.depth);
    }
  }

  /** One slot of Fill: the child's index is written, the child visited, the next slot filled. */
  lemma FillStep<S(!new), K>(game: Game<S>, key: S -> K, b: Build<S>, s: S, i: nat, d: nat, k: nat)
    requires GameOk(game) && game.good(s, d) && |b.nodes| == |b.origins|
    requires k < |Moves(game, s, d)| && HasSlots(b, i, |Moves(game, s, d)|)
    ensures var next := Next(game, s, d, k);
            var written := Written(b, i, k, Moves(game, s, d)[k], IndexFor(key, b, next));
            && game.good(next, d + 1) && game.rank(next) < game.rank(s) && |written.nodes| == |written.origins|
            && written.origins == b.origins
            && HasSlots(Visit(game, key, written, next, d + 1).0, i, |Moves(game, s, d)|)
            && Fill(game, key, b, s, i, d, k)
               == Fill(game, key, Visit(game, key, written, next, d + 1).0, s, i, d, k + 1)
  {
    hide KindOf, Visit, Lookup;
    assert MoveOk(game, s, d, k);
  }

  lemma {:induction false} SameBuild<S(!new), K(!new), L(!new)>(
      game: Game<S>, key: S -> K, other: S -> L, b: Build<S>, s: S, d: nat)
    requires GameOk(game) && game.good(s, d) && |b.nodes| == |b.origins|
    requires SameStates(game, key, other) && GoodOrigins(game, b.origins)
    ensures Visit(game, key, b, s, d) == Visit(game, other, b, s, d)
    ensures GoodOrigins(game, Visit(game, key, b, s, d).0.origins)
    decreases game.rank(s), 1, 0
  {
    SameLookup(game, key, other, b.origins, s, d);
    if Lookup(key, b.origins, s).None? {
      SameFill(game, key, other, Enter(game, b, s, d, Blank(game, s, d)), s, |b.nodes|, d, 0);
    }
  }

  lemma {:induction false} SameFill<S(!new), K(!new), L(!new)>(
      game: Game<S>, key: S -> K, other: S -> L, b: Build<S>, s: S, i: nat, d: nat, k: nat)
    requires GameOk(game) && game.good(s, d) && |b.nodes| == |b.origins|
    requires k <= |Moves(game, s, d)| && HasSlots(b, i, |Moves(game, s, d)|)
    requires SameStates(game, key, other) && GoodOrigins(game, b.origins)
    ensures Fill(game, key, b, s, i, d, k) == Fill(game, other, b, s, i, d, k)
    ensures GoodOrigins(game, Fill(game, key, b, s, i, d, k).origins)
    decreases game.rank(s), 0, |Moves(game, s, d)| - k, 1
  {
    hide *;
    if k == |Moves(game, s, d)| {
      FillEnds(game, key, b, s, i, d);
      FillEnds(game, other, b, s, i, d);
    } else {
      var after := SameSlot(game, key, other, b, s, i, d, k);
      SameFill(game, key, other, after, s, i, d, k + 1);
    }
  }

  lemma {:induction false} SameSlot<S(!new), K(!new), L(!new)>(
      game: Game<S>, key: S -> K, other: S -> L, b: Build<S>, s: S, i: nat, d: nat, k: nat) returns (after: Build<S>)
    requires GameOk(game) && game.good(s, d) && |b.nodes| == |b.origins|
    requires k < |Moves(game, s, d)| && HasSlots(b, i, |Moves(game, s, d)|)
    requires SameStates(game, key, other) && GoodOrigins(game, b.origins)
    ensures |after.nodes| == |after.origins| && HasSlots(after, i, |Moves(game, s, d)|)
            && GoodOrigins(game, after.origins)
    ensures Fill(game, key, b, s, i, d, k) == Fill(game, key, after, s, i, d, k + 1)
    ensures Fill(game, other, b, s, i, d, k) == Fill(game, other, after, s, i, d, k + 1)
    decreases game.rank(s), 0, |Moves(game, s, d)| - k, 0
  {
    hide Fill, Visit, Lookup, SameStates, GameOk, GoodOrigins, KindOf, Moves, IndexFor;
    FillStep(game, key, b, s, i, d, k);
    FillStep(game, other, b, s, i, d, k);
    var next := Next(game, s, d, k);
    SameIndex(game, key, other, b, next, d + 1);
    var written := Written(b, i, k, Moves(game, s, d)[k], IndexFor(key, b, next));
    SameBuild(game, key, other, written, next, d + 1);
    after := Visit(game, key, written, next, d + 1).0;
  }

  lemma FillEnds<S(!new), K>(game: Game<S>, key: S -> K, b: Build<S>, s: S, i: nat, d: nat)
    requires GameOk(game) && game.good(s, d) && |b.nodes| == |b.origins| && HasSlots(b, i, |Moves(game, s, d)|)
    ensures Fill(game, key, b, s, i, d, |Moves(game, s, d)|) == b
  {
    hide KindOf, Visit, Lookup;
  }

  lemma SameIndex<S(!new), K(!new), L(!new)>(game: Game<S>, key: S -> K, other: S -> L, b: Build<S>, s: S, d: nat)
    requires SameStates(game, key, other) && GoodOrigins(game, b.origins) && game.good(s, d)
    ensures IndexFor(key, b, s) == IndexFor(other, b, s)
  {
    SameLookup(game, key, other, b.origins, s, d);
  }

  // ---------------------------------------------------------------- what nodes keep of their states

  ghost predicate NodeShape<S(!new)>(game: Game<S>, node: Node, origin: Origin<S>) {
    && node.kind == KindOf(game, origin.state, origin.depth)
    && |node.moves| == |node.children| == |Moves(game, origin.state, origin.depth)|
  }

  ghost predicate Shaped<S(!new)>(game: Game<S>, b: Build<S>) {
    && |b.nodes| == |b.origins| && GoodOrigins(game, b.origins)
    && forall j :: 0 <= j < |b.nodes| ==> NodeShape(game, b.nodes[j], b.origins[j])
  }

  lemma WrittenShaped<S(!new)>(game: Game<S>, b: Build<S>, i: nat, k: nat, m: Move, c: nat)
    requires Shaped(game, b) && i < |b.nodes| && k < |b.nodes[i].moves| == |b.nodes[i].children|
    ensures Shaped(game, Written(b, i, k, m, c))
  {
    forall j | 0 <= j < |b.nodes| ensures NodeShape(game, Written(b, i, k, m, c).nodes[j], b.origins[j]) {
      assert NodeShape(game, b.nodes[j], b.origins[j]);
    }
  }

  lemma {:induction false} VisitShaped<S(!new), K>(game: Game<S>, key: S -> K, b: Build<S>, s: S, d: nat)
    requires GameOk(game) && game.good(s, d) && Shaped(game, b)
    ensures Shaped(game, Visit(game, key, b, s, d).0)
    ensures b.origins <= Visit(game, key, b, s, d).0.origins
    decreases game.rank(s), 1, 0
  {
    if Lookup(key, b.origins, s).None? {
      FillShaped(game, key, Enter(game, b, s, d, Blank(game, s, d)), s, |b.nodes|, d, 0);
    }
  }

  lemma {:induction false} FillShaped<S(!new), K>(game: Game<S>, key: S -> K, b: Build<S>, s: S, i: nat, d: nat, k: nat)
    requires GameOk(game) && game.good(s, d) && Shaped(game, b)
    requires k <= |Moves(game, s, d)| && HasSlots(b, i, |Moves(game, s, d)|)
    ensures Shaped(game, Fill(game, key, b, s, i, d, k))
    ensures b.origins <= Fill(game, key, b, s, i, d, k).origins
    decreases game.rank(s), 0, |Moves(game, s, d)| - k
  {
    if k < |Moves(game, s, d)| {
      assert MoveOk(game, s, d, k);
      var next := Next(game, s, d, k);
      var written := Written(b, i, k, Moves(game, s, d)[k], IndexFor(key, b, next));
      WrittenShaped(game, b, i, k, Moves(game, s, d)[k], IndexFor(key, b, next));
      VisitShaped(game, key, written, next, d + 1);
      FillShaped(game, key, Visit(game, key, written, next, d + 1).0, s, i, d, k + 1);
    }
  }

  // ---------------------------------------------------------------- layout of slots

  /** Writing slot `k` of node `i` in the flat arrays. */
  function WriteSlot(f: FlatGraph, i: nat, k: nat, m: Move, c: nat): (r: FlatGraph)
    requires i < |f.meta| && f.meta[i].childBegin + k < |f.children|
    requires f.meta[i].kind.Chance? ==> f.meta[i].chanceBegin + k < |f.chance|
    requires f.meta[i].kind.Decision? ==> f.meta[i].actionBegin + k < |f.actions|
    ensures IdsInRange(f) ==> IdsInRange(r)
  {
    var slots := f.(children := f.children[f.meta[i].childBegin + k := c]);
    if f.meta[i].kind.Chance? then
      slots.(chance := f.chance[f.meta[i].chanceBegin + k := ChanceEntry(m.action, m.probability, c, 1)])
    else if f.meta[i].kind.Decision? then
      slots.(actions := f.actions[f.meta[i].actionBegin + k := m.action])
    else slots
  }

  /** Where a placed node's slots lie in the flat arrays. */
  ghost predicate SlotsPlaced(f: FlatGraph, i: nat, node: Node) {
    && i < |f.meta| && f.meta[i].view == node.view && f.meta[i].value == node.value
    && (Inner(node.kind) ==>
          && f.meta[i].kind == (if node.kind.ChanceNode? then Chance else Decision)
          && f.meta[i].childCount == |node.children|
          && f.meta[i].childBegin + |node.children| <= |f.children|
          && f.children[f.meta[i].childBegin..f.meta[i].childBegin + |node.children|] == node.children)
    && (!Inner(node.kind) ==> f.meta[i].childBegin == 0 == f.meta[i].childCount)
    && (node.kind.ChanceNode? ==> f.meta[i].chanceBegin + |node.children| <= |f.chance|)
    && (node.kind.DecisionNode? ==> f.meta[i].actionBegin + |node.children| <= |f.actions|)
  }

  /** In the flat graph, the slots of every node hold that node's children. */
  lemma {:induction false} PlacedSlots(nodes: seq<Node>, i: nat)
    requires SlotsMatch(nodes) && PlaceAll(nodes).Some? && i < |nodes|
    ensures SlotsPlaced(PlaceAll(nodes).value, i, nodes[i])
  {
    var front := nodes[..|nodes| - 1];
    var before, f := PlaceAll(front).value, PlaceAll(nodes).value;
    if i < |front| {
      PlacedSlots(front, i);
      PlaceKeepsSlots(before, nodes[|nodes| - 1], i, nodes[i]);
    }
  }

  lemma PlaceKeepsSlots(f: FlatGraph, node: Node, i: nat, other: Node)
    requires |node.moves| == |node.children| && IdsInRange(f) && Place(f, node).Some?
    requires SlotsPlaced(f, i, other)
    ensures SlotsPlaced(Place(f, node).value, i, other)
  {
  }

  lemma UpdateThenAppend<T>(a: seq<T>, b: seq<T>, x: nat, v: T)
    requires x < |a|
    ensures a[x := v] + b == (a + b)[x := v]
  {
  }

  /** What appending a node does to the three slot arrays. */
  lemma PlaceAppends(f: FlatGraph, node: Node)
    requires |node.moves| == |node.children| && IdsInRange(f) && Place(f, node).Some?
    ensures var r := Place(f, node).value;
            && f.meta <= r.meta
            && r.children == f.children + (if Inner(node.kind) then node.children else [])
            && r.chance == f.chance + (if node.kind.ChanceNode? then Entries(node) else [])
            && r.actions == f.actions + (if node.kind.DecisionNode? then ActionsOf(node) else [])
  {
  }

  /** Placement reads only the lengths of the slot arrays, and everything else as it is. */
  lemma PlaceElsewhere(f: FlatGraph, g: FlatGraph, node: Node)
    requires |node.moves| == |node.children| && IdsInRange(f)
    requires g == f.(children := g.children, chance := g.chance, actions := g.actions)
    requires |g.children| == |f.children| && |g.chance| == |f.chance| && |g.actions| == |f.actions|
    ensures Place(g, node).Some? <==> Place(f, node).Some?
    ensures Place(f, node).Some? ==>
              var r, q := Place(f, node).value, Place(g, node).value;
              q == r.(children := q.children, chance := q.chance, actions := q.actions)
  {
  }

  /** Appending a node and writing an earlier slot commute. */
  lemma PlaceAfterWrite(f: FlatGraph, node: Node, i: nat, other: Node, k: nat, m: Move, c: nat)
    requires |node.moves| == |node.children| && IdsInRange(f)
    requires SlotsPlaced(f, i, other) && Inner(other.kind) && k < |other.children|
    ensures Place(WriteSlot(f, i, k, m, c), node).Some? <==> Place(f, node).Some?
    ensures Place(f, node).Some? ==>
              && SlotsPlaced(Place(f, node).value, i, other)
              && Place(WriteSlot(f, i, k, m, c), node).value == WriteSlot(Place(f, node).value, i, k, m, c)
  {
    hide Place;
    var g := WriteSlot(f, i, k, m, c);
    PlaceElsewhere(f, g, node);
    if Place(f, node).Some? {
      PlaceKeepsSlots(f, node, i, other);
      PlaceAppends(f, node);
      PlaceAppends(g, node);
      var r := Place(f, node).value;
      assert r.meta[i] == f.meta[i];
      UpdateThenAppend(f.children, if Inner(node.kind) then node.children else [], f.meta[i].childBegin + k, c);
      if other.kind.ChanceNode? {
        UpdateThenAppend(f.chance, if node.kind.ChanceNode? then Entries(node) else [], f.meta[i].chanceBegin + k,
                         ChanceEntry(m.action, m.probability, c, 1));
      } else {
        UpdateThenAppend(f.actions, if node.kind.DecisionNode? then ActionsOf(node) else [],
                         f.meta[i].actionBegin + k, m.action);
      }
    }
  }

  lemma PlaceWritten(f: FlatGraph, node: Node, k: nat, m: Move, c: nat)
    requires k < |node.moves| == |node.children| && IdsInRange(f) && Inner(node.kind)
    ensures Place(f, SetSlot(node, k, m, c)).Some? <==> Place(f, node).Some?
    ensures Place(f, node).Some? ==>
              && SlotsPlaced(Place(f, node).value, |f.meta|, node)
              && Place(f, SetSlot(node, k, m, c)).value == WriteSlot(Place(f, node).value, |f.meta|, k, m, c)
  {
    var r := SetSlot(node, k, m, c);
    assert Entries(r) == Entries(node)[k := ChanceEntry(m.action, m.probability, c, 1)];
    assert ActionsOf(r) == ActionsOf(node)[k := m.action];
    assert f.children + r.children == (f.children + node.children)[|f.children| + k := c];
  }

  /** Writing a slot of one node changes the laid-out graph in that slot alone. */
  lemma {:induction false} SlotWrite(nodes: seq<Node>, i: nat, k: nat, m: Move, c: nat)
    requires SlotsMatch(nodes) && i < |nodes| && k < |nodes[i].moves| && Inner(nodes[i].kind)
    ensures var after := nodes[i := SetSlot(nodes[i], k, m, c)];
            && SlotsMatch(after)
            && (PlaceAll(after).Some? <==> PlaceAll(nodes).Some?)
            && (PlaceAll(nodes).Some? ==>
                  && SlotsPlaced(PlaceAll(nodes).value, i, nodes[i])
                  && PlaceAll(after).value == WriteSlot(PlaceAll(nodes).value, i, k, m, c))
  {
    hide Place, WriteSlot;
    var after := nodes[i := SetSlot(nodes[i], k, m, c)];
    var last := |nodes| - 1;
    if i == last {
      assert after[..last] == nodes[..last];
      if PlaceAll(nodes[..last]).Some? {
        PlaceWritten(PlaceAll(nodes[..last]).value, nodes[last], k, m, c);
      }
    } else {
      SlotWrite(nodes[..last], i, k, m, c);
      assert after[..last] == nodes[..last][i := SetSlot(nodes[i], k, m, c)];
      if PlaceAll(nodes[..last]).Some? {
        PlaceAfterWrite(PlaceAll(nodes[..last]).value, nodes[last], i, nodes[i], k, m, c);
      }
    }
  }

  // ---------------------------------------------------------------- refusals stay refused

  lemma PlaceAllPrefix(nodes: seq<Node>, node: Node)
    requires SlotsMatch(nodes) && |node.moves| == |node.children|
    ensures SlotsMatch(nodes + [node])
    ensures PlaceAll(nodes + [node]) == match PlaceAll(nodes) case None => None case Some(f) => Place(f, node)
  {
    assert (nodes + [node])[..|nodes|] == nodes;
  }

  lemma ShapedMatches<S(!new)>(game: Game<S>, b: Build<S>)
    requires Shaped(game, b)
    ensures SlotsMatch(b.nodes)
  {
    forall i | 0 <= i < |b.nodes| ensures |b.nodes[i].moves| == |b.nodes[i].children| {
      assert NodeShape(game, b.nodes[i], b.origins[i]);
    }
  }

  lemma {:induction false} RefusalStays<S(!new), K>(game: Game<S>, key: S -> K, b: Build<S>, s: S, d: nat)
    requires GameOk(game) && game.good(s, d) && Shaped(game, b) && SlotsMatch(b.nodes) && PlaceAll(b.nodes).None?
    ensures Shaped(game, Visit(game, key, b, s, d).0) && SlotsMatch(Visit(game, key, b, s, d).0.nodes)
    ensures PlaceAll(Visit(game, key, b, s, d).0.nodes).None?
    decreases game.rank(s), 1, 0
  {
    hide Place;
    if Lookup(key, b.origins, s).None? {
      PlaceAllPrefix(b.nodes, Blank(game, s, d));
      FillRefusalStays(game, key, Enter(game, b, s, d, Blank(game, s, d)), s, |b.nodes|, d, 0);
    }
  }

  lemma {:induction false} FillRefusalStays<S(!new), K>(game: Game<S>, key: S -> K, b: Build<S>, s: S, i: nat, d: nat,
                                                        k: nat)
    requires GameOk(game) && game.good(s, d) && Shaped(game, b) && SlotsMatch(b.nodes) && PlaceAll(b.nodes).None?
    requires i < |b.nodes| && b.origins[i] == Origin(s, d)
    requires k <= |Moves(game, s, d)| && HasSlots(b, i, |Moves(game, s, d)|)
    ensures Shaped(game, Fill(game, key, b, s, i, d, k)) && SlotsMatch(Fill(game, key, b, s, i, d, k).nodes)
    ensures PlaceAll(Fill(game, key, b, s, i, d, k).nodes).None?
    decreases game.rank(s), 0, |Moves(game, s, d)| - k, 1
  {
    assert |b.nodes| == |b.origins|;
    hide *;
    if k == |Moves(game, s, d)| {
      FillEnds(game, key, b, s, i, d);
    } else {
      FillStep(game, key, b, s, i, d, k);
      var after := SlotRefusal(game, key, b, s, i, d, k);
      FillRefusalStays(game, key, after, s, i, d, k + 1);
    }
  }

  lemma {:induction false} SlotRefusal<S(!new), K>(game: Game<S>, key: S -> K, b: Build<S>, s: S, i: nat, d: nat,
                                                   k: nat)
    returns (after: Build<S>)
    requires GameOk(game) && game.good(s, d) && Shaped(game, b) && SlotsMatch(b.nodes) && PlaceAll(b.nodes).None?
    requires i < |b.nodes| && b.origins[i] == Origin(s, d)
    requires k < |Moves(game, s, d)| && HasSlots(b, i, |Moves(game, s, d)|)
    ensures Shaped(game, after) && SlotsMatch(after.nodes) && PlaceAll(after.nodes).None?
    ensures i < |after.nodes| && after.origins[i] == Origin(s, d) && HasSlots(after, i, |Moves(game, s, d)|)
    ensures Fill(game, key, b, s, i, d, k) == Fill(game, key, after, s, i, d, k + 1)
    decreases game.rank(s), 0, |Moves(game, s, d)| - k, 0
  {
    hide Place, WriteSlot, SlotsPlaced, KindOf, Moves, Fill, Visit, Lookup, PlaceAll, GameOk, IndexFor, SlotsMatch;
    FillStep(game, key, b, s, i, d, k);
    var next := Next(game, s, d, k);
    var m, c := Moves(game, s, d)[k], IndexFor(key, b, next);
    assert NodeShape(game, b.nodes[i], b.origins[i]);
    InnerWhenMoves(game, s, d, k);
    SlotWrite(b.nodes, i, k, m, c);
    WrittenShaped(game, b, i, k, m, c);
    hide Shaped, NodeShape, SetSlot;
    var written := Written(b, i, k, m, c);
    VisitShaped(game, key, written, next, d + 1);
    RefusalStays(game, key, written, next, d + 1);
    after := Visit(game, key, written, next, d + 1).0;
  }

  lemma InnerWhenMoves<S(!new)>(game: Game<S>, s: S, d: nat, k: nat)
    requires k < |Moves(game, s, d)|
    ensures Inner(KindOf(game, s, d))
  {
  }

  // ---------------------------------------------------------------- flattening

  /** Every chance state has an outcome to offer. */
  ghost predicate ChanceHasOutcomes<S(!new)>(game: Game<S>) {
    forall s, d: nat :: game.good(s, d) && KindOf(game, s, d).ChanceNode? ==> game.outcomes(s) != []
  }

  lemma {:induction false} FlattenIsPlacement<S(!new)>(game: Game<S>, b: Build<S>, n: nat)
    requires Shaped(game, b) && ChanceHasOutcomes(game) && n <= |b.nodes|
    ensures SlotsMatch(b.nodes[..n]) && FlattenAll(b.nodes[..n]) == PlaceAll(b.nodes[..n])
  {
    hide Place;
    ShapedMatches(game, b);
    if n > 0 {
      FlattenIsPlacement(game, b, n - 1);
      assert b.nodes[..n][..n - 1] == b.nodes[..n - 1];
      assert NodeShape(game, b.nodes[n - 1], b.origins[n - 1]);
      assert game.good(b.origins[n - 1].state, b.origins[n - 1].depth);
    }
  }
}
