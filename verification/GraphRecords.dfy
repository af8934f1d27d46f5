/**
 What a laid-out graph records, node by node: every record is its node's, every slot holds its node's action,
 probability and child, and the terminal lists name exactly the leaves of each kind.
 */
module GraphRecords {
  import opened Arithmetic
  import opened Wrappers
  import opened GameTree
  import opened GraphEquality
  import opened FlatBuilder
  import opened GraphTheorems

  // ---------------------------------------------------------------- one record

  /** A record without slots, which every leaf has. */
  predicate NoSlots(m: Meta) {
    && m.childBegin == 0 && m.childCount == 0 && m.actionBegin == 0 && m.actionCount == 0
    && m.chanceBegin == 0 && m.chanceCount == 0 && m.infoset == None
  }

  /** The child slots of a record name the node's children in order. */
  ghost predicate ChildrenShown(f: FlatGraph, node: Node, m: Meta) {
    && m.childCount == |node.children| && m.childBegin + m.childCount <= |f.children|
    && forall k :: 0 <= k < m.childCount ==> f.children[m.childBegin + k] == node.children[k]
  }

  /** The chance entries of a record give each outcome's card, its probability and where it leads. */
  ghost predicate OutcomesShown(f: FlatGraph, node: Node, m: Meta)
    requires |node.moves| == |node.children|
  {
    && m.chanceCount == |node.moves| && m.chanceBegin + m.chanceCount <= |f.chance|
    && forall k :: 0 <= k < m.chanceCount ==>
                     var entry := f.chance[m.chanceBegin + k];
                     && entry.action == node.moves[k].action && entry.probability == node.moves[k].probability
                     && entry.child == node.children[k] && entry.multiplicity == 1
  }

  /** The action slots of a record name the node's actions in order. */
  ghost predicate ActionsShown(f: FlatGraph, node: Node, m: Meta) {
    && m.actionCount == |node.moves| && m.actionBegin + m.actionCount <= |f.actions|
    && forall k :: 0 <= k < m.actionCount ==> f.actions[m.actionBegin + k] == node.moves[k].action
  }

  /** The record's information set is the one with this key, and shows what its nodes have in common. */
  ghost predicate SetShown(f: FlatGraph, node: Node, m: Meta, key: string) {
    && m.infoset.Some? && m.infoset.value < |f.infosetKeys| && |f.infosetKeys| == |f.signatures|
    && key in f.infosetIds && f.infosetIds[key] == m.infoset.value && f.infosetKeys[m.infoset.value] == key
    && var shared := f.signatures[m.infoset.value];
    && shared.actionCount == |node.moves| && shared.player == node.view.player
    && shared.street == node.view.street && shared.board == multiset(node.view.board)
  }

  ghost predicate RecordShows(f: FlatGraph, node: Node, m: Meta)
    requires |node.moves| == |node.children|
  {
    && m.view == node.view && m.value == node.value
    && match node.kind
       case BadLeaf => false
       case FoldLeaf => m.kind == TerminalFold && NoSlots(m)
       case ShowdownLeaf => m.kind == TerminalShowdown && NoSlots(m)
       case LimitLeaf => m.kind == DepthLimited && NoSlots(m)
       case ChanceNode =>
         && m.kind == Chance && m.actionBegin == 0 && m.actionCount == 0 && m.infoset == None
         && ChildrenShown(f, node, m) && OutcomesShown(f, node, m)
       case DecisionNode(key) =>
         && m.kind == Decision && m.chanceBegin == 0 && m.chanceCount == 0 && m.actionCount > 0
         && ChildrenShown(f, node, m) && ActionsShown(f, node, m) && SetShown(f, node, m, key)
  }

  /** `g` has everything `f` has, and more behind it. */
  ghost predicate Extends(f: FlatGraph, g: FlatGraph) {
    && f.meta <= g.meta && f.children <= g.children && f.actions <= g.actions && f.chance <= g.chance
    && f.infosetKeys <= g.infosetKeys && f.signatures <= g.signatures
    && |f.infosetKeys| == |f.signatures| && |g.infosetKeys| == |g.signatures|
    && forall key :: key in f.infosetIds ==> key in g.infosetIds && g.infosetIds[key] == f.infosetIds[key]
  }

  lemma PlaceExtends(f: FlatGraph, node: Node)
    requires |node.moves| == |node.children| && IdsInRange(f) && Place(f, node).Some?
    ensures Extends(f, Place(f, node).value)
  {
    hide SignatureOf, Entries, ActionsOf;
  }

  lemma RecordStays(f: FlatGraph, g: FlatGraph, node: Node, m: Meta)
    requires |node.moves| == |node.children| && Extends(f, g) && RecordShows(f, node, m)
    ensures RecordShows(g, node, m)
  {
  }

  /** Keys and ids of the information sets are inverse to each other. */
  ghost predicate KeysInverse(f: FlatGraph) {
    IdsInRange(f) && forall key :: key in f.infosetIds ==> f.infosetKeys[f.infosetIds[key]] == key
  }

  lemma PlacedMeta(f: FlatGraph, node: Node)
    requires |node.moves| == |node.children| && IdsInRange(f) && Place(f, node).Some?
    ensures var g, n := Place(f, node).value, |node.children|;
            && |g.meta| == |f.meta| + 1
            && var m := g.meta[|f.meta|];
            && (Inner(node.kind) ==> m.childBegin == |f.children| && m.childCount == n)
            && (node.kind.ChanceNode? ==> m.chanceBegin == |f.chance| && m.chanceCount == n)
            && (node.kind.DecisionNode? ==> m.actionBegin == |f.actions| && m.actionCount == n > 0)
  {
    hide SignatureOf, Entries, ActionsOf;
  }

  lemma PlaceShowsSlots(f: FlatGraph, node: Node)
    requires |node.moves| == |node.children| && IdsInRange(f) && Place(f, node).Some?
    ensures var g := Place(f, node).value;
            && |g.meta| == |f.meta| + 1
            && var m := g.meta[|f.meta|];
            && (node.kind.ChanceNode? ==> ChildrenShown(g, node, m) && OutcomesShown(g, node, m))
            && (node.kind.DecisionNode? ==> m.actionCount > 0 && ChildrenShown(g, node, m) && ActionsShown(g, node, m))
  {
    PlacedMeta(f, node);
    PlaceAppends(f, node);
    hide Place;
  }

  lemma PlaceShowsSet(f: FlatGraph, node: Node)
    requires |node.moves| == |node.children| && KeysInverse(f) && Place(f, node).Some?
    ensures var g := Place(f, node).value;
            && KeysInverse(g) && |g.meta| == |f.meta| + 1
            && (node.kind.DecisionNode? ==> SetShown(g, node, g.meta[|f.meta|], node.kind.key))
  {
    hide Entries, ActionsOf;
  }

  lemma PlaceShows(f: FlatGraph, node: Node)
    requires |node.moves| == |node.children| && KeysInverse(f) && Place(f, node).Some?
    ensures var g := Place(f, node).value;
            KeysInverse(g) && |g.meta| == |f.meta| + 1 && RecordShows(g, node, g.meta[|f.meta|])
  {
    PlaceShowsSlots(f, node);
    PlaceShowsSet(f, node);
    hide SetShown, ChildrenShown, ActionsShown, OutcomesShown, SignatureOf, KeysInverse, Entries, ActionsOf;
  }

  // ---------------------------------------------------------------- all records

  ghost predicate AllShown(f: FlatGraph, nodes: seq<Node>)
    requires SlotsMatch(nodes)
  {
    |f.meta| == |nodes| && forall i :: 0 <= i < |nodes| ==> RecordShows(f, nodes[i], f.meta[i])
  }

  /** Every record of a laid-out graph shows its node: kind, view, value, slots and information set. */
  lemma {:induction false} RecordsExactly(nodes: seq<Node>)
    requires SlotsMatch(nodes) && PlaceAll(nodes).Some?
    ensures KeysInverse(PlaceAll(nodes).value) && AllShown(PlaceAll(nodes).value, nodes)
  {
    hide Place, RecordShows, KeysInverse, Extends;
    if nodes == [] {
      NothingPlaced();
    } else {
      var front, last := nodes[..|nodes| - 1], nodes[|nodes| - 1];
      RecordsExactly(front);
      var f, g := PlaceAll(front).value, PlaceAll(nodes).value;
      PlaceShows(f, last);
      PlaceExtends(f, last);
      forall i | 0 <= i < |front| ensures RecordShows(g, nodes[i], g.meta[i]) {
        ExtendedRecord(f, g, i);
        RecordStays(f, g, front[i], f.meta[i]);
      }
    }
  }

  lemma NothingPlaced()
    ensures KeysInverse(EMPTY_GRAPH)
  {
  }

  lemma ExtendedRecord(f: FlatGraph, g: FlatGraph, i: nat)
    requires Extends(f, g) && i < |f.meta|
    ensures i < |g.meta| && g.meta[i] == f.meta[i]
  {
  }

  // ---------------------------------------------------------------- the terminal lists

  predicate IsFold(node: Node) {
    node.kind == FoldLeaf
  }

  predicate IsShowdown(node: Node) {
    node.kind == ShowdownLeaf
  }

  predicate IsLeaf(node: Node) {
    node.kind == FoldLeaf || node.kind == ShowdownLeaf || node.kind == LimitLeaf
  }

  /** `list` names exactly the nodes with the property, in index order, and `values` gives the value of each. */
  ghost predicate ListsThose(list: seq<nat>, values: seq<real>, nodes: seq<Node>, those: Node -> bool) {
    && |list| == |values|
    && (forall i, j :: 0 <= i < j < |list| ==> list[i] < list[j])
    && (forall i: nat :: i in list <==> i < |nodes| && those(nodes[i]))
    && forall j :: 0 <= j < |list| ==> list[j] < |nodes| && values[j] == nodes[list[j]].value
  }

  lemma ListsAfter(list: seq<nat>, values: seq<real>, nodes: seq<Node>, node: Node, those: Node -> bool)
    requires ListsThose(list, values, nodes, those)
    ensures those(node) ==> ListsThose(list + [|nodes|], values + [node.value], nodes + [node], those)
    ensures !those(node) ==> ListsThose(list, values, nodes + [node], those)
  {
    var all, longer := nodes + [node], list + [|nodes|];
    assert forall i: nat :: i < |nodes| ==> all[i] == nodes[i];
    forall i: nat ensures i in longer <==> i in list || i == |nodes| {
      assert longer[|list|] == |nodes|;
      if i in list {
        var j :| 0 <= j < |list| && list[j] == i;
        assert longer[j] == i;
      }
    }
  }

  /** Folds, showdowns and all leaves are listed in index order, each with its value. */
  lemma {:induction false} TerminalsExactly(nodes: seq<Node>)
    requires SlotsMatch(nodes) && PlaceAll(nodes).Some?
    ensures var f := PlaceAll(nodes).value;
            && ListsThose(f.folds, f.foldValues, nodes, IsFold)
            && ListsThose(f.showdowns, f.showdownValues, nodes, IsShowdown)
            && ListsThose(f.terminals, f.terminalValues, nodes, IsLeaf)
  {
    hide ListsThose, Place;
    if nodes == [] {
      NothingListed();
    } else {
      var front, last := nodes[..|nodes| - 1], nodes[|nodes| - 1];
      TerminalsExactly(front);
      var f := PlaceAll(front).value;
      assert nodes == front + [last];
      ListsAfter(f.folds, f.foldValues, front, last, IsFold);
      ListsAfter(f.showdowns, f.showdownValues, front, last, IsShowdown);
      ListsAfter(f.terminals, f.terminalValues, front, last, IsLeaf);
      PlaceLists(f, last);
    }
  }

  lemma NothingListed()
    ensures forall those :: ListsThose([], [], [], those)
  {
  }

  lemma PlaceLists(f: FlatGraph, node: Node)
    requires |node.moves| == |node.children| && IdsInRange(f) && Place(f, node).Some?
    ensures var g, n := Place(f, node).value, |f.meta|;
            && g.folds == (if IsFold(node) then f.folds + [n] else f.folds)
            && g.foldValues == (if IsFold(node) then f.foldValues + [node.value] else f.foldValues)
            && g.showdowns == (if IsShowdown(node) then f.showdowns + [n] else f.showdowns)
            && g.showdownValues == (if IsShowdown(node) then f.showdownValues + [node.value] else f.showdownValues)
            && g.terminals == (if IsLeaf(node) then f.terminals + [n] else f.terminals)
            && g.terminalValues == (if IsLeaf(node) then f.terminalValues + [node.value] else f.terminalValues)
  {
  }

  // ---------------------------------------------------------------- nothing else is stored

  function ChildTotal(nodes: seq<Node>, chance: bool, decision: bool): nat {
    if nodes == [] then 0
    else
      var last := nodes[|nodes| - 1];
      ChildTotal(nodes[..|nodes| - 1], chance, decision)
      + if (chance && last.kind.ChanceNode?) || (decision && last.kind.DecisionNode?) then |last.children| else 0
  }

  lemma PlaceLengths(f: FlatGraph, node: Node)
    requires |node.moves| == |node.children| && IdsInRange(f) && Place(f, node).Some?
    ensures var g, n := Place(f, node).value, |node.children|;
            && |g.children| == |f.children| + (if node.kind.ChanceNode? || node.kind.DecisionNode? then n else 0)
            && |g.chance| == |f.chance| + (if node.kind.ChanceNode? then n else 0)
            && |g.actions| == |f.actions| + (if node.kind.DecisionNode? then n else 0)
            && |g.meta| == |f.meta| + 1
            && var m := g.meta[|f.meta|];
            && (m.kind.Chance? || m.kind.Decision? ==> m.childBegin == |f.children|)
            && (m.kind.Chance? ==> m.chanceBegin == |f.chance|) && (m.kind.Decision? ==> m.actionBegin == |f.actions|)
  {
  }

  /** The slot arrays are as long as the nodes' children, and the slots of each node follow those before it. */
  lemma {:induction false} ArraysHoldNoMore(nodes: seq<Node>)
    requires SlotsMatch(nodes) && PlaceAll(nodes).Some?
    ensures var f := PlaceAll(nodes).value;
            && |f.children| == ChildTotal(nodes, true, true)
            && |f.chance| == ChildTotal(nodes, true, false) && |f.actions| == ChildTotal(nodes, false, true)
            && (nodes != [] ==>
                  var m, before := f.meta[|nodes| - 1], nodes[..|nodes| - 1];
                  && (m.kind.Chance? || m.kind.Decision? ==> m.childBegin == ChildTotal(before, true, true))
                  && (m.kind.Chance? ==> m.chanceBegin == ChildTotal(before, true, false))
                  && (m.kind.Decision? ==> m.actionBegin == ChildTotal(before, false, true)))
  {
    hide Place;
    if nodes != [] {
      ArraysHoldNoMore(nodes[..|nodes| - 1]);
      PlaceLengths(PlaceAll(nodes[..|nodes| - 1]).value, nodes[|nodes| - 1]);
    }
  }

  /** Everything the arrays say of the nodes. */
  ghost predicate LaidOut(f: FlatGraph, nodes: seq<Node>)
    requires SlotsMatch(nodes)
  {
    && AllShown(f, nodes)
    && ListsThose(f.folds, f.foldValues, nodes, IsFold)
    && ListsThose(f.showdowns, f.showdownValues, nodes, IsShowdown)
    && ListsThose(f.terminals, f.terminalValues, nodes, IsLeaf)
    && |f.children| == ChildTotal(nodes, true, true)
    && |f.chance| == ChildTotal(nodes, true, false) && |f.actions| == ChildTotal(nodes, false, true)
  }

  lemma PlacedIsLaidOut(nodes: seq<Node>)
    requires SlotsMatch(nodes) && PlaceAll(nodes).Some?
    ensures LaidOut(PlaceAll(nodes).value, nodes)
  {
    hide PlaceAll, AllShown, ListsThose, ChildTotal;
    RecordsExactly(nodes);
    TerminalsExactly(nodes);
    ArraysHoldNoMore(nodes);
  }

  // ---------------------------------------------------------------- the running maxima

  ghost predicate Chooses<S(!new)>(game: Game<S>, origin: Origin<S>) {
    KindOf(game, origin.state, origin.depth).DecisionNode?
  }

  /** The depth is the largest of any node, the action count the largest of any decision, zero without one. */
  ghost predicate MaximaOk<S(!new)>(game: Game<S>, b: Build<S>) {
    && (forall i :: 0 <= i < |b.origins| ==> b.origins[i].depth <= b.maxDepth)
    && (b.maxDepth == 0 || exists i :: 0 <= i < |b.origins| && b.origins[i].depth == b.maxDepth)
    && (forall i :: 0 <= i < |b.origins| && Chooses(game, b.origins[i]) ==>
          |Moves(game, b.origins[i].state, b.origins[i].depth)| <= b.maxActions)
    && (b.maxActions == 0 || exists i :: 0 <= i < |b.origins| && Chooses(game, b.origins[i])
                                         && |Moves(game, b.origins[i].state, b.origins[i].depth)| == b.maxActions)
  }

  lemma EnterMaxima<S(!new)>(game: Game<S>, b: Build<S>, s: S, d: nat, node: Node)
    requires MaximaOk(game, b)
    ensures MaximaOk(game, Enter(game, b, s, d, node))
  {
    hide KindOf, Moves;
    var r := Enter(game, b, s, d, node);
    var last := |b.origins|;
    assert r.origins[last] == Origin(s, d);
    assert forall i :: 0 <= i < last ==> r.origins[i] == b.origins[i];
    if r.maxDepth == b.maxDepth && b.maxDepth != 0 {
      var i :| 0 <= i < last && b.origins[i].depth == b.maxDepth;
      assert r.origins[i].depth == r.maxDepth;
    } else {
      assert r.origins[last].depth == r.maxDepth;
    }
    if r.maxActions == b.maxActions && b.maxActions != 0 {
      var i :| 0 <= i < last && Chooses(game, b.origins[i])
               && |Moves(game, b.origins[i].state, b.origins[i].depth)| == b.maxActions;
      assert Chooses(game, r.origins[i]);
    } else if r.maxActions != 0 {
      assert Chooses(game, r.origins[last]);
    }
  }

  lemma {:induction false} BuildMaxima<S(!new), K>(game: Game<S>, key: S -> K, b: Build<S>, s: S, d: nat)
    requires GameOk(game) && game.good(s, d) && |b.nodes| == |b.origins| && MaximaOk(game, b)
    ensures MaximaOk(game, BuildNode(game, key, b, s, d).0)
    decreases game.rank(s), 1, 0
  {
    hide MaximaOk, KindOf, Moves;
    if Lookup(key, b.origins, s).None? {
      var entered := Enter(game, b, s, d, Bare(game, s));
      EnterMaxima(game, b, s, d, Bare(game, s));
      ChildrenMaxima(game, key, entered, s, d, 0);
      var built := BuildChildren(game, key, entered, s, d, 0);
      SameMaxima(game, built.0, built.0.nodes[|b.nodes| := Full(game, s, d, built.1)]);
    }
  }

  lemma SameMaxima<S(!new)>(game: Game<S>, b: Build<S>, nodes: seq<Node>)
    requires MaximaOk(game, b)
    ensures MaximaOk(game, b.(nodes := nodes))
  {
  }

  lemma {:induction false} ChildrenMaxima<S(!new), K>(game: Game<S>, key: S -> K, b: Build<S>, s: S, d: nat, k: nat)
    requires GameOk(game) && game.good(s, d) && |b.nodes| == |b.origins| && k <= |Moves(game, s, d)|
    requires MaximaOk(game, b)
    ensures MaximaOk(game, BuildChildren(game, key, b, s, d, k).0)
    decreases game.rank(s), 0, |Moves(game, s, d)| - k
  {
    hide MaximaOk, KindOf;
    if k < |Moves(game, s, d)| {
      assert MoveOk(game, s, d, k);
      BuildMaxima(game, key, b, Next(game, s, d, k), d + 1);
      ChildrenMaxima(game, key, BuildNode(game, key, b, Next(game, s, d, k), d + 1).0, s, d, k + 1);
    }
  }

  /** The maxima both builders report are those of the finished tree. */
  lemma MaximaExactly<S(!new), K>(game: Game<S>, key: S -> K)
    requires GameOk(game)
    ensures MaximaOk(game, TreeOf(game, key))
  {
    hide MaximaOk;
    NoMaxima(game);
    BuildMaxima(game, key, EmptyBuild<S>(), game.root, 0);
  }

  lemma NoMaxima<S(!new)>(game: Game<S>)
    ensures MaximaOk(game, EmptyBuild<S>())
  {
  }
}
