/** When a list of nodes can be laid out as a flat graph: exactly when its information sets are consistent. */
module GraphPlacement {
  import opened Wrappers
  import opened GameTree

  /** Node `j` belongs to information set `key`. */
  predicate InSet(node: Node, key: string) {
    node.kind == DecisionNode(key)
  }

  /** A node no builder accepts: a terminal of no kind, or a decision without an action. */
  predicate Refused(node: Node) {
    node.kind.BadLeaf? || (node.kind.DecisionNode? && node.children == [])
  }

  ghost predicate NoneRefused(nodes: seq<Node>) {
    forall i :: 0 <= i < |nodes| ==> !Refused(nodes[i])
  }

  /** Nodes of one information set agree on player, street, board cards and number of actions. */
  ghost predicate Consistent(nodes: seq<Node>) {
    forall i, j :: 0 <= i < |nodes| && 0 <= j < |nodes|
                   && nodes[i].kind.DecisionNode? && nodes[j].kind == nodes[i].kind ==>
                     SignatureOf(nodes[i]) == SignatureOf(nodes[j])
  }

  ghost predicate SetHolds(f: FlatGraph, nodes: seq<Node>, key: string)
    requires IdsInRange(f)
  {
    if key in f.infosetIds then
      && (exists i :: 0 <= i < |nodes| && InSet(nodes[i], key))
      && (forall i :: 0 <= i < |nodes| && InSet(nodes[i], key) ==>
            SignatureOf(nodes[i]) == f.signatures[f.infosetIds[key]])
    else forall i :: 0 <= i < |nodes| ==> !InSet(nodes[i], key)
  }

  /** The information sets of a placed graph are those of its nodes, each with their common signature. */
  lemma {:induction false} PlacedSets(nodes: seq<Node>, key: string)
    requires SlotsMatch(nodes) && PlaceAll(nodes).Some?
    ensures SetHolds(PlaceAll(nodes).value, nodes, key)
  {
    hide Place, SetHolds;
    if nodes == [] {
      NoSets(key);
    } else {
      var front, last := nodes[..|nodes| - 1], nodes[|nodes| - 1];
      PlacedSets(front, key);
      PlaceKeepsSets(PlaceAll(front).value, front, last, key);
      assert nodes == front + [last];
    }
  }

  lemma NoSets(key: string)
    ensures SetHolds(EMPTY_GRAPH, [], key)
  {
  }

  lemma PlaceKeepsSets(f: FlatGraph, nodes: seq<Node>, node: Node, key: string)
    requires IdsInRange(f) && SetHolds(f, nodes, key) && |node.moves| == |node.children| && Place(f, node).Some?
    ensures SetHolds(Place(f, node).value, nodes + [node], key)
  {
    var g, all := Place(f, node).value, nodes + [node];
    forall i | 0 <= i < |nodes| ensures all[i] == nodes[i] {
    }
    if InSet(node, key) {
      assert key in g.infosetIds && g.signatures[g.infosetIds[key]] == SignatureOf(node) by {
        hide SignatureOf;
      }
      assert InSet(all[|nodes|], key);
    } else {
      assert key in g.infosetIds <==> key in f.infosetIds;
      if key in f.infosetIds {
        assert g.infosetIds[key] == f.infosetIds[key];
        assert g.signatures[g.infosetIds[key]] == f.signatures[f.infosetIds[key]];
        var i :| 0 <= i < |nodes| && InSet(nodes[i], key);
        assert InSet(all[i], key);
      }
    }
  }

  /** A node can be placed exactly when it is not refused and agrees with its information set. */
  lemma PlaceableExactly(f: FlatGraph, node: Node)
    requires IdsInRange(f) && |node.moves| == |node.children|
    ensures Place(f, node).Some? <==>
            !Refused(node) &&
            (node.kind.DecisionNode? && node.kind.key in f.infosetIds ==>
               f.signatures[f.infosetIds[node.kind.key]] == SignatureOf(node))
  {
    hide SignatureOf;
  }

  /** The layout succeeds if and only if no node is refused and every information set is consistent. */
  lemma {:induction false} PlaceAllExactly(nodes: seq<Node>)
    requires SlotsMatch(nodes)
    ensures PlaceAll(nodes).Some? <==> NoneRefused(nodes) && Consistent(nodes)
  {
    hide Place, SignatureOf;
    if nodes != [] {
      var front, last := nodes[..|nodes| - 1], nodes[|nodes| - 1];
      PlaceAllExactly(front);
      forall i | 0 <= i < |front| ensures front[i] == nodes[i] {
      }
      if PlaceAll(front).Some? {
        var f := PlaceAll(front).value;
        PlaceableExactly(f, last);
        if last.kind.DecisionNode? {
          PlacedSets(front, last.kind.key);
          LastAgrees(f, front, last);
        }
        assert forall i :: 0 <= i < |nodes| ==> (i < |front| && nodes[i] == front[i]) || nodes[i] == last;
      }
    }
  }

  /** The stored signature agrees with a node exactly when all its set's nodes do. */
  lemma LastAgrees(f: FlatGraph, front: seq<Node>, last: Node)
    requires IdsInRange(f) && last.kind.DecisionNode? && SetHolds(f, front, last.kind.key)
    ensures (last.kind.key in f.infosetIds ==> f.signatures[f.infosetIds[last.kind.key]] == SignatureOf(last)) <==>
            forall i :: 0 <= i < |front| && front[i].kind == last.kind ==> SignatureOf(front[i]) == SignatureOf(last)
  {
    hide SignatureOf;
    var key := last.kind.key;
    if key in f.infosetIds {
      var i :| 0 <= i < |front| && InSet(front[i], key);
      assert front[i].kind == last.kind;
    }
    assert forall i :: 0 <= i < |front| ==> (front[i].kind == last.kind <==> InSet(front[i], key));
  }
}
