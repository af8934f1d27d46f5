/**
 The memoised game graph as a value: what a node records, how the two builders visit states, and
 how nodes are laid out in the flat graph's arrays.
 */
module GameTree {
  import opened Arithmetic
  import opened Wrappers
  import opened CommonTypes

  // ---------------------------------------------------------------- the game

  type StreetNumber = n: nat | n < STREETS

  datatype View = View(player: int, street: StreetNumber, board: seq<nat>, contributions: (int, int))

  /** One outgoing edge: an action, and its probability when chance moves. */
  datatype Move = Move(action: int, probability: real)

  datatype TerminalTag = NotTerminal | FoldTag | ShowdownTag

  /**
   A finite game.  `good(s, d)` holds of the states reachable in `d` plies, and `rank` falls with
   every move from such a state.
   */
  datatype Game<!S> = Game(
    root: S,
    terminal: S -> bool,
    terminalTag: S -> TerminalTag,
    value: S -> real,
    chance: S -> bool,
    outcomes: S -> seq<Move>,
    actions: S -> seq<int>,
    apply: (S, int) -> S,
    view: S -> View,
    infosetKey: S -> string,
    depthLimit: nat,
    good: (S, nat) -> bool,
    rank: S -> nat)

  /** What all nodes of an information set must share besides their action count. */
  datatype Signature = Signature(actionCount: nat, player: int, street: nat, board: multiset<nat>)

  datatype Kind = FoldLeaf | ShowdownLeaf | BadLeaf | LimitLeaf | ChanceNode | DecisionNode(key: string)

  function KindOf<S>(game: Game<S>, s: S, d: nat): Kind {
    if game.terminal(s) then
      match game.terminalTag(s)
      case FoldTag => FoldLeaf
      case ShowdownTag => ShowdownLeaf
      case NotTerminal => BadLeaf
    else if game.depthLimit != 0 && d >= game.depthLimit then LimitLeaf
    else if game.chance(s) then ChanceNode
    else DecisionNode(game.infosetKey(s))
  }

  predicate Inner(kind: Kind) {
    kind.ChanceNode? || kind.DecisionNode?
  }

  function Moves<S>(game: Game<S>, s: S, d: nat): seq<Move> {
    var kind := KindOf(game, s, d);
    if kind.ChanceNode? then game.outcomes(s)
    else if kind.DecisionNode? then
      seq(|game.actions(s)|, k requires 0 <= k < |game.actions(s)| => Move(game.actions(s)[k], 0.0))
    else []
  }

  function Next<S>(game: Game<S>, s: S, d: nat, k: nat): S
    requires k < |Moves(game, s, d)|
  {
    game.apply(s, Moves(game, s, d)[k].action)
  }

  ghost predicate MoveOk<S>(game: Game<S>, s: S, d: nat, k: nat)
    requires k < |Moves(game, s, d)|
  {
    game.good(Next(game, s, d, k), d + 1) && game.rank(Next(game, s, d, k)) < game.rank(s)
  }

  ghost predicate GameOk<S(!new)>(game: Game<S>) {
    && game.good(game.root, 0)
    && forall s, d: nat, k: nat :: game.good(s, d) && k < |Moves(game, s, d)| ==> MoveOk(game, s, d, k)
  }

  // ---------------------------------------------------------------- nodes

  datatype Node = Node(view: View, kind: Kind, value: real, moves: seq<Move>, children: seq<nat>)

  datatype Origin<S> = Origin(state: S, depth: nat)

  /** Nodes built so far, the state and depth each was built from, and the running maxima. */
  datatype Build<S> = Build(nodes: seq<Node>, origins: seq<Origin<S>>, maxDepth: nat, maxActions: nat)

  const NO_MOVE := Move(0, 0.0)

  function NodeView<S>(game: Game<S>, s: S): View {
    if game.terminal(s) then game.view(s).(player := -2) else game.view(s)
  }

  function NodeValue<S>(game: Game<S>, s: S): real {
    if game.terminal(s) then game.value(s) else 0.0
  }

  /** A node whose child slots are reserved and not yet written. */
  function Blank<S>(game: Game<S>, s: S, d: nat): (node: Node)
    ensures |node.moves| == |node.children| == |Moves(game, s, d)|
  {
    var n := |Moves(game, s, d)|;
    Node(NodeView(game, s), KindOf(game, s, d), NodeValue(game, s), seq(n, _ => NO_MOVE), seq(n, _ => 0))
  }

  /** The finished node of a state, given its children. */
  function Full<S>(game: Game<S>, s: S, d: nat, children: seq<nat>): Node {
    Node(NodeView(game, s), KindOf(game, s, d), NodeValue(game, s), Moves(game, s, d), children)
  }

  /** The lowest node whose state has the memo key of `s`. */
  function Lookup<S, K(==)>(key: S -> K, origins: seq<Origin<S>>, s: S): (r: Option<nat>)
    ensures r.Some? ==> r.value < |origins| && key(origins[r.value].state) == key(s)
    ensures r.None? ==> forall i :: 0 <= i < |origins| ==> key(origins[i].state) != key(s)
  {
    if origins == [] then None
    else
      match Lookup(key, origins[..|origins| - 1], s)
      case Some(i) => Some(i)
      case None => if key(origins[|origins| - 1].state) == key(s) then Some(|origins| - 1) else None
  }

  function Enter<S>(game: Game<S>, b: Build<S>, s: S, d: nat, node: Node): Build<S> {
    Build(b.nodes + [node], b.origins + [Origin(s, d)], Max(b.maxDepth, d),
          if KindOf(game, s, d).DecisionNode? then Max(b.maxActions, |Moves(game, s, d)|) else b.maxActions)
  }

  function SetSlot(node: Node, k: nat, m: Move, c: nat): (r: Node)
    requires k < |node.moves| == |node.children|
    ensures |r.moves| == |node.moves| && |r.children| == |node.children|
  {
    node.(moves := node.moves[k := m], children := node.children[k := c])
  }

  /** `r` is `b` with more nodes after the old ones, none of which lost a slot. */
  ghost predicate Grows<S>(b: Build<S>, r: Build<S>) {
    && |r.nodes| >= |b.nodes| && |r.origins| >= |b.origins|
    && forall i :: 0 <= i < |b.nodes| ==>
                     |r.nodes[i].moves| == |b.nodes[i].moves| && |r.nodes[i].children| == |b.nodes[i].children|
  }

  ghost predicate HasSlots(b: Build, i: nat, n: nat) {
    i < |b.nodes| && |b.nodes[i].moves| == |b.nodes[i].children| == n
  }

  // ---------------------------------------------------------------- the explicit-stack visit

  /** Find or create the node of `s`, slots reserved first and written one by one. */
  function Visit<S(!new), K(==)>(game: Game<S>, key: S -> K, b: Build<S>, s: S, d: nat): (r: (Build<S>, nat))
    requires GameOk(game) && game.good(s, d) && |b.nodes| == |b.origins|
    ensures Grows(b, r.0) && |r.0.nodes| == |r.0.origins| && r.1 < |r.0.nodes|
    decreases game.rank(s), 1, 0
  {
    match Lookup(key, b.origins, s)
    case Some(i) => (b, i)
    case None =>
      (Fill(game, key, Enter(game, b, s, d, Blank(game, s, d)), s, |b.nodes|, d, 0), |b.nodes|)
  }

  /** The node index `s` has, or will have when it is created next. */
  function IndexFor<S, K(==)>(key: S -> K, b: Build<S>, s: S): nat {
    match Lookup(key, b.origins, s)
    case Some(j) => j
    case None => |b.nodes|
  }

  function Written<S>(b: Build<S>, i: nat, k: nat, m: Move, c: nat): Build<S>
    requires i < |b.nodes| && k < |b.nodes[i].moves| == |b.nodes[i].children|
  {
    b.(nodes := b.nodes[i := SetSlot(b.nodes[i], k, m, c)])
  }

  /** Visits the children of node `i` from slot `k` on, each slot written before its child is expanded. */
  function Fill<S(!new), K(==)>(game: Game<S>, key: S -> K, b: Build<S>, s: S, i: nat, d: nat, k: nat): (r: Build<S>)
    requires GameOk(game) && game.good(s, d) && |b.nodes| == |b.origins|
    requires k <= |Moves(game, s, d)| && HasSlots(b, i, |Moves(game, s, d)|)
    ensures Grows(b, r) && |r.nodes| == |r.origins|
    decreases game.rank(s), 0, |Moves(game, s, d)| - k
  {
    if k == |Moves(game, s, d)| then b
    else
      assert MoveOk(game, s, d, k);
      var next := Next(game, s, d, k);
      var written := Written(b, i, k, Moves(game, s, d)[k], IndexFor(key, b, next));
      Fill(game, key, Visit(game, key, written, next, d + 1).0, s, i, d, k + 1)
  }

  // ---------------------------------------------------------------- the recursive visit

  const BARE_KIND := DecisionNode("")

  /** The node the recursive builder pushes before it knows anything but the public view. */
  function Bare<S>(game: Game<S>, s: S): Node {
    Node(game.view(s), BARE_KIND, 0.0, [], [])
  }

  /** build_node: pushes a bare node, visits the children, and writes the node back complete. */
  function BuildNode<S(!new), K(==)>(game: Game<S>, key: S -> K, b: Build<S>, s: S, d: nat): (r: (Build<S>, nat))
    requires GameOk(game) && game.good(s, d) && |b.nodes| == |b.origins|
    ensures |r.0.nodes| >= |b.nodes| && |r.0.nodes| == |r.0.origins| && r.1 < |r.0.nodes|
    decreases game.rank(s), 1, 0
  {
    match Lookup(key, b.origins, s)
    case Some(i) => (b, i)
    case None =>
      var i := |b.nodes|;
      var built := BuildChildren(game, key, Enter(game, b, s, d, Bare(game, s)), s, d, 0);
      (built.0.(nodes := built.0.nodes[i := Full(game, s, d, built.1)]), i)
  }

  function BuildChildren<S(!new), K(==)>(game: Game<S>, key: S -> K, b: Build<S>, s: S, d: nat, k: nat)
    : (r: (Build<S>, seq<nat>))
    requires GameOk(game) && game.good(s, d) && |b.nodes| == |b.origins|
    requires k <= |Moves(game, s, d)|
    ensures |r.0.nodes| >= |b.nodes| && |r.0.nodes| == |r.0.origins|
    ensures |r.1| == |Moves(game, s, d)| - k
    decreases game.rank(s), 0, |Moves(game, s, d)| - k
  {
    if k == |Moves(game, s, d)| then (b, [])
    else
      assert MoveOk(game, s, d, k);
      var first := BuildNode(game, key, b, Next(game, s, d, k), d + 1);
      var rest := BuildChildren(game, key, first.0, s, d, k + 1);
      (rest.0, [first.1] + rest.1)
  }

  // ---------------------------------------------------------------- the flat graph

  datatype FlatKind = TerminalFold | TerminalShowdown | DepthLimited | Chance | Decision

  datatype Meta = Meta(
    view: View,
    kind: FlatKind,
    value: real,
    childBegin: nat,
    childCount: nat,
    actionBegin: nat,
    actionCount: nat,
    chanceBegin: nat,
    chanceCount: nat,
    infoset: Option<nat>)

  datatype ChanceEntry = ChanceEntry(action: int, probability: real, child: nat, multiplicity: nat)

  datatype FlatGraph = FlatGraph(
    meta: seq<Meta>,
    children: seq<nat>,
    actions: seq<int>,
    chance: seq<ChanceEntry>,
    infosetIds: map<string, nat>,
    infosetKeys: seq<string>,
    signatures: seq<Signature>,
    infosetNodes: seq<seq<nat>>,
    terminals: seq<nat>,
    terminalValues: seq<real>,
    folds: seq<nat>,
    foldValues: seq<real>,
    showdowns: seq<nat>,
    showdownValues: seq<real>)

  const EMPTY_GRAPH := FlatGraph([], [], [], [], map[], [], [], [], [], [], [], [], [], [])

  function Entries(node: Node): (r: seq<ChanceEntry>)
    requires |node.moves| == |node.children|
    ensures |r| == |node.children|
  {
    seq(|node.children|, k requires 0 <= k < |node.children| =>
      ChanceEntry(node.moves[k].action, node.moves[k].probability, node.children[k], 1))
  }

  function ActionsOf(node: Node): (r: seq<int>)
    ensures |r| == |node.moves|
  {
    seq(|node.moves|, k requires 0 <= k < |node.moves| => node.moves[k].action)
  }

  function LeafMeta(node: Node, kind: FlatKind): Meta {
    Meta(node.view, kind, node.value, 0, 0, 0, 0, 0, 0, None)
  }

  function SignatureOf(node: Node): Signature {
    Signature(|node.moves|, node.view.player, node.view.street, multiset(node.view.board))
  }

  ghost predicate IdsInRange(f: FlatGraph) {
    && |f.infosetKeys| == |f.signatures| == |f.infosetNodes|
    && forall key :: key in f.infosetIds ==> f.infosetIds[key] < |f.infosetKeys|
  }

  /** Adds a decision node to its information set, which must agree with it. */
  function JoinInfoset(f: FlatGraph, key: string, signature: Signature): (r: Option<(FlatGraph, nat)>)
    requires IdsInRange(f)
    ensures r.Some? ==> IdsInRange(r.value.0)
  {
    if key !in f.infosetIds then
      var id := |f.infosetKeys|;
      Some((f.(infosetIds := f.infosetIds[key := id], infosetKeys := f.infosetKeys + [key],
               signatures := f.signatures + [signature], infosetNodes := f.infosetNodes + [[|f.meta|]]), id))
    else
      var id := f.infosetIds[key];
      if f.signatures[id] != signature then None
      else Some((f.(infosetNodes := f.infosetNodes[id := f.infosetNodes[id] + [|f.meta|]]), id))
  }

  /** Appends one node to the arrays, as both builders do; None is their refusal. */
  function Place(f: FlatGraph, node: Node): (r: Option<FlatGraph>)
    requires |node.moves| == |node.children| && IdsInRange(f)
    ensures r.Some? ==> IdsInRange(r.value)
  {
    var n := |node.children|;
    match node.kind
    case BadLeaf => None
    case FoldLeaf =>
      Some(f.(meta := f.meta + [LeafMeta(node, TerminalFold)],
              terminals := f.terminals + [|f.meta|], terminalValues := f.terminalValues + [node.value],
              folds := f.folds + [|f.meta|], foldValues := f.foldValues + [node.value]))
    case ShowdownLeaf =>
      Some(f.(meta := f.meta + [LeafMeta(node, TerminalShowdown)],
              terminals := f.terminals + [|f.meta|], terminalValues := f.terminalValues + [node.value],
              showdowns := f.showdowns + [|f.meta|], showdownValues := f.showdownValues + [node.value]))
    case LimitLeaf =>
      Some(f.(meta := f.meta + [LeafMeta(node, DepthLimited)],
              terminals := f.terminals + [|f.meta|], terminalValues := f.terminalValues + [node.value]))
    case ChanceNode =>
      Some(f.(meta := f.meta + [Meta(node.view, Chance, node.value, |f.children|, n, 0, 0, |f.chance|, n, None)],
              children := f.children + node.children, chance := f.chance + Entries(node)))
    case DecisionNode(key) =>
      if n == 0 then None
      else
        match JoinInfoset(f, key, SignatureOf(node))
        case None => None
        case Some((joined, id)) =>
          Some(joined.(
               meta := f.meta + [Meta(node.view, Decision, node.value, |f.children|, n, |f.actions|, n, 0, 0,
                                      Some(id))],
               children := f.children + node.children, actions := f.actions + ActionsOf(node)))
  }

  ghost predicate SlotsMatch(nodes: seq<Node>) {
    forall i :: 0 <= i < |nodes| ==> |nodes[i].moves| == |nodes[i].children|
  }

  /** All nodes laid out in index order. */
  ghost function PlaceAll(nodes: seq<Node>): (r: Option<FlatGraph>)
    requires SlotsMatch(nodes)
    ensures r.Some? ==> IdsInRange(r.value) && |r.value.meta| == |nodes|
  {
    if nodes == [] then Some(EMPTY_GRAPH)
    else
      match PlaceAll(nodes[..|nodes| - 1])
      case None => None
      case Some(f) => Place(f, nodes[|nodes| - 1])
  }

  /** The flattening pass takes a chance node without children for a decision node and refuses it. */
  function Flatten1(f: FlatGraph, node: Node): (r: Option<FlatGraph>)
    requires |node.moves| == |node.children| && IdsInRange(f)
    ensures r.Some? ==> IdsInRange(r.value)
  {
    if node.kind.ChanceNode? && node.children == [] then None else Place(f, node)
  }

  ghost function FlattenAll(nodes: seq<Node>): (r: Option<FlatGraph>)
    requires SlotsMatch(nodes)
    ensures r.Some? ==> IdsInRange(r.value) && |r.value.meta| == |nodes|
  {
    if nodes == [] then Some(EMPTY_GRAPH)
    else
      match FlattenAll(nodes[..|nodes| - 1])
      case None => None
      case Some(f) => Flatten1(f, nodes[|nodes| - 1])
  }
}
