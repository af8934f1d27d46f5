/**
 The explicit-stack builder: frames instead of recursion, slots reserved when a node is opened and
 written before each child is expanded.  It ends with the graph the recursion and the flattening
 pass end with, or refuses exactly when they do.
 */
module FlatBuilder {
  import opened Arithmetic
  import opened Wrappers
  import opened GameTree
  import opened GraphEquality
  import opened GraphBuilders

  datatype Frame<S> = Frame(state: S, index: nat, depth: nat, next: nat, initialized: bool)

  // ---------------------------------------------------------------- what the stack still has to do

  ghost predicate FrameOk<S(!new)>(game: Game<S>, b: Build<S>, frame: Frame<S>) {
    && game.good(frame.state, frame.depth)
    && (frame.initialized ==>
          && frame.next <= |Moves(game, frame.state, frame.depth)|
          && HasSlots(b, frame.index, |Moves(game, frame.state, frame.depth)|))
  }

  /** Only the top frame may still wait to be opened. */
  ghost predicate StackOk<S(!new)>(game: Game<S>, b: Build<S>, stack: seq<Frame<S>>) {
    && (forall j :: 0 <= j < |stack| ==> FrameOk(game, b, stack[j]))
    && forall j :: 0 <= j < |stack| - 1 ==> stack[j].initialized
  }

  lemma StackStaysOk<S(!new)>(game: Game<S>, b: Build<S>, r: Build<S>, stack: seq<Frame<S>>)
    requires StackOk(game, b, stack) && Grows(b, r)
    ensures StackOk(game, r, stack)
  {
    forall j | 0 <= j < |stack| ensures FrameOk(game, r, stack[j]) {
      assert FrameOk(game, b, stack[j]);
    }
  }

  ghost function FinishTop<S(!new), K>(game: Game<S>, key: S -> K, b: Build<S>, top: Frame<S>): (r: Build<S>)
    requires GameOk(game) && |b.nodes| == |b.origins| && FrameOk(game, b, top)
    ensures Grows(b, r) && |r.nodes| == |r.origins|
  {
    if top.initialized then Fill(game, key, b, top.state, top.index, top.depth, top.next)
    else Fill(game, key, Enter(game, b, top.state, top.depth, Blank(game, top.state, top.depth)),
              top.state, |b.nodes|, top.depth, 0)
  }

  /** The build reached when every frame, top first, has visited the rest of its children. */
  ghost function Finish<S(!new), K>(game: Game<S>, key: S -> K, b: Build<S>, stack: seq<Frame<S>>): (r: Build<S>)
    requires GameOk(game) && |b.nodes| == |b.origins| && StackOk(game, b, stack)
    ensures |r.nodes| >= |b.nodes|
    decreases |stack|
  {
    if stack == [] then b
    else
      var top, rest := stack[|stack| - 1], stack[..|stack| - 1];
      var done := FinishTop(game, key, b, top);
      assert StackOk(game, b, rest);
      StackStaysOk(game, b, done, rest);
      Finish(game, key, done, rest)
  }

  ghost function Waiting<S>(stack: seq<Frame<S>>): bool {
    stack != [] && !stack[|stack| - 1].initialized
  }

  /** Children left to visit over all opened frames. */
  ghost function Remaining<S(!new)>(game: Game<S>, stack: seq<Frame<S>>): int {
    if stack == [] then 0
    else
      var top := stack[|stack| - 1];
      Remaining(game, stack[..|stack| - 1])
      + if top.initialized then |Moves(game, top.state, top.depth)| - top.next else 0
  }

  lemma {:induction false} RemainingNonNegative<S(!new)>(game: Game<S>, b: Build<S>, stack: seq<Frame<S>>)
    requires StackOk(game, b, stack)
    ensures Remaining(game, stack) >= 0
  {
    if stack != [] {
      assert FrameOk(game, b, stack[|stack| - 1]);
      RemainingNonNegative(game, b, stack[..|stack| - 1]);
    }
  }

  // ---------------------------------------------------------------- the steps, as values

  lemma TopOpened<S(!new), K>(game: Game<S>, key: S -> K, b: Build<S>, stack: seq<Frame<S>>)
    requires GameOk(game) && |b.nodes| == |b.origins| && StackOk(game, b, stack) && Waiting(stack)
    ensures var top := stack[|stack| - 1];
            var front := stack[|stack| - 1 := Frame(top.state, |b.nodes|, top.depth, 0, true)];
            var entered := Enter(game, b, top.state, top.depth, Blank(game, top.state, top.depth));
            && |entered.nodes| == |entered.origins| && StackOk(game, entered, front) && !Waiting(front)
            && Finish(game, key, entered, front) == Finish(game, key, b, stack)
  {
    var top := stack[|stack| - 1];
    var frame := Frame(top.state, |b.nodes|, top.depth, 0, true);
    var next := stack[|stack| - 1 := frame];
    var entered := Enter(game, b, top.state, top.depth, Blank(game, top.state, top.depth));
    assert FrameOk(game, b, top) && FrameOk(game, entered, frame);
    assert Grows(b, entered);
    StackStaysOk(game, b, entered, stack[..|stack| - 1]);
    assert next[..|stack| - 1] == stack[..|stack| - 1];
    forall j | 0 <= j < |next| ensures FrameOk(game, entered, next[j]) {
      if j < |stack| - 1 { assert FrameOk(game, entered, stack[..|stack| - 1][j]); }
    }
    forall j | 0 <= j < |next| - 1 ensures next[j].initialized { assert stack[j].initialized; }
  }

  lemma TopFinished<S(!new), K>(game: Game<S>, key: S -> K, b: Build<S>, stack: seq<Frame<S>>)
    requires GameOk(game) && |b.nodes| == |b.origins| && StackOk(game, b, stack) && stack != [] && !Waiting(stack)
    requires var top := stack[|stack| - 1]; top.next == |Moves(game, top.state, top.depth)|
    ensures var rest := stack[..|stack| - 1];
            StackOk(game, b, rest) && !Waiting(rest) && Finish(game, key, b, rest) == Finish(game, key, b, stack)
  {
    assert FrameOk(game, b, stack[|stack| - 1]);
    var rest := stack[..|stack| - 1];
    if rest != [] {
      assert rest[|rest| - 1] == stack[|stack| - 2] && stack[|stack| - 2].initialized;
    }
  }

  /** The stack after a slot is written: the frame moves on, and a new state waits on top. */
  ghost function Advance<S>(stack: seq<Frame<S>>, child: Option<Frame<S>>): seq<Frame<S>>
    requires stack != []
  {
    var top := stack[|stack| - 1];
    stack[..|stack| - 1] + [top.(next := top.next + 1)] + if child.Some? then [child.value] else []
  }

  lemma SlotStep<S(!new), K>(game: Game<S>, key: S -> K, b: Build<S>, stack: seq<Frame<S>>)
    requires GameOk(game) && |b.nodes| == |b.origins| && StackOk(game, b, stack) && stack != [] && !Waiting(stack)
    requires var top := stack[|stack| - 1]; top.next < |Moves(game, top.state, top.depth)|
    ensures var top := stack[|stack| - 1];
            var next := Next(game, top.state, top.depth, top.next);
            var found := Lookup(key, b.origins, next);
            var c := IndexFor(key, b, next);
            HasSlots(b, top.index, |Moves(game, top.state, top.depth)|)
            && var written := Written(b, top.index, top.next, Moves(game, top.state, top.depth)[top.next], c);
               var after := Advance(stack, if found.Some? then None else Some(Frame(next, c, top.depth + 1, 0, false)));
               && StackOk(game, written, after) && (Waiting(after) <==> found.None?)
               && Finish(game, key, written, after) == Finish(game, key, b, stack)
  {
    hide Moves, Lookup, KindOf, Blank, Enter, Visit, Fill, Finish, StackOk, Written, GameOk;
    var top := stack[|stack| - 1];
    SlotMoves(game, key, b, stack);
    var next := Next(game, top.state, top.depth, top.next);
    var c := IndexFor(key, b, next);
    var written := Written(b, top.index, top.next, Moves(game, top.state, top.depth)[top.next], c);
    if Lookup(key, b.origins, next).None? {
      ChildPushed(game, key, written, Advance(stack, None), Frame(next, c, top.depth + 1, 0, false));
      assert Advance(stack, Some(Frame(next, c, top.depth + 1, 0, false))) ==
             Advance(stack, None) + [Frame(next, c, top.depth + 1, 0, false)];
    }
  }

  /** The top frame moves on past a written slot, its child visited on the side. */
  lemma SlotMoves<S(!new), K>(game: Game<S>, key: S -> K, b: Build<S>, stack: seq<Frame<S>>)
    requires GameOk(game) && |b.nodes| == |b.origins| && StackOk(game, b, stack) && stack != [] && !Waiting(stack)
    requires var top := stack[|stack| - 1]; top.next < |Moves(game, top.state, top.depth)|
    ensures var top := stack[|stack| - 1];
            var next := Next(game, top.state, top.depth, top.next);
            var c := IndexFor(key, b, next);
            HasSlots(b, top.index, |Moves(game, top.state, top.depth)|)
            && var written := Written(b, top.index, top.next, Moves(game, top.state, top.depth)[top.next], c);
               var moved := Advance(stack, None);
               && |written.nodes| == |written.origins| && written.origins == b.origins && |written.nodes| == |b.nodes|
               && game.good(next, top.depth + 1)
               && StackOk(game, written, moved) && !Waiting(moved)
               && var visited := Visit(game, key, written, next, top.depth + 1).0;
                  && (Lookup(key, b.origins, next).Some? ==> visited == written)
                  && StackOk(game, visited, moved)
                  && Finish(game, key, visited, moved) == Finish(game, key, b, stack)
  {
    hide Moves, Lookup, KindOf, Blank, Enter, Visit, Fill, Finish, FinishTop, GameOk, StackOk, FrameOk, IndexFor;
    var top, rest := stack[|stack| - 1], stack[..|stack| - 1];
    TopFrame(game, b, stack);
    FillStep(game, key, b, top.state, top.index, top.depth, top.next);
    var next := Next(game, top.state, top.depth, top.next);
    var c := IndexFor(key, b, next);
    var written := Written(b, top.index, top.next, Moves(game, top.state, top.depth)[top.next], c);
    var frame := top.(next := top.next + 1);
    assert Advance(stack, None) == rest + [frame] && stack == rest + [top];
    WrittenGrows(b, top.index, top.next, Moves(game, top.state, top.depth)[top.next], c);
    hide Written;
    StackStaysOk(game, b, written, rest);
    MovedFrame(game, b, written, top);
    FrameOnTop(game, written, rest, frame);
    var visited := Visit(game, key, written, next, top.depth + 1).0;
    StackStaysOk(game, written, visited, rest + [frame]);
    FinishUnfolds(game, key, b, rest, top);
    FinishUnfolds(game, key, visited, rest, frame);
    VisitKnown(game, key, written, next, top.depth + 1);
  }

  lemma TopFrame<S(!new)>(game: Game<S>, b: Build<S>, stack: seq<Frame<S>>)
    requires StackOk(game, b, stack) && stack != [] && !Waiting(stack)
    ensures var top, rest := stack[|stack| - 1], stack[..|stack| - 1];
            && top.initialized && FrameOk(game, b, top) && StackOk(game, b, rest) && !Waiting(rest)
            && game.good(top.state, top.depth) && HasSlots(b, top.index, |Moves(game, top.state, top.depth)|)
  {
    hide Moves;
    var top, rest := stack[|stack| - 1], stack[..|stack| - 1];
    assert FrameOk(game, b, top);
    if rest != [] {
      assert rest[|rest| - 1] == stack[|stack| - 2] && stack[|stack| - 2].initialized;
    }
  }

  lemma WrittenGrows<S(!new)>(b: Build<S>, i: nat, k: nat, m: Move, c: nat)
    requires i < |b.nodes| && k < |b.nodes[i].moves| == |b.nodes[i].children| && |b.nodes| == |b.origins|
    ensures var r := Written(b, i, k, m, c);
            Grows(b, r) && |r.nodes| == |r.origins| == |b.nodes| && r.origins == b.origins
  {
  }

  lemma MovedFrame<S(!new)>(game: Game<S>, b: Build<S>, r: Build<S>, top: Frame<S>)
    requires FrameOk(game, b, top) && top.initialized && top.next < |Moves(game, top.state, top.depth)| && Grows(b, r)
    ensures FrameOk(game, r, top.(next := top.next + 1))
  {
    hide Moves;
  }

  /** Finishing a stack starts with its top frame, which visits the rest of its children. */
  lemma FinishUnfolds<S(!new), K>(game: Game<S>, key: S -> K, b: Build<S>, rest: seq<Frame<S>>, top: Frame<S>)
    requires GameOk(game) && |b.nodes| == |b.origins| && StackOk(game, b, rest + [top]) && !Waiting(rest)
             && top.initialized
    requires game.good(top.state, top.depth) && HasSlots(b, top.index, |Moves(game, top.state, top.depth)|)
    requires top.next <= |Moves(game, top.state, top.depth)|
    ensures var done := Fill(game, key, b, top.state, top.index, top.depth, top.next);
            && StackOk(game, done, rest) && Finish(game, key, b, rest + [top]) == Finish(game, key, done, rest)
  {
    hide Moves, Visit, Fill, GameOk;
    var stack := rest + [top];
    assert stack[|stack| - 1] == top && stack[..|stack| - 1] == rest;
    assert FrameOk(game, b, top);
    var done := FinishTop(game, key, b, top);
    assert StackOk(game, b, rest);
    StackStaysOk(game, b, done, rest);
  }

  lemma VisitKnown<S(!new), K>(game: Game<S>, key: S -> K, b: Build<S>, s: S, d: nat)
    requires GameOk(game) && game.good(s, d) && |b.nodes| == |b.origins|
    ensures Lookup(key, b.origins, s).Some? ==> Visit(game, key, b, s, d).0 == b
  {
    hide Fill, Lookup;
  }

  lemma FrameOnTop<S(!new)>(game: Game<S>, b: Build<S>, rest: seq<Frame<S>>, frame: Frame<S>)
    requires StackOk(game, b, rest) && !Waiting(rest) && FrameOk(game, b, frame)
    ensures StackOk(game, b, rest + [frame])
  {
    var moved := rest + [frame];
    forall j | 0 <= j < |moved| ensures FrameOk(game, b, moved[j]) {
      if j < |rest| { assert moved[j] == rest[j]; }
    }
    forall j | 0 <= j < |moved| - 1 ensures moved[j].initialized {
      assert moved[j] == rest[j];
    }
  }

  /** A new child waits on top; finishing it first is visiting it. */
  lemma ChildPushed<S(!new), K>(game: Game<S>, key: S -> K, b: Build<S>, stack: seq<Frame<S>>, child: Frame<S>)
    requires GameOk(game) && |b.nodes| == |b.origins| && StackOk(game, b, stack) && !Waiting(stack)
    requires game.good(child.state, child.depth) && !child.initialized && child.next == 0
    requires child.index == |b.nodes| && Lookup(key, b.origins, child.state).None?
    ensures var after := stack + [child];
            && StackOk(game, b, after) && Waiting(after)
            && StackOk(game, Visit(game, key, b, child.state, child.depth).0, stack)
            && Finish(game, key, b, after) == Finish(game, key, Visit(game, key, b, child.state, child.depth).0, stack)
  {
    hide Moves, KindOf, Fill, GameOk, Blank, Enter, Lookup;
    var after := stack + [child];
    assert FrameOk(game, b, child);
    FrameOnTop(game, b, stack, child);
    assert after[|after| - 1] == child && after[..|after| - 1] == stack;
    var done := FinishTop(game, key, b, child);
    assert done == Visit(game, key, b, child.state, child.depth).0;
    hide Visit, FinishTop;
    StackStaysOk(game, b, done, stack);
  }

  // ---------------------------------------------------------------- frames own their nodes

  ghost predicate FramesOwn<S(!new)>(b: Build<S>, stack: seq<Frame<S>>) {
    forall j :: 0 <= j < |stack| && stack[j].initialized ==>
                  stack[j].index < |b.origins| && b.origins[stack[j].index] == Origin(stack[j].state, stack[j].depth)
  }

  /** The state waiting on top already has its memo entry. */
  ghost function WaitingOrigin<S>(stack: seq<Frame<S>>): seq<Origin<S>> {
    if Waiting(stack) then [Origin(stack[|stack| - 1].state, stack[|stack| - 1].depth)] else []
  }

  lemma FrameNode<S(!new)>(game: Game<S>, b: Build<S>, stack: seq<Frame<S>>)
    requires Shaped(game, b) && StackOk(game, b, stack) && FramesOwn(b, stack) && stack != [] && !Waiting(stack)
    ensures var top := stack[|stack| - 1];
            && HasSlots(b, top.index, |Moves(game, top.state, top.depth)|)
            && (top.next < |Moves(game, top.state, top.depth)| ==> Inner(b.nodes[top.index].kind))
            && b.nodes[top.index].kind == KindOf(game, top.state, top.depth)
  {
    var top := stack[|stack| - 1];
    assert FrameOk(game, b, top);
    assert NodeShape(game, b.nodes[top.index], b.origins[top.index]);
  }

  lemma {:induction false} FinishRefusal<S(!new), K>(game: Game<S>, key: S -> K, b: Build<S>, stack: seq<Frame<S>>)
    requires GameOk(game) && Shaped(game, b) && StackOk(game, b, stack) && FramesOwn(b, stack) && !Waiting(stack)
    requires SlotsMatch(b.nodes) && PlaceAll(b.nodes).None?
    ensures Shaped(game, Finish(game, key, b, stack)) && SlotsMatch(Finish(game, key, b, stack).nodes)
    ensures PlaceAll(Finish(game, key, b, stack).nodes).None?
    decreases |stack|
  {
    hide Place, Moves, KindOf;
    if stack != [] {
      var top, rest := stack[|stack| - 1], stack[..|stack| - 1];
      FrameNode(game, b, stack);
      FillShaped(game, key, b, top.state, top.index, top.depth, top.next);
      FillRefusalStays(game, key, b, top.state, top.index, top.depth, top.next);
      var done := FinishTop(game, key, b, top);
      assert StackOk(game, b, rest);
      StackStaysOk(game, b, done, rest);
      forall j | 0 <= j < |rest| && rest[j].initialized
        ensures rest[j].index < |done.origins| && done.origins[rest[j].index] == Origin(rest[j].state, rest[j].depth)
      {
        assert rest[j] == stack[j];
      }
      assert rest != [] ==> rest[|rest| - 1] == stack[|stack| - 2] && stack[|stack| - 2].initialized;
      FinishRefusal(game, key, done, rest);
    }
  }

  // ---------------------------------------------------------------- opening a frame

  /** The meta record find_or_create_node pushes, before the node is opened. */
  function RawNode(f: FlatGraph, view: View): FlatGraph {
    f.(meta := f.meta + [Meta(view, Decision, 0.0, 0, 0, 0, 0, 0, 0, None)])
  }

  /** Sets one decision node's information set, creating it on first sight. */
  method AssignInfoset(graph: FlatGraph, index: nat, key: string, signature: Signature, ghost f: FlatGraph)
    returns (r: Option<(FlatGraph, nat)>)
    requires IdsInRange(f) && index == |f.meta| && graph == f.(meta := graph.meta)
    ensures r.Some? <==> JoinInfoset(f, key, signature).Some?
    ensures r.Some? ==> r.value.0 == JoinInfoset(f, key, signature).value.0.(meta := graph.meta)
    ensures r.Some? ==> r.value.1 == JoinInfoset(f, key, signature).value.1
  {
    if key !in graph.infosetIds {
      var id := |graph.infosetKeys|;
      var joined := graph.(infosetIds := graph.infosetIds[key := id],
                           infosetNodes := graph.infosetNodes + [[]],
                           signatures := graph.signatures + [signature],
                           infosetKeys := graph.infosetKeys + [key]);
      assert joined.infosetNodes[id] == [] && [] + [index] == [index];
      joined := joined.(infosetNodes := joined.infosetNodes[id := joined.infosetNodes[id] + [index]]);
      assert joined.infosetNodes == f.infosetNodes + [[index]];
      return Some((joined, id));
    }
    var id := graph.infosetIds[key];
    if graph.signatures[id] != signature {
      return None;
    }
    return Some((graph.(infosetNodes := graph.infosetNodes[id := graph.infosetNodes[id] + [index]]), id));
  }

  /** The first visit to a frame: classify the state, fill in its record, reserve its slots. */
  method OpenFrame<S(!new)>(game: Game<S>, graph: FlatGraph, frame: Frame<S>, ghost f: FlatGraph)
    returns (r: Option<FlatGraph>)
    requires IdsInRange(f) && frame.index == |f.meta| && graph == RawNode(f, game.view(frame.state))
    ensures r == Place(f, Blank(game, frame.state, frame.depth))
  {
    var s, index := frame.state, frame.index;
    ghost var node := Blank(game, s, frame.depth);
    var meta := graph.meta[index];
    if game.terminal(s) {
      meta := meta.(view := meta.view.(player := -2), value := game.value(s));
      match game.terminalTag(s) {
        case FoldTag =>
          meta := meta.(kind := TerminalFold);
          assert node.kind == FoldLeaf && graph.meta[index := meta] == f.meta + [LeafMeta(node, TerminalFold)];
          return Some(graph.(meta := graph.meta[index := meta],
                             terminals := graph.terminals + [index],
                         terminalValues := graph.terminalValues + [meta.value],
                             folds := graph.folds + [index], foldValues := graph.foldValues + [meta.value]));
        case ShowdownTag =>
          meta := meta.(kind := TerminalShowdown);
          assert node.kind == ShowdownLeaf && graph.meta[index := meta] == f.meta + [LeafMeta(node, TerminalShowdown)];
          return Some(graph.(meta := graph.meta[index := meta],
                             terminals := graph.terminals + [index],
                         terminalValues := graph.terminalValues + [meta.value],
                             showdowns := graph.showdowns + [index],
                             showdownValues := graph.showdownValues + [meta.value]));
        case NotTerminal =>
          return None;
      }
    }
    if game.depthLimit != 0 && frame.depth >= game.depthLimit {
      meta := meta.(kind := DepthLimited);
      assert node.kind == LimitLeaf && graph.meta[index := meta] == f.meta + [LeafMeta(node, DepthLimited)];
      return Some(graph.(meta := graph.meta[index := meta],
                         terminals := graph.terminals + [index],
                         terminalValues := graph.terminalValues + [meta.value]));
    }
    if game.chance(s) {
      var n := |game.outcomes(s)|;
      meta := meta.(kind := Chance, childBegin := |graph.children|, childCount := n,
                    chanceBegin := |graph.chance|, chanceCount := n);
      var reserved := seq(n, _ => ChanceEntry(0, 0.0, 0, 1));
      assert reserved == Entries(node) && seq(n, _ => 0) == node.children;
      assert graph.meta[index := meta]
          == f.meta + [Meta(node.view, Chance, node.value, |f.children|, n, 0, 0, |f.chance|, n, None)];
      return Some(graph.(meta := graph.meta[index := meta], children := graph.children + seq(n, _ => 0),
                         chance := graph.chance + reserved));
    }
    var n := |game.actions(s)|;
    if n == 0 {
      return None;
    }
    meta := meta.(kind := Decision, childBegin := |graph.children|, childCount := n,
                  actionBegin := |graph.actions|, actionCount := n);
    var signature := Signature(n, meta.view.player, meta.view.street, multiset(meta.view.board));
    var joined := AssignInfoset(graph, index, game.infosetKey(s), signature, f);
    if joined.None? {
      return None;
    }
    meta := meta.(infoset := Some(joined.value.1));
    assert seq(n, _ => 0) == ActionsOf(node) && seq(n, _ => 0) == node.children;
    assert node.kind == DecisionNode(game.infosetKey(s)) && signature == SignatureOf(node);
    assert graph.meta[index := meta] == f.meta +
        [Meta(node.view, Decision, node.value, |f.children|, n, |f.actions|, n, 0, 0, Some(joined.value.1))];
    return Some(joined.value.0.(meta := graph.meta[index := meta], children := graph.children + seq(n, _ => 0),
                                actions := graph.actions + seq(n, _ => 0)));
  }

  // ---------------------------------------------------------------- the loop

  datatype Built = Built(graph: FlatGraph, maxDepth: nat, maxActions: nat)

  function EmptyBuild<S>(): Build<S> {
    Build([], [], 0, 0)
  }

  /** What the explicit-stack builder is to return. */
  ghost function Target<S(!new), K>(game: Game<S>, key: S -> K): Build<S>
    requires GameOk(game)
  {
    Visit(game, key, EmptyBuild(), game.root, 0).0
  }

  ghost predicate Loop<S(!new), K>(game: Game<S>, key: S -> K, b: Build<S>, stack: seq<Frame<S>>,
                                   memo: map<K, nat>, f: FlatGraph)
  {
    && GameOk(game) && Shaped(game, b) && StackOk(game, b, stack) && FramesOwn(b, stack)
    && (Waiting(stack) ==> stack[|stack| - 1].index == |b.nodes| && stack[|stack| - 1].next == 0)
    && Finish(game, key, b, stack) == Target(game, key)
    && MemoIs(key, b.origins + WaitingOrigin(stack), memo)
    && SlotsMatch(b.nodes) && PlaceAll(b.nodes) == Some(f)
  }

  ghost function DepthSeen<S>(b: Build<S>, stack: seq<Frame<S>>): nat {
    if Waiting(stack) then Max(b.maxDepth, stack[|stack| - 1].depth) else b.maxDepth
  }

  /** One child of the top frame: found or created, written into its slot, and pushed when new. */
  method StepSlot<S(!new), K(==, !new)>(game: Game<S>, key: S -> K, graph0: FlatGraph, stack0: seq<Frame<S>>,
                                        memo0: map<K, nat>, maxDepth0: nat, ghost b0: Build<S>, ghost f0: FlatGraph)
    returns (graph: FlatGraph, stack: seq<Frame<S>>, memo: map<K, nat>, maxDepth: nat, ghost b: Build<S>,
             ghost f: FlatGraph)
    requires Loop(game, key, b0, stack0, memo0, f0) && stack0 != [] && !Waiting(stack0) && graph0 == f0
    requires var top := stack0[|stack0| - 1]; top.next < |Moves(game, top.state, top.depth)|
    requires maxDepth0 == DepthSeen(b0, stack0)
    ensures Loop(game, key, b, stack, memo, f) && stack != []
    ensures graph == if Waiting(stack) then RawNode(f, game.view(stack[|stack| - 1].state)) else f
    ensures maxDepth == DepthSeen(b, stack) && b.maxActions == b0.maxActions && |b.nodes| == |b0.nodes|
    ensures Remaining(game, stack) == Remaining(game, stack0) - 1
  {
    hide Loop, Finish, Place, PlaceAll, Target, Remaining, SetSlot, KindOf, Moves;
    graph, stack, memo, maxDepth, b, f := graph0, stack0, memo0, maxDepth0, b0, f0;
    LoopBounds(game, key, b, stack, memo, f);
    var top := stack[|stack| - 1];
    var moves := Moves(game, top.state, top.depth);
    WritesSlot(game, key, b, stack, memo, f);
    ghost var before := stack;
    var child := game.apply(top.state, moves[top.next].action);
    var index: nat, isNew: bool;
    if key(child) in memo {
      index, isNew := memo[key(child)], false;
    } else {
      index, isNew := |graph.meta|, true;
      memo := memo[key(child) := index];
      maxDepth := Max(maxDepth, top.depth + 1);
    }
    if isNew {
      graph := RawNode(graph, game.view(child));
    }
    b := Written(b, top.index, top.next, moves[top.next], index);
    f := WriteSlot(f, top.index, top.next, moves[top.next], index);
    graph := WriteSlot(graph, top.index, top.next, moves[top.next], index);
    stack := stack[..|stack| - 1] + [top.(next := top.next + 1)];
    if isNew {
      stack := stack + [Frame(child, index, top.depth + 1, 0, false)];
    }
    assert stack == Advance(before, if isNew then Some(Frame(child, index, top.depth + 1, 0, false)) else None);
  }

  /**
   HUNLFlatBuilder::build up to the topological sort, over an explicit stack.  It returns the layout
   of the nodes the visit makes, or refuses when that layout is refused.
   */
  method BuildFlat<S(!new), K(==, !new)>(game: Game<S>, key: S -> K) returns (r: Option<Built>)
    requires GameOk(game)
    ensures SlotsMatch(Target(game, key).nodes)
    ensures r == match PlaceAll(Target(game, key).nodes)
                 case None => None
                 case Some(f) => Some(Built(f, Target(game, key).maxDepth, Target(game, key).maxActions))
  {
    hide Loop, Finish, Place, PlaceAll, Target;
    var memo: map<K, nat> := map[key(game.root) := 0];
    var graph := RawNode(EMPTY_GRAPH, game.view(game.root));
    var maxDepth, maxActions := 0, 0;
    var stack := [Frame(game.root, 0, 0, 0, false)];
    ghost var b: Build<S> := EmptyBuild();
    ghost var f := EMPTY_GRAPH;
    StartsLoop(game, key);
    while stack != []
      invariant Loop(game, key, b, stack, memo, f)
      invariant graph == if Waiting(stack) then RawNode(f, game.view(stack[|stack| - 1].state)) else f
      invariant maxDepth == DepthSeen(b, stack) && maxActions == b.maxActions
      decreases |Target(game, key).nodes| - |b.nodes|, Remaining(game, stack), |stack|
    {
      LoopBounds(game, key, b, stack, memo, f);
      var top := stack[|stack| - 1];
      if !top.initialized {
        OpensTop(game, key, b, stack, memo, f);
        var placed := OpenFrame(game, graph, top, f);
        if placed.None? {
          return None;
        }
        graph := placed.value;
        if KindOf(game, top.state, top.depth).DecisionNode? {
          maxActions := Max(maxActions, |game.actions(top.state)|);
        }
        b := Enter(game, b, top.state, top.depth, Blank(game, top.state, top.depth));
        f := graph;
        stack := stack[|stack| - 1 := top.(initialized := true)];
        LoopBounds(game, key, b, stack, memo, f);
        continue;
      }
      var moves := Moves(game, top.state, top.depth);
      if top.next == |moves| {
        PopsTop(game, key, b, stack, memo, f);
        stack := stack[..|stack| - 1];
        continue;
      }
      graph, stack, memo, maxDepth, b, f := StepSlot(game, key, graph, stack, memo, maxDepth, b, f);
      LoopBounds(game, key, b, stack, memo, f);
    }
    EndsLoop(game, key, b, memo, f);
    return Some(Built(graph, maxDepth, maxActions));
  }

  lemma StartsLoop<S(!new), K(!new)>(game: Game<S>, key: S -> K)
    requires GameOk(game)
    ensures Loop(game, key, EmptyBuild(), [Frame(game.root, 0, 0, 0, false)], map[key(game.root) := 0], EMPTY_GRAPH)
    ensures SlotsMatch(Target(game, key).nodes)
  {
    var stack, b := [Frame(game.root, 0, 0, 0, false)], EmptyBuild<S>();
    assert FrameOk(game, b, stack[0]);
    assert stack[..0] == [];
    assert Finish(game, key, b, stack) == FinishTop(game, key, b, stack[0]);
    VisitShaped(game, key, b, game.root, 0);
    ShapedMatches(game, Target(game, key));
    assert b.origins + WaitingOrigin(stack) == [Origin(game.root, 0)];
  }

  lemma LoopBounds<S(!new), K(!new)>(game: Game<S>, key: S -> K, b: Build<S>, stack: seq<Frame<S>>,
                                     memo: map<K, nat>, f: FlatGraph)
    requires Loop(game, key, b, stack, memo, f)
    ensures GameOk(game) && |b.nodes| <= |Target(game, key).nodes| && Remaining(game, stack) >= 0
    ensures |f.meta| == |b.nodes| && IdsInRange(f)
    ensures stack != [] && !Waiting(stack) ==>
              var top := stack[|stack| - 1]; top.next <= |Moves(game, top.state, top.depth)|
  {
    RemainingNonNegative(game, b, stack);
    assert stack != [] ==> FrameOk(game, b, stack[|stack| - 1]);
  }

  lemma EndsLoop<S(!new), K(!new)>(game: Game<S>, key: S -> K, b: Build<S>, memo: map<K, nat>, f: FlatGraph)
    requires Loop(game, key, b, [], memo, f)
    ensures b == Target(game, key) && SlotsMatch(b.nodes) && PlaceAll(b.nodes) == Some(f)
  {
  }

  lemma OpensTop<S(!new), K(!new)>(game: Game<S>, key: S -> K, b: Build<S>, stack: seq<Frame<S>>,
                                   memo: map<K, nat>, f: FlatGraph)
    requires Loop(game, key, b, stack, memo, f) && Waiting(stack)
    ensures var top := stack[|stack| - 1];
            var node := Blank(game, top.state, top.depth);
            var entered := Enter(game, b, top.state, top.depth, node);
            var front := stack[|stack| - 1 := top.(initialized := true)];
            && IdsInRange(f) && top.index == |f.meta| == |b.nodes| && !Waiting(front)
            && (Place(f, node).None? ==>
                  SlotsMatch(Target(game, key).nodes) && PlaceAll(Target(game, key).nodes).None?)
            && (Place(f, node).Some? ==> Loop(game, key, entered, front, memo, Place(f, node).value))
  {
    hide Place, Finish, Moves, KindOf, MemoIs;
    var top := stack[|stack| - 1];
    var node := Blank(game, top.state, top.depth);
    var entered := Enter(game, b, top.state, top.depth, node);
    var front := stack[|stack| - 1 := top.(initialized := true)];
    TopOpened(game, key, b, stack);
    PlaceAllPrefix(b.nodes, node);
    EnteredShape(game, b, top.state, top.depth);
    assert FramesOwn(entered, front);
    assert entered.origins + WaitingOrigin(front) == b.origins + WaitingOrigin(stack);
    if Place(f, node).None? {
      FinishRefusal(game, key, entered, front);
    }
  }

  lemma EnteredShape<S(!new)>(game: Game<S>, b: Build<S>, s: S, d: nat)
    requires Shaped(game, b) && game.good(s, d)
    ensures Shaped(game, Enter(game, b, s, d, Blank(game, s, d)))
  {
    var entered := Enter(game, b, s, d, Blank(game, s, d));
    forall j | 0 <= j < |entered.nodes| ensures NodeShape(game, entered.nodes[j], entered.origins[j]) {
      if j < |b.nodes| { assert NodeShape(game, b.nodes[j], b.origins[j]); }
    }
  }

  lemma PopsTop<S(!new), K(!new)>(game: Game<S>, key: S -> K, b: Build<S>, stack: seq<Frame<S>>,
                                  memo: map<K, nat>, f: FlatGraph)
    requires Loop(game, key, b, stack, memo, f) && stack != [] && !Waiting(stack)
    requires var top := stack[|stack| - 1]; top.next == |Moves(game, top.state, top.depth)|
    ensures var rest := stack[..|stack| - 1];
            && !Waiting(rest) && Loop(game, key, b, rest, memo, f)
            && Remaining(game, rest) == Remaining(game, stack)
  {
    hide Place, Finish, Moves, KindOf, MemoIs;
    TopFinished(game, key, b, stack);
    assert b.origins + WaitingOrigin(stack[..|stack| - 1]) == b.origins + WaitingOrigin(stack);
  }

  lemma WritesSlot<S(!new), K(!new)>(game: Game<S>, key: S -> K, b: Build<S>, stack: seq<Frame<S>>,
                                     memo: map<K, nat>, f: FlatGraph)
    requires Loop(game, key, b, stack, memo, f) && stack != [] && !Waiting(stack)
    requires var top := stack[|stack| - 1]; top.next < |Moves(game, top.state, top.depth)|
    ensures var top := stack[|stack| - 1];
            var m := Moves(game, top.state, top.depth)[top.next];
            var child := Next(game, top.state, top.depth, top.next);
            var c := if key(child) in memo then memo[key(child)] else |f.meta|;
            && HasSlots(b, top.index, |Moves(game, top.state, top.depth)|)
            && SlotsPlaced(f, top.index, b.nodes[top.index]) && Inner(b.nodes[top.index].kind)
            && |f.meta| == |b.nodes|
            && var written := Written(b, top.index, top.next, m, c);
               var after := Advance(stack, if key(child) in memo then None
                                           else Some(Frame(child, c, top.depth + 1, 0, false)));
               && Loop(game, key, written, after, if key(child) in memo then memo else memo[key(child) := c],
                       WriteSlot(f, top.index, top.next, m, c))
               && (Waiting(after) <==> key(child) !in memo)
               && Remaining(game, after) == Remaining(game, stack) - 1
  {
    hide Place, Finish, Moves, KindOf, MemoIs, WriteSlot, SlotsPlaced, Lookup, Shaped;
    var top := stack[|stack| - 1];
    var m := Moves(game, top.state, top.depth)[top.next];
    var child := Next(game, top.state, top.depth, top.next);
    var c := if key(child) in memo then memo[key(child)] else |f.meta|;
    assert b.origins + WaitingOrigin(stack) == b.origins;
    assert |b.origins| == |b.nodes| by { ShapedSizes(game, b); }
    MemoLookup(key, b.origins, memo, child);
    assert c == IndexFor(key, b, child);
    SlotStep(game, key, b, stack);
    FrameNode(game, b, stack);
    SlotWrite(b.nodes, top.index, top.next, m, c);
    WrittenShaped(game, b, top.index, top.next, m, c);
    var frame := Frame(child, c, top.depth + 1, 0, false);
    var after := Advance(stack, if key(child) in memo then None else Some(frame));
    AdvanceRemaining(game, stack, if key(child) in memo then None else Some(frame));
    assert FramesOwn(Written(b, top.index, top.next, m, c), after);
    if key(child) !in memo {
      MemoGrows(key, b.origins, memo, Origin(child, top.depth + 1));
    } else {
      assert b.origins + WaitingOrigin(after) == b.origins;
    }
  }

  lemma ShapedSizes<S(!new)>(game: Game<S>, b: Build<S>)
    requires Shaped(game, b)
    ensures |b.nodes| == |b.origins|
  {
  }

  lemma AdvanceRemaining<S(!new)>(game: Game<S>, stack: seq<Frame<S>>, child: Option<Frame<S>>)
    requires stack != [] && !Waiting(stack) && (child.Some? ==> !child.value.initialized)
    ensures Remaining(game, Advance(stack, child)) == Remaining(game, stack) - 1
  {
    hide Moves;
    var top := stack[|stack| - 1];
    var moved := stack[..|stack| - 1] + [top.(next := top.next + 1)];
    assert moved[..|moved| - 1] == stack[..|stack| - 1];
    assert Remaining(game, moved) == Remaining(game, stack) - 1;
    if child.Some? {
      assert Advance(stack, child)[..|moved|] == moved;
    } else {
      assert Advance(stack, child) == moved;
    }
  }
}
