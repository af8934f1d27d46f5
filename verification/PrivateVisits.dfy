/**
 Which nodes the feasibility search visits: exactly the compatible choices of the first few seats that no complete
 deal comes before in depth-first order, each once.
 */
module PrivateVisits {
  import opened Poker
  import opened PrivateRanges
  import opened PrivateSearch

  /** Depth-first order of choices: a choice comes before its continuations, then the next hand is tried. */
  predicate Before(a: seq<nat>, b: seq<nat>) {
    if b == [] then false
    else if a == [] then true
    else if a[0] != b[0] then a[0] < b[0]
    else Before(a[1..], b[1..])
  }

  /** Compatible hands of the first seats. */
  ghost predicate Partial(ranges: seq<Range>, blocked: set<nat>, c: seq<nat>) {
    |c| <= |ranges| && IsDeal(ranges[..|c|], blocked, c)
  }

  /** Compatible hands of the first seats that come after no complete deal. */
  ghost predicate Reached(ranges: seq<Range>, blocked: set<nat>, c: seq<nat>) {
    Partial(ranges, blocked, c) && forall d :: IsDeal(ranges, blocked, d) ==> !Before(d, c)
  }

  function Prefixed(k: nat, choices: seq<seq<nat>>): (r: seq<seq<nat>>)
    ensures |r| == |choices| && forall i :: 0 <= i < |r| ==> r[i] == [k] + choices[i]
  {
    seq(|choices|, i requires 0 <= i < |choices| => [k] + choices[i])
  }

  /** The choices at the nodes of the search, in the order of the visits. */
  function Visits(ranges: seq<Range>, blocked: set<nat>): seq<seq<nat>>
    decreases |ranges|, 0
  {
    if ranges == [] then [[]] else [[]] + VisitsFrom(ranges, blocked, 0)
  }

  function VisitsFrom(ranges: seq<Range>, blocked: set<nat>, k: nat): seq<seq<nat>>
    requires ranges != [] && k <= |ranges[0]|
    decreases |ranges| - 1, 1 + |ranges[0]| - k
  {
    if k == |ranges[0]| then []
    else
      var e := ranges[0][k];
      if !Fits(e, blocked) then VisitsFrom(ranges, blocked, k + 1)
      else
        Prefixed(k, Visits(ranges[1..], blocked + CardsOf(e))) +
        if DealFound(ranges[1..], blocked + CardsOf(e)) then [] else VisitsFrom(ranges, blocked, k + 1)
  }

  predicate DealFound(ranges: seq<Range>, blocked: set<nat>) {
    Explore(ranges, blocked).found
  }

  // ---------------------------------------------------------------- as many as counted

  /** The search counts its nodes. */
  lemma {:induction false} VisitsCounted(ranges: seq<Range>, blocked: set<nat>)
    ensures Explore(ranges, blocked).nodes == |Visits(ranges, blocked)|
    decreases |ranges|, 0
  {
    hide Fits, CardsOf;
    if ranges != [] {
      VisitsFromCounted(ranges, blocked, 0);
      assert ranges[0][0..] == ranges[0];
    }
  }

  lemma {:induction false} VisitsFromCounted(ranges: seq<Range>, blocked: set<nat>, k: nat)
    requires ranges != [] && k <= |ranges[0]|
    ensures ExploreFrom(ranges[0][k..], ranges[1..], blocked).nodes == |VisitsFrom(ranges, blocked, k)|
    decreases |ranges| - 1, 1 + |ranges[0]| - k
  {
    hide Fits, CardsOf;
    if k < |ranges[0]| {
      var range := ranges[0][k..];
      assert range[0] == ranges[0][k] && range[1..] == ranges[0][k + 1..];
      VisitsFromCounted(ranges, blocked, k + 1);
      VisitsCounted(ranges[1..], blocked + CardsOf(range[0]));
    }
  }

  // ---------------------------------------------------------------- exactly which

  lemma PartialStep(ranges: seq<Range>, blocked: set<nat>, c: seq<nat>)
    requires c != [] && ranges != []
    ensures Partial(ranges, blocked, c) <==>
            && c[0] < |ranges[0]| && Fits(ranges[0][c[0]], blocked)
            && Partial(ranges[1..], blocked + CardsOf(ranges[0][c[0]]), c[1..])
  {
    assert c == [c[0]] + c[1..];
    if |c| <= |ranges| {
      assert ranges[..|c|][0] == ranges[0] && ranges[..|c|][1..] == ranges[1..][..|c| - 1];
      if c[0] < |ranges[0]| {
        DealStep(ranges[..|c|], blocked, c[0], c[1..]);
      }
    }
    hide Fits, CardsOf;
  }

  lemma DealFirst(ranges: seq<Range>, blocked: set<nat>, d: seq<nat>)
    requires ranges != [] && IsDeal(ranges, blocked, d)
    ensures d != [] && d[0] < |ranges[0]| && Fits(ranges[0][d[0]], blocked)
    ensures IsDeal(ranges[1..], blocked + CardsOf(ranges[0][d[0]]), d[1..])
  {
    assert d == [d[0]] + d[1..];
    DealStep(ranges, blocked, d[0], d[1..]);
  }

  lemma PrefixedMembers(k: nat, choices: seq<seq<nat>>, c: seq<nat>)
    ensures c in Prefixed(k, choices) <==> c != [] && c[0] == k && c[1..] in choices
  {
    var r := Prefixed(k, choices);
    if c in r {
      var i :| 0 <= i < |r| && r[i] == c;
      assert c[1..] == choices[i];
    }
    if c != [] && c[0] == k && c[1..] in choices {
      var i :| 0 <= i < |choices| && choices[i] == c[1..];
      assert r[i] == [k] + c[1..] == c;
    }
  }

  /** The choice starts with hand `k` or a later one, and no deal that does so comes before it. */
  ghost predicate ReachedFrom(ranges: seq<Range>, blocked: set<nat>, k: nat, c: seq<nat>) {
    && c != [] && c[0] >= k && Partial(ranges, blocked, c)
    && forall d :: IsDeal(ranges, blocked, d) && d != [] && d[0] >= k ==> !Before(d, c)
  }

  lemma {:induction false} VisitsExactly(ranges: seq<Range>, blocked: set<nat>, c: seq<nat>)
    ensures c in Visits(ranges, blocked) <==> Reached(ranges, blocked, c)
    decreases |ranges|, 0
  {
    hide IsDeal, Fits, CardsOf;
    if c == [] {
      RootIsReached(ranges, blocked);
    } else if ranges != [] {
      VisitsFromExactly(ranges, blocked, 0, c);
      forall d | IsDeal(ranges, blocked, d) ensures d != [] {
        DealFirst(ranges, blocked, d);
      }
    }
  }

  lemma RootIsReached(ranges: seq<Range>, blocked: set<nat>)
    ensures [] in Visits(ranges, blocked) && Reached(ranges, blocked, [])
  {
    assert Visits(ranges, blocked)[0] == [];
    assert ranges[..0] == [];
  }

  lemma {:induction false} VisitsFromExactly(ranges: seq<Range>, blocked: set<nat>, k: nat, c: seq<nat>)
    requires ranges != [] && k <= |ranges[0]|
    ensures c in VisitsFrom(ranges, blocked, k) <==> ReachedFrom(ranges, blocked, k, c)
    decreases |ranges| - 1, 1 + |ranges[0]| - k
  {
    hide IsDeal, Fits, CardsOf, Partial, ReachedFrom, Prefixed, DealFound;
    if k == |ranges[0]| {
      NoneLeft(ranges, blocked, c);
    } else {
      VisitsFromExactly(ranges, blocked, k + 1, c);
      var e := ranges[0][k];
      if !Fits(e, blocked) {
        SkippedHand(ranges, blocked, k, c);
      } else {
        var below := blocked + CardsOf(e);
        PrefixedMembers(k, Visits(ranges[1..], below), c);
        if c != [] && c[0] == k {
          VisitsExactly(ranges[1..], below, c[1..]);
        }
        TriedHand(ranges, blocked, k, c);
      }
    }
  }

  lemma NoneLeft(ranges: seq<Range>, blocked: set<nat>, c: seq<nat>)
    requires ranges != []
    ensures !ReachedFrom(ranges, blocked, |ranges[0]|, c)
  {
    if c != [] {
      PartialStep(ranges, blocked, c);
    }
  }

  lemma SkippedHand(ranges: seq<Range>, blocked: set<nat>, k: nat, c: seq<nat>)
    requires ranges != [] && k < |ranges[0]| && !Fits(ranges[0][k], blocked)
    ensures ReachedFrom(ranges, blocked, k, c) <==> ReachedFrom(ranges, blocked, k + 1, c)
  {
    hide IsDeal, Fits, CardsOf, Partial;
    if c != [] {
      PartialStep(ranges, blocked, c);
    }
    forall d | IsDeal(ranges, blocked, d) ensures d != [] && d[0] != k {
      DealFirst(ranges, blocked, d);
    }
  }

  /** With hand `k` tried, a choice is reached below it, or behind it when no deal was found there. */
  lemma TriedHand(ranges: seq<Range>, blocked: set<nat>, k: nat, c: seq<nat>)
    requires ranges != [] && k < |ranges[0]| && Fits(ranges[0][k], blocked)
    ensures var below := blocked + CardsOf(ranges[0][k]);
            ReachedFrom(ranges, blocked, k, c) <==>
            || (c != [] && c[0] == k && Reached(ranges[1..], below, c[1..]))
            || (!DealFound(ranges[1..], below) && ReachedFrom(ranges, blocked, k + 1, c))
  {
    hide Fits, CardsOf;
    var below := blocked + CardsOf(ranges[0][k]);
    ExploreFindsDeals(ranges[1..], below);
    if c != [] {
      PartialStep(ranges, blocked, c);
      if c[0] == k {
        TriedBelow(ranges, blocked, k, c);
      } else {
        TriedBehind(ranges, blocked, k, c);
      }
    }
  }

  lemma TriedBelow(ranges: seq<Range>, blocked: set<nat>, k: nat, c: seq<nat>)
    requires ranges != [] && k < |ranges[0]| && Fits(ranges[0][k], blocked) && c != [] && c[0] == k
    ensures ReachedFrom(ranges, blocked, k, c) <==> Reached(ranges[1..], blocked + CardsOf(ranges[0][k]), c[1..])
  {
    hide IsDeal, Fits, CardsOf, Partial;
    var below := blocked + CardsOf(ranges[0][k]);
    PartialStep(ranges, blocked, c);
    if ReachedFrom(ranges, blocked, k, c) {
      forall d | IsDeal(ranges[1..], below, d) ensures !Before(d, c[1..]) {
        DealStep(ranges, blocked, k, d);
        assert ([k] + d)[0] == k && ([k] + d)[1..] == d;
        assert !Before([k] + d, c);
      }
    }
    if Reached(ranges[1..], below, c[1..]) {
      forall d | IsDeal(ranges, blocked, d) && d != [] && d[0] >= k ensures !Before(d, c) {
        DealFirst(ranges, blocked, d);
      }
    }
  }

  lemma TriedBehind(ranges: seq<Range>, blocked: set<nat>, k: nat, c: seq<nat>)
    requires ranges != [] && k < |ranges[0]| && Fits(ranges[0][k], blocked) && c != [] && c[0] != k
    ensures ReachedFrom(ranges, blocked, k, c) <==>
            !DealExists(ranges[1..], blocked + CardsOf(ranges[0][k])) && ReachedFrom(ranges, blocked, k + 1, c)
  {
    hide IsDeal, Fits, CardsOf, Partial;
    var below := blocked + CardsOf(ranges[0][k]);
    if ReachedFrom(ranges, blocked, k, c) {
      forall d ensures !IsDeal(ranges[1..], below, d) {
        DealStep(ranges, blocked, k, d);
        assert ([k] + d)[0] == k;
        assert Before([k] + d, c);
      }
    }
    if !DealExists(ranges[1..], below) {
      forall d | IsDeal(ranges, blocked, d) ensures d != [] && d[0] != k {
        DealFirst(ranges, blocked, d);
      }
    }
  }

  // ---------------------------------------------------------------- each once, in order

  ghost predicate InOrder(choices: seq<seq<nat>>) {
    forall i, j :: 0 <= i < j < |choices| ==> Before(choices[i], choices[j])
  }

  lemma PrefixedInOrder(k: nat, choices: seq<seq<nat>>)
    requires InOrder(choices)
    ensures InOrder(Prefixed(k, choices))
  {
    var r := Prefixed(k, choices);
    forall i, j | 0 <= i < j < |r| ensures Before(r[i], r[j]) {
      assert r[i][1..] == choices[i] && r[j][1..] == choices[j];
    }
  }

  lemma OrderedJoin(a: seq<seq<nat>>, b: seq<seq<nat>>)
    requires InOrder(a) && InOrder(b) && forall x, y :: x in a && y in b ==> Before(x, y)
    ensures InOrder(a + b)
  {
    var all := a + b;
    forall i, j | 0 <= i < j < |all| ensures Before(all[i], all[j]) {
      assert i < |a| ==> all[i] in a;
      assert j >= |a| ==> all[j] in b;
    }
  }

  lemma {:induction false} VisitsInOrder(ranges: seq<Range>, blocked: set<nat>)
    ensures InOrder(Visits(ranges, blocked))
    decreases |ranges|, 0
  {
    hide Fits, CardsOf;
    if ranges != [] {
      VisitsFromInOrder(ranges, blocked, 0);
      var rest := VisitsFrom(ranges, blocked, 0);
      forall y | y in rest ensures Before([], y) {
        VisitsFromExactly(ranges, blocked, 0, y);
      }
      OrderedJoin([[]], rest);
    }
  }

  lemma {:induction false} VisitsFromInOrder(ranges: seq<Range>, blocked: set<nat>, k: nat)
    requires ranges != [] && k <= |ranges[0]|
    ensures InOrder(VisitsFrom(ranges, blocked, k))
    decreases |ranges| - 1, 1 + |ranges[0]| - k
  {
    hide Fits, CardsOf, InOrder, DealFound;
    if k == |ranges[0]| {
      assert InOrder([]) by { NothingInOrder(); }
    } else {
      VisitsFromInOrder(ranges, blocked, k + 1);
      var below := blocked + CardsOf(ranges[0][k]);
      VisitsInOrder(ranges[1..], below);
      var mine, others := Prefixed(k, Visits(ranges[1..], below)), VisitsFrom(ranges, blocked, k + 1);
      PrefixedInOrder(k, Visits(ranges[1..], below));
      forall x, y | x in mine && y in others ensures Before(x, y) {
        PrefixedMembers(k, Visits(ranges[1..], below), x);
        VisitsFromExactly(ranges, blocked, k + 1, y);
      }
      OrderedJoin(mine, others);
      assert mine + [] == mine;
    }
  }

  lemma NothingInOrder()
    ensures InOrder([])
  {
  }

  /**
   The node count of the unbounded search is the number of compatible choices of first hands before which, in
   depth-first order, there is no complete deal: `visits` lists exactly these, each once.
   */
  lemma NodesExactly(ranges: seq<Range>, blocked: set<nat>) returns (visits: seq<seq<nat>>)
    ensures |visits| == Explore(ranges, blocked).nodes
    ensures forall c :: c in visits <==> Reached(ranges, blocked, c)
    ensures forall i, j :: 0 <= i < j < |visits| ==> Before(visits[i], visits[j])
  {
    hide Explore, Visits, Reached;
    visits := Visits(ranges, blocked);
    VisitsCounted(ranges, blocked);
    VisitsInOrder(ranges, blocked);
    forall c ensures c in visits <==> Reached(ranges, blocked, c) {
      VisitsExactly(ranges, blocked, c);
    }
  }
}
