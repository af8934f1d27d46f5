/**
 All the sequential sampler can do: every deal it can accept, once each, and every dead end it can run
 into.  Their reaches add up to exactly one.
 */
module PrivateReach {
  import opened Wrappers
  import opened Poker
  import opened PrivateRanges
  import opened PrivateSampler

  function Prefixed(k: nat, list: seq<seq<nat>>): (r: seq<seq<nat>>)
    ensures |r| == |list| && forall i :: 0 <= i < |r| ==> r[i] == [k] + list[i]
  {
    seq(|list|, i requires 0 <= i < |list| => [k] + list[i])
  }

  /** The acceptable deals, in the order of the entries. */
  function Deals(ranges: seq<Range>, blocked: set<nat>): seq<seq<nat>>
    decreases |ranges|, if ranges == [] then 0 else |ranges[0]| + 1
  {
    if ranges == [] then [[]] else DealsFrom(ranges, blocked, 0)
  }

  function DealsFrom(ranges: seq<Range>, blocked: set<nat>, k: nat): seq<seq<nat>>
    requires ranges != [] && k <= |ranges[0]|
    decreases |ranges|, |ranges[0]| - k
  {
    if k == |ranges[0]| then []
    else
      var e := ranges[0][k];
      (if Fits(e, blocked) then Prefixed(k, Deals(ranges[1..], blocked + CardsOf(e))) else []) +
      DealsFrom(ranges, blocked, k + 1)
  }

  /** The choices after which the next seat has no compatible weight. */
  function DeadEnds(ranges: seq<Range>, blocked: set<nat>): seq<seq<nat>>
    requires ValidRanges(ranges)
    decreases |ranges|, if ranges == [] then 0 else |ranges[0]| + 1
  {
    if ranges == [] then []
    else if Mass(ranges[0], blocked) <= 0.0 then [[]]
    else DeadEndsFrom(ranges, blocked, 0)
  }

  function DeadEndsFrom(ranges: seq<Range>, blocked: set<nat>, k: nat): seq<seq<nat>>
    requires ranges != [] && k <= |ranges[0]| && ValidRanges(ranges)
    decreases |ranges|, |ranges[0]| - k
  {
    if k == |ranges[0]| then []
    else
      var e := ranges[0][k];
      (if Fits(e, blocked) then Prefixed(k, DeadEnds(ranges[1..], blocked + CardsOf(e))) else []) +
      DeadEndsFrom(ranges, blocked, k + 1)
  }

  predicate Prefixes(ranges: seq<Range>, list: seq<seq<nat>>) {
    forall i :: 0 <= i < |list| ==> Prefix(ranges, list[i])
  }

  function SumReach(ranges: seq<Range>, blocked: set<nat>, list: seq<seq<nat>>): real
    requires ValidRanges(ranges) && Prefixes(ranges, list)
    decreases |list|
  {
    if list == [] then 0.0 else Reach(ranges, blocked, list[0]) + SumReach(ranges, blocked, list[1..])
  }

  // ---------------------------------------------------------------- the list of deals is right

  /** Sequences that begin with `j`, for some `j` from `k` on. */
  predicate StartsAt(choice: seq<nat>, k: nat) {
    choice != [] && choice[0] >= k
  }

  lemma {:induction false} DealsAreListed(ranges: seq<Range>, blocked: set<nat>, choice: seq<nat>)
    ensures choice in Deals(ranges, blocked) <==> IsDeal(ranges, blocked, choice)
    decreases |ranges|, if ranges == [] then 0 else |ranges[0]| + 1
  {
    if ranges == [] {
      assert Deals(ranges, blocked) == [[]];
    } else {
      DealsFromListed(ranges, blocked, 0, choice);
    }
  }

  lemma PrefixedHolds(k: nat, list: seq<seq<nat>>, choice: seq<nat>)
    ensures choice in Prefixed(k, list) <==> choice != [] && choice[0] == k && choice[1..] in list
  {
    var r := Prefixed(k, list);
    if choice in r {
      var i :| 0 <= i < |r| && r[i] == choice;
      assert choice == [k] + list[i];
    }
    if choice != [] && choice[0] == k && choice[1..] in list {
      var i :| 0 <= i < |list| && list[i] == choice[1..];
      assert choice == [k] + choice[1..];
      assert r[i] == choice;
    }
  }

  lemma {:induction false} DealsFromListed(ranges: seq<Range>, blocked: set<nat>, k: nat, choice: seq<nat>)
    requires ranges != [] && k <= |ranges[0]|
    ensures choice in DealsFrom(ranges, blocked, k) <==> StartsAt(choice, k) && IsDeal(ranges, blocked, choice)
    decreases |ranges|, |ranges[0]| - k
  {
    hide Fits, CardsOf, IsDeal;
    if k == |ranges[0]| {
      NoIndexBeyond(ranges, blocked, choice);
    } else {
      DealsFromListed(ranges, blocked, k + 1, choice);
      var e := ranges[0][k];
      PrefixedHolds(k, Deals(ranges[1..], blocked + CardsOf(e)), choice);
      if choice != [] && choice[0] == k {
        assert choice == [k] + choice[1..];
        DealsAreListed(ranges[1..], blocked + CardsOf(e), choice[1..]);
        DealStep(ranges, blocked, k, choice[1..]);
      }
      if choice == [] {
        NoIndexBeyond(ranges, blocked, choice);
      }
    }
  }

  lemma NoIndexBeyond(ranges: seq<Range>, blocked: set<nat>, choice: seq<nat>)
    requires ranges != []
    ensures IsDeal(ranges, blocked, choice) ==> choice != [] && choice[0] < |ranges[0]|
  {
  }

  /** No deal is listed twice. */
  lemma {:induction false} DealsListedOnce(ranges: seq<Range>, blocked: set<nat>, i: nat, j: nat)
    requires i < j < |Deals(ranges, blocked)|
    ensures Deals(ranges, blocked)[i] != Deals(ranges, blocked)[j]
    decreases |ranges|, if ranges == [] then 0 else |ranges[0]| + 1
  {
    if ranges != [] {
      DealsFromOnce(ranges, blocked, 0, i, j);
    }
  }

  lemma {:induction false} DealsFromOnce(ranges: seq<Range>, blocked: set<nat>, k: nat, i: nat, j: nat)
    requires ranges != [] && k <= |ranges[0]| && i < j < |DealsFrom(ranges, blocked, k)|
    ensures DealsFrom(ranges, blocked, k)[i] != DealsFrom(ranges, blocked, k)[j]
    decreases |ranges|, |ranges[0]| - k
  {
    hide Fits, CardsOf, IsDeal;
    var e, list, later := ranges[0][k], DealsFrom(ranges, blocked, k), DealsFrom(ranges, blocked, k + 1);
    var rest := Deals(ranges[1..], blocked + CardsOf(e));
    var mine := if Fits(e, blocked) then Prefixed(k, rest) else [];
    assert list == mine + later;
    if j < |mine| {
      DealsListedOnce(ranges[1..], blocked + CardsOf(e), i, j);
      assert list[i][1..] == rest[i] && list[j][1..] == rest[j];
    } else {
      assert list[j] == later[j - |mine|] && later[j - |mine|] in later;
      DealsFromListed(ranges, blocked, k + 1, list[j]);
      if i < |mine| {
        assert list[i][0] == k;
      } else {
        DealsFromOnce(ranges, blocked, k + 1, i - |mine|, j - |mine|);
      }
    }
  }

  /** Hands along the choice have weight and avoid everything dealt before them. */
  predicate Compatible(ranges: seq<Range>, blocked: set<nat>, choice: seq<nat>)
    requires Prefix(ranges, choice)
    decreases |choice|
  {
    choice != [] ==>
      Fits(ranges[0][choice[0]], blocked) &&
      Compatible(ranges[1..], blocked + CardsOf(ranges[0][choice[0]]), choice[1..])
  }

  /** A compatible choice for the first seats that leaves the next seat nothing. */
  ghost predicate IsDeadEnd(ranges: seq<Range>, blocked: set<nat>, choice: seq<nat>)
    requires ValidRanges(ranges)
  {
    && Prefix(ranges, choice) && |choice| < |ranges| && Compatible(ranges, blocked, choice)
    && Mass(ranges[|choice|], BlockedAfter(ranges, blocked, choice)) <= 0.0
  }

  lemma DeadEndStep(ranges: seq<Range>, blocked: set<nat>, k: nat, rest: seq<nat>)
    requires ValidRanges(ranges) && ranges != [] && k < |ranges[0]|
    ensures IsDeadEnd(ranges, blocked, [k] + rest) <==>
            Fits(ranges[0][k], blocked) && IsDeadEnd(ranges[1..], blocked + CardsOf(ranges[0][k]), rest)
  {
    hide Fits, CardsOf, ValidRange, Mass;
    var choice := [k] + rest;
    assert choice[1..] == rest;
    if Prefix(ranges[1..], rest) {
      forall i | 0 <= i < |choice| ensures choice[i] < |ranges[i]| {
        if i > 0 {
          var h := i - 1;
          assert choice[i] == rest[h] && ranges[1..][h] == ranges[i];
        }
      }
    }
    if Prefix(ranges, choice) {
      forall h | 0 <= h < |rest| ensures rest[h] < |ranges[1..][h]| {
        var i := h + 1;
        assert choice[i] == rest[h] && ranges[1..][h] == ranges[i];
      }
    }
  }

  /** The dead ends listed are exactly the choices at which a sequential draw gives up. */
  lemma {:induction false} DeadEndsAreListed(ranges: seq<Range>, blocked: set<nat>, choice: seq<nat>)
    requires ValidRanges(ranges)
    ensures choice in DeadEnds(ranges, blocked) <==> IsDeadEnd(ranges, blocked, choice)
    decreases |ranges|, if ranges == [] then 0 else |ranges[0]| + 1
  {
    hide CardsOf, ValidRange, Cum, Fits;
    if ranges != [] {
      if Mass(ranges[0], blocked) > 0.0 {
        DeadEndsFromListed(ranges, blocked, 0, choice);
        hide Mass;
        assert choice == [] ==> !IsDeadEnd(ranges, blocked, choice);
      } else if choice != [] && Prefix(ranges, choice) {
        NoMassNoHand(ranges[0], blocked, choice[0]);
      }
    }
  }

  lemma {:induction false} DeadEndsFromListed(ranges: seq<Range>, blocked: set<nat>, k: nat, choice: seq<nat>)
    requires ranges != [] && k <= |ranges[0]| && ValidRanges(ranges)
    ensures choice in DeadEndsFrom(ranges, blocked, k) <==> StartsAt(choice, k) && IsDeadEnd(ranges, blocked, choice)
    decreases |ranges|, |ranges[0]| - k
  {
    hide Fits, CardsOf, ValidRange, IsDeadEnd;
    if k == |ranges[0]| {
      assert StartsAt(choice, k) ==> !Prefix(ranges, choice);
      DeadEndIsPrefix(ranges, blocked, choice);
    } else {
      DeadEndsFromListed(ranges, blocked, k + 1, choice);
      var e := ranges[0][k];
      PrefixedHolds(k, DeadEnds(ranges[1..], blocked + CardsOf(e)), choice);
      if choice != [] && choice[0] == k {
        assert choice == [k] + choice[1..];
        DeadEndsAreListed(ranges[1..], blocked + CardsOf(e), choice[1..]);
        DeadEndStep(ranges, blocked, k, choice[1..]);
      }
    }
  }

  lemma DeadEndIsPrefix(ranges: seq<Range>, blocked: set<nat>, choice: seq<nat>)
    requires ValidRanges(ranges)
    ensures IsDeadEnd(ranges, blocked, choice) ==> Prefix(ranges, choice)
  {
  }

  /** A draw that gave up after `choice` ran into a listed dead end; one that finished accepted a listed deal. */
  lemma {:induction false} DrawsEndInTheLists(ranges: seq<Range>, blocked: set<nat>, draws: seq<real>, choice: seq<nat>)
    requires ValidRanges(ranges) && Prefix(ranges, choice) && Follows(ranges, blocked, draws, choice)
    ensures |choice| == |ranges| ==> choice in Deals(ranges, blocked)
    ensures |choice| < |ranges| && Mass(ranges[|choice|], BlockedAfter(ranges, blocked, choice)) == 0.0 ==>
              choice in DeadEnds(ranges, blocked)
  {
    DealsAreListed(ranges, blocked, choice);
    DeadEndsAreListed(ranges, blocked, choice);
    FollowedIsCompatible(ranges, blocked, draws, choice);
    if |choice| == |ranges| {
      FollowedIsDeal(ranges, blocked, draws, choice);
    }
  }

  lemma {:induction false} FollowedIsCompatible(ranges: seq<Range>, blocked: set<nat>, draws: seq<real>,
                                                choice: seq<nat>)
    requires ValidRanges(ranges) && Prefix(ranges, choice) && Follows(ranges, blocked, draws, choice)
    ensures Compatible(ranges, blocked, choice)
    decreases |choice|
  {
    if choice != [] {
      FollowedIsCompatible(ranges[1..], blocked + CardsOf(ranges[0][choice[0]]), draws[1..], choice[1..]);
    }
  }

  // ---------------------------------------------------------------- sums

  lemma {:induction false} DealsArePrefixes(ranges: seq<Range>, blocked: set<nat>)
    ensures Prefixes(ranges, Deals(ranges, blocked))
  {
    var list := Deals(ranges, blocked);
    forall i | 0 <= i < |list| ensures Prefix(ranges, list[i]) {
      assert list[i] in list;
      DealsAreListed(ranges, blocked, list[i]);
    }
  }

  lemma {:induction false} DealsFromArePrefixes(ranges: seq<Range>, blocked: set<nat>, k: nat)
    requires ranges != [] && k <= |ranges[0]|
    ensures Prefixes(ranges, DealsFrom(ranges, blocked, k))
  {
    var list := DealsFrom(ranges, blocked, k);
    forall i | 0 <= i < |list| ensures Prefix(ranges, list[i]) {
      assert list[i] in list;
      DealsFromListed(ranges, blocked, k, list[i]);
    }
  }

  lemma PrefixedPrefixes(ranges: seq<Range>, k: nat, list: seq<seq<nat>>)
    requires ranges != [] && k < |ranges[0]| && Prefixes(ranges[1..], list)
    ensures Prefixes(ranges, Prefixed(k, list))
  {
    var r := Prefixed(k, list);
    forall i | 0 <= i < |r| ensures Prefix(ranges, r[i]) {
      forall j | 0 <= j < |r[i]| ensures r[i][j] < |ranges[j]| {
        if j > 0 {
          var h := j - 1;
          assert r[i][j] == list[i][h] && ranges[1..][h] == ranges[j];
        }
      }
    }
  }

  lemma {:induction false} DeadEndsArePrefixes(ranges: seq<Range>, blocked: set<nat>)
    requires ValidRanges(ranges)
    ensures Prefixes(ranges, DeadEnds(ranges, blocked))
    decreases |ranges|, if ranges == [] then 0 else |ranges[0]| + 1
  {
    if ranges != [] && Mass(ranges[0], blocked) > 0.0 {
      DeadEndsFromArePrefixes(ranges, blocked, 0);
    }
  }

  lemma {:induction false} DeadEndsFromArePrefixes(ranges: seq<Range>, blocked: set<nat>, k: nat)
    requires ranges != [] && k <= |ranges[0]| && ValidRanges(ranges)
    ensures Prefixes(ranges, DeadEndsFrom(ranges, blocked, k))
    decreases |ranges|, |ranges[0]| - k
  {
    hide Fits, CardsOf, ValidRange;
    if k < |ranges[0]| {
      var below := blocked + CardsOf(ranges[0][k]);
      DeadEndsArePrefixes(ranges[1..], below);
      PrefixedPrefixes(ranges, k, DeadEnds(ranges[1..], below));
      DeadEndsFromArePrefixes(ranges, blocked, k + 1);
    }
  }

  lemma {:induction false} SumConcat(ranges: seq<Range>, blocked: set<nat>, a: seq<seq<nat>>, b: seq<seq<nat>>)
    requires ValidRanges(ranges) && Prefixes(ranges, a) && Prefixes(ranges, b)
    ensures Prefixes(ranges, a + b)
    ensures SumReach(ranges, blocked, a + b) == SumReach(ranges, blocked, a) + SumReach(ranges, blocked, b)
    decreases |a|
  {
    hide ValidRange, Prefix;
    if a == [] {
      assert a + b == b;
    } else {
      assert (a + b)[1..] == a[1..] + b;
      SumConcat(ranges, blocked, a[1..], b);
    }
  }

  lemma Distributes(a: real, b: real, c: real)
    ensures Product(a, b + c) == Product(a, b) + Product(a, c) && Product(a, 0.0) == 0.0 && Product(a, 1.0) == a
  {
  }

  lemma {:induction false} SumPrefixed(ranges: seq<Range>, blocked: set<nat>, k: nat, list: seq<seq<nat>>)
    requires ValidRanges(ranges) && ranges != [] && k < |ranges[0]| && Prefixes(ranges[1..], list)
    ensures Prefixes(ranges, Prefixed(k, list))
    ensures SumReach(ranges, blocked, Prefixed(k, list)) ==
            Product(Share(ranges[0], blocked, k), SumReach(ranges[1..], blocked + CardsOf(ranges[0][k]), list))
    decreases |list|
  {
    hide Product, Share, ValidRange, CardsOf;
    PrefixedPrefixes(ranges, k, list);
    var share, below := Share(ranges[0], blocked, k), blocked + CardsOf(ranges[0][k]);
    if list == [] {
      Distributes(share, 0.0, 0.0);
    } else {
      SumPrefixed(ranges, blocked, k, list[1..]);
      assert Prefixed(k, list)[1..] == Prefixed(k, list[1..]);
      assert Prefixed(k, list)[0] == [k] + list[0] && ([k] + list[0])[1..] == list[0];
      Distributes(share, Reach(ranges[1..], below, list[0]), SumReach(ranges[1..], below, list[1..]));
    }
  }

  // ---------------------------------------------------------------- the reaches add up to one

  /** Over exact reals, accepted deals and dead ends share out exactly the whole probability. */
  lemma {:induction false} ReachesSumToOne(ranges: seq<Range>, blocked: set<nat>)
    requires ValidRanges(ranges)
    ensures Prefixes(ranges, Deals(ranges, blocked)) && Prefixes(ranges, DeadEnds(ranges, blocked))
    ensures SumReach(ranges, blocked, Deals(ranges, blocked)) + SumReach(ranges, blocked, DeadEnds(ranges, blocked))
            == 1.0
    decreases |ranges|, if ranges == [] then 0 else |ranges[0]| + 1
  {
    hide Fits, CardsOf, ValidRange, Share, Cum;
    DealsArePrefixes(ranges, blocked);
    DeadEndsArePrefixes(ranges, blocked);
    if ranges == [] {
      OneEmptyChoice(ranges, blocked);
    } else if Mass(ranges[0], blocked) <= 0.0 {
      NoDealWithoutMass(ranges, blocked, 0);
      OneEmptyChoice(ranges, blocked);
    } else {
      RemainingReach(ranges, blocked, 0);
      NothingSummed(ranges[0], blocked);
    }
  }

  lemma NothingSummed(range: Range, blocked: set<nat>)
    requires ValidRange(range) && Mass(range, blocked) > 0.0
    ensures Remainder(range, blocked, 0) == 1.0
  {
  }

  lemma OneEmptyChoice(ranges: seq<Range>, blocked: set<nat>)
    requires ValidRanges(ranges)
    ensures SumReach(ranges, blocked, [[]]) == 1.0 && SumReach(ranges, blocked, []) == 0.0
  {
    hide ValidRange;
    var none: seq<seq<nat>> := [];
    assert [[]][1..] == none;
  }

  lemma {:induction false} NoDealWithoutMass(ranges: seq<Range>, blocked: set<nat>, k: nat)
    requires ValidRanges(ranges) && ranges != [] && k <= |ranges[0]| && Mass(ranges[0], blocked) <= 0.0
    ensures DealsFrom(ranges, blocked, k) == []
    decreases |ranges[0]| - k
  {
    hide Fits, Mass;
    if k < |ranges[0]| {
      NoMassNoHand(ranges[0], blocked, k);
      NoDealWithoutMass(ranges, blocked, k + 1);
    }
  }

  /** The part of the mass that entries from `k` on hold. */
  function Remainder(range: Range, blocked: set<nat>, k: nat): real
    requires ValidRange(range) && k <= |range| && Mass(range, blocked) > 0.0
  {
    (Mass(range, blocked) - Cum(range, blocked, k)) / Mass(range, blocked)
  }

  lemma RemainderStep(range: Range, blocked: set<nat>, k: nat)
    requires ValidRange(range) && k < |range| && Mass(range, blocked) > 0.0
    ensures Remainder(range, blocked, k) ==
            Remainder(range, blocked, k + 1) + (if Fits(range[k], blocked) then Share(range, blocked, k) else 0.0)
  {
    var m, w := Mass(range, blocked), Cum(range, blocked, k + 1) - Cum(range, blocked, k);
    hide Mass, Cum;
    assert w == if Fits(range[k], blocked) then range[k].weight else 0.0 by {
      CumStep(range, blocked, k);
    }
    Quotients(m - Cum(range, blocked, k + 1), w, m);
  }

  lemma CumStep(range: Range, blocked: set<nat>, k: nat)
    requires ValidRange(range) && k < |range|
    ensures Cum(range, blocked, k + 1) - Cum(range, blocked, k)
            == if Fits(range[k], blocked) then range[k].weight else 0.0
  {
  }

  lemma Quotients(a: real, b: real, d: real)
    requires d > 0.0
    ensures (a + b) / d == a / d + b / d && 0.0 / d == 0.0
  {
  }

  lemma {:induction false} RemainingReach(ranges: seq<Range>, blocked: set<nat>, k: nat)
    requires ValidRanges(ranges) && ranges != [] && k <= |ranges[0]| && Mass(ranges[0], blocked) > 0.0
    ensures Prefixes(ranges, DealsFrom(ranges, blocked, k)) && Prefixes(ranges, DeadEndsFrom(ranges, blocked, k))
    ensures SumReach(ranges, blocked, DealsFrom(ranges, blocked, k)) +
            SumReach(ranges, blocked, DeadEndsFrom(ranges, blocked, k)) == Remainder(ranges[0], blocked, k)
    decreases |ranges|, |ranges[0]| - k
  {
    hide Fits, CardsOf, ValidRange, Share, Mass, Product;
    DealsFromArePrefixes(ranges, blocked, k);
    DeadEndsFromArePrefixes(ranges, blocked, k);
    if k == |ranges[0]| {
      NothingRemains(ranges[0], blocked);
    } else {
      hide Remainder, Cum, SumReach;
      RemainingReach(ranges, blocked, k + 1);
      RemainderStep(ranges[0], blocked, k);
      EntryReach(ranges, blocked, k);
    }
  }

  lemma NothingRemains(range: Range, blocked: set<nat>)
    requires ValidRange(range) && Mass(range, blocked) > 0.0
    ensures Remainder(range, blocked, |range|) == 0.0
  {
  }

  /** What entry `k` adds to both sums: its share of the mass, if it can be dealt. */
  lemma {:induction false} EntryReach(ranges: seq<Range>, blocked: set<nat>, k: nat)
    requires ValidRanges(ranges) && ranges != [] && k < |ranges[0]|
    ensures Prefixes(ranges, DealsFrom(ranges, blocked, k)) && Prefixes(ranges, DeadEndsFrom(ranges, blocked, k))
    ensures Prefixes(ranges, DealsFrom(ranges, blocked, k + 1))
            && Prefixes(ranges, DeadEndsFrom(ranges, blocked, k + 1))
    ensures SumReach(ranges, blocked, DealsFrom(ranges, blocked, k)) +
            SumReach(ranges, blocked, DeadEndsFrom(ranges, blocked, k)) ==
            SumReach(ranges, blocked, DealsFrom(ranges, blocked, k + 1)) +
            SumReach(ranges, blocked, DeadEndsFrom(ranges, blocked, k + 1)) +
            (if Fits(ranges[0][k], blocked) then Share(ranges[0], blocked, k) else 0.0)
    decreases |ranges|, |ranges[0]| - k, 0
  {
    hide Fits, CardsOf, ValidRange, Share, Mass, Product, SumReach;
    DealsFromArePrefixes(ranges, blocked, k);
    DeadEndsFromArePrefixes(ranges, blocked, k);
    DealsFromArePrefixes(ranges, blocked, k + 1);
    DeadEndsFromArePrefixes(ranges, blocked, k + 1);
    var e, share := ranges[0][k], Share(ranges[0], blocked, k);
    if Fits(e, blocked) {
      var below := blocked + CardsOf(e);
      var deals, ends := Deals(ranges[1..], below), DeadEnds(ranges[1..], below);
      ReachesSumToOne(ranges[1..], below);
      SumPrefixed(ranges, blocked, k, deals);
      SumPrefixed(ranges, blocked, k, ends);
      SumConcat(ranges, blocked, Prefixed(k, deals), DealsFrom(ranges, blocked, k + 1));
      SumConcat(ranges, blocked, Prefixed(k, ends), DeadEndsFrom(ranges, blocked, k + 1));
      Distributes(share, SumReach(ranges[1..], below, deals), SumReach(ranges[1..], below, ends));
    } else {
      assert [] + DealsFrom(ranges, blocked, k + 1) == DealsFrom(ranges, blocked, k + 1);
      assert [] + DeadEndsFrom(ranges, blocked, k + 1) == DeadEndsFrom(ranges, blocked, k + 1);
    }
  }
}
