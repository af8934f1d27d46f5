/** Weighted private-hand ranges, blockers, and what a compatible joint deal is. */
module PrivateRanges {
  import opened SeqFolds
  import opened Poker

  const CARD_SLOTS := 64
  const MIN_SEATS := 2
  const MAX_BOARD := 5

  datatype Entry = Entry(first: nat, second: nat, weight: real)

  type Range = seq<Entry>

  function CardsOf(e: Entry): set<nat> {
    {e.first, e.second}
  }

  /** The entry can be dealt: it has weight and none of its cards is taken. */
  predicate Fits(e: Entry, blocked: set<nat>) {
    e.weight > 0.0 && e.first !in blocked && e.second !in blocked
  }

  predicate ValidEntry(e: Entry) {
    ValidCard(e.first) && ValidCard(e.second) && e.first != e.second && e.weight >= 0.0
  }

  predicate ValidRange(range: Range) {
    forall i :: 0 <= i < |range| ==> ValidEntry(range[i])
  }

  predicate ValidRanges(ranges: seq<Range>) {
    forall i :: 0 <= i < |ranges| ==> ValidRange(ranges[i])
  }

  // ---------------------------------------------------------------- deals

  /** One entry index per seat. */
  predicate Chooses(ranges: seq<Range>, choice: seq<nat>) {
    |choice| == |ranges| && forall i :: 0 <= i < |ranges| ==> choice[i] < |ranges[i]|
  }

  /** Chosen hands have weight, are off the blocked cards and share no card. */
  predicate IsDeal(ranges: seq<Range>, blocked: set<nat>, choice: seq<nat>) {
    && Chooses(ranges, choice)
    && (forall i :: 0 <= i < |ranges| ==> Fits(ranges[i][choice[i]], blocked))
    && (forall i, j :: 0 <= i < j < |ranges| ==> CardsOf(ranges[i][choice[i]]) !! CardsOf(ranges[j][choice[j]]))
  }

  ghost predicate DealExists(ranges: seq<Range>, blocked: set<nat>) {
    exists choice :: IsDeal(ranges, blocked, choice)
  }

  lemma FitsBeside(e: Entry, blocked: set<nat>, cards: set<nat>)
    ensures Fits(e, blocked + cards) <==> Fits(e, blocked) && CardsOf(e) !! cards
  {
    assert e.first in CardsOf(e) && e.second in CardsOf(e);
  }

  lemma DealSplits(ranges: seq<Range>, blocked: set<nat>, k: nat, rest: seq<nat>)
    requires ranges != [] && k < |ranges[0]| && IsDeal(ranges, blocked, [k] + rest)
    ensures Fits(ranges[0][k], blocked) && IsDeal(ranges[1..], blocked + CardsOf(ranges[0][k]), rest)
  {
    hide Fits, CardsOf;
    var choice, e := [k] + rest, ranges[0][k];
    assert choice[0] == k;
    forall i | 0 <= i < |ranges[1..]|
      ensures rest[i] < |ranges[1..][i]| && Fits(ranges[1..][i][rest[i]], blocked + CardsOf(e))
    {
      var j := i + 1;
      assert choice[j] == rest[i] && ranges[1..][i] == ranges[j];
      FitsBeside(ranges[j][choice[j]], blocked, CardsOf(e));
    }
    forall i, j | 0 <= i < j < |ranges[1..]|
      ensures CardsOf(ranges[1..][i][rest[i]]) !! CardsOf(ranges[1..][j][rest[j]])
    {
      var i', j' := i + 1, j + 1;
      assert choice[i'] == rest[i] && choice[j'] == rest[j];
    }
  }

  lemma DealJoins(ranges: seq<Range>, blocked: set<nat>, k: nat, rest: seq<nat>)
    requires ranges != [] && k < |ranges[0]|
    requires Fits(ranges[0][k], blocked) && IsDeal(ranges[1..], blocked + CardsOf(ranges[0][k]), rest)
    ensures IsDeal(ranges, blocked, [k] + rest)
  {
    hide Fits, CardsOf;
    var choice, e := [k] + rest, ranges[0][k];
    forall i | 1 <= i < |ranges|
      ensures choice[i] < |ranges[i]| && Fits(ranges[i][choice[i]], blocked)
              && CardsOf(ranges[i][choice[i]]) !! CardsOf(e)
    {
      var h := i - 1;
      assert choice[i] == rest[h] && ranges[1..][h] == ranges[i];
      FitsBeside(ranges[i][choice[i]], blocked, CardsOf(e));
    }
    forall i, j | 0 <= i < j < |ranges| ensures CardsOf(ranges[i][choice[i]]) !! CardsOf(ranges[j][choice[j]]) {
      if i > 0 {
        var g, h := i - 1, j - 1;
        assert choice[j] == rest[h] && ranges[1..][h] == ranges[j];
        assert choice[i] == rest[g] && ranges[1..][g] == ranges[i];
      }
    }
  }

  /** A deal is a hand for the first seat and a deal of the rest that avoids it. */
  lemma DealStep(ranges: seq<Range>, blocked: set<nat>, k: nat, rest: seq<nat>)
    requires ranges != [] && k < |ranges[0]|
    ensures IsDeal(ranges, blocked, [k] + rest) <==>
            Fits(ranges[0][k], blocked) && IsDeal(ranges[1..], blocked + CardsOf(ranges[0][k]), rest)
  {
    hide Fits, CardsOf, IsDeal;
    if IsDeal(ranges, blocked, [k] + rest) {
      DealSplits(ranges, blocked, k, rest);
    }
    if Fits(ranges[0][k], blocked) && IsDeal(ranges[1..], blocked + CardsOf(ranges[0][k]), rest) {
      DealJoins(ranges, blocked, k, rest);
    }
  }

  // ---------------------------------------------------------------- seats in another order

  /** A permutation of the seats. */
  predicate IsOrder(order: seq<nat>, n: nat) {
    |order| == n && (forall i :: 0 <= i < n ==> order[i] < n) && Distinct(order)
  }

  function Ordered<T>(items: seq<T>, order: seq<nat>): (r: seq<T>)
    requires forall i :: 0 <= i < |order| ==> order[i] < |items|
    ensures |r| == |order|
  {
    seq(|order|, i requires 0 <= i < |order| => items[order[i]])
  }

  lemma OrderedDeal(ranges: seq<Range>, blocked: set<nat>, order: seq<nat>, choice: seq<nat>)
    requires IsOrder(order, |ranges|) && IsDeal(ranges, blocked, choice)
    ensures IsDeal(Ordered(ranges, order), blocked, Ordered(choice, order))
  {
    var o, c := Ordered(ranges, order), Ordered(choice, order);
    forall i, j | 0 <= i < j < |o| ensures CardsOf(o[i][c[i]]) !! CardsOf(o[j][c[j]]) {
      var a, b := order[i], order[j];
      assert a != b && c[i] == choice[a] && c[j] == choice[b];
      if a < b {
        assert CardsOf(ranges[a][choice[a]]) !! CardsOf(ranges[b][choice[b]]);
      } else {
        assert CardsOf(ranges[b][choice[b]]) !! CardsOf(ranges[a][choice[a]]);
      }
    }
  }

  function Below(n: nat): (r: set<nat>)
    ensures |r| == n && forall k: nat :: k in r <==> k < n
  {
    if n == 0 then {} else Below(n - 1) + {n - 1}
  }

  function ValuesOf(s: seq<nat>): (r: set<nat>)
    ensures forall x :: x in r <==> x in s
    ensures Distinct(s) ==> |r| == |s|
  {
    if s == [] then {}
    else
      var front, last := s[..|s| - 1], s[|s| - 1];
      assert s == front + [last];
      ValuesOf(front) + {last}
  }

  /** Every seat has its place in the order. */
  lemma EverySeatPlaced(order: seq<nat>, n: nat)
    requires IsOrder(order, n)
    ensures forall seat: nat :: seat < n ==> seat in order
  {
    var hit, all := ValuesOf(order), Below(n);
    assert hit <= all;
    assert all == hit + (all - hit);
    assert |all| == |hit| + |all - hit|;
    assert hit == all;
  }

  function IndexIn(s: seq<nat>, x: nat): (i: nat)
    requires x in s
    ensures i < |s| && s[i] == x
  {
    if s[0] == x then 0
    else
      assert s == [s[0]] + s[1..];
      1 + IndexIn(s[1..], x)
  }

  function Inverse(order: seq<nat>, n: nat): (r: seq<nat>)
    requires IsOrder(order, n)
    ensures |r| == n && forall seat :: 0 <= seat < n ==> r[seat] < n && order[r[seat]] == seat
  {
    EverySeatPlaced(order, n);
    seq(n, seat requires 0 <= seat < n => IndexIn(order, seat))
  }

  lemma InverseIsOrder(order: seq<nat>, n: nat)
    requires IsOrder(order, n)
    ensures IsOrder(Inverse(order, n), n)
  {
  }

  /** Whether a joint deal exists does not depend on the order of the seats. */
  lemma DealExistsInAnyOrder(ranges: seq<Range>, blocked: set<nat>, order: seq<nat>)
    requires IsOrder(order, |ranges|)
    ensures DealExists(Ordered(ranges, order), blocked) <==> DealExists(ranges, blocked)
  {
    if DealExists(ranges, blocked) {
      var choice :| IsDeal(ranges, blocked, choice);
      OrderedDeal(ranges, blocked, order, choice);
    }
    if DealExists(Ordered(ranges, order), blocked) {
      var back, o := Inverse(order, |ranges|), Ordered(ranges, order);
      var choice :| IsDeal(o, blocked, choice);
      InverseIsOrder(order, |ranges|);
      OrderedDeal(o, blocked, back, choice);
      assert Ordered(o, back) == ranges;
    }
  }
}
