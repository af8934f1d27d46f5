/**
 Compiled ranges: hands in canonical order, each once, zero weights dropped.  Compiling changes no hand's
 total weight, so neither the masses drawn from nor the existence of a joint deal.
 */
module PrivateCompile {
  import opened Wrappers
  import opened Poker
  import opened PrivateRanges
  import opened PrivateSearch
  import opened PrivateSampler

  const DEFAULT_NODE_BUDGET := 1_000_000

  /** The lower card first. */
  function Canon(e: Entry): (r: Entry)
    ensures CardsOf(r) == CardsOf(e) && r.weight == e.weight && r.first <= r.second
  {
    if e.second < e.first then Entry(e.second, e.first, e.weight) else e
  }

  predicate HandBefore(a: Entry, b: Entry) {
    a.first < b.first || (a.first == b.first && a.second < b.second)
  }

  predicate SameHand(a: Entry, b: Entry) {
    a.first == b.first && a.second == b.second
  }

  /** Total weight of the hands a test selects, each hand looked at with its lower card first. */
  function Picked(range: Range, pick: (nat, nat) -> bool): real {
    if range == [] then 0.0
    else
      var last := Canon(range[|range| - 1]);
      Picked(range[..|range| - 1], pick) + (if pick(last.first, last.second) then last.weight else 0.0)
  }

  predicate AllCanonical(range: Range) {
    forall i :: 0 <= i < |range| ==> Canon(range[i]) == range[i]
  }

  /** Hands in order, a hand possibly several times. */
  predicate HandsClimb(range: Range) {
    forall i, j :: 0 <= i < j < |range| ==> !HandBefore(range[j], range[i])
  }

  /** Hands in order, each once. */
  predicate HandsClimbStrictly(range: Range) {
    forall i, j :: 0 <= i < j < |range| ==> HandBefore(range[i], range[j])
  }

  predicate AllPositive(range: Range) {
    forall i :: 0 <= i < |range| ==> range[i].weight > 0.0
  }

  predicate Compiled(range: Range) {
    ValidRange(range) && AllCanonical(range) && HandsClimbStrictly(range) && AllPositive(range)
  }

  // ---------------------------------------------------------------- sorting

  function InsertEntry(e: Entry, sorted: Range): (r: Range)
    ensures |r| == |sorted| + 1 && forall x :: x in r <==> x == e || x in sorted
  {
    if sorted == [] then [e]
    else
      var front, last := sorted[..|sorted| - 1], sorted[|sorted| - 1];
      assert sorted == front + [last];
      if HandBefore(e, last) then InsertEntry(e, front) + [last] else sorted + [e]
  }

  /** std::sort by hand. */
  function SortEntries(range: Range): (r: Range)
    ensures |r| == |range| && forall x :: x in r <==> x in range
  {
    if range == [] then []
    else
      assert range == range[..|range| - 1] + [range[|range| - 1]];
      InsertEntry(range[|range| - 1], SortEntries(range[..|range| - 1]))
  }

  lemma {:induction false} InsertKeeps(e: Entry, sorted: Range, pick: (nat, nat) -> bool)
    requires HandsClimb(sorted)
    ensures HandsClimb(InsertEntry(e, sorted))
    ensures Picked(InsertEntry(e, sorted), pick) == Picked(sorted + [e], pick)
  {
    var r := InsertEntry(e, sorted);
    if sorted != [] {
      var front, last := sorted[..|sorted| - 1], sorted[|sorted| - 1];
      assert forall i :: 0 <= i < |front| ==> front[i] == sorted[i];
      if HandBefore(e, last) {
        InsertKeeps(e, front, pick);
        var inner := InsertEntry(e, front);
        assert r[..|r| - 1] == inner && r[|r| - 1] == last;
        assert (sorted + [e])[..|sorted|] == sorted && (front + [e])[..|front|] == front;
        forall i, j | 0 <= i < j < |r| ensures !HandBefore(r[j], r[i]) {
          if j == |r| - 1 {
            assert r[i] == inner[i] && inner[i] in inner;
            assert r[i] == e || r[i] in front;
          }
        }
      }
    }
  }

  lemma {:induction false} SortKeeps(range: Range, pick: (nat, nat) -> bool)
    ensures HandsClimb(SortEntries(range)) && Picked(SortEntries(range), pick) == Picked(range, pick)
  {
    if range != [] {
      var front, last := range[..|range| - 1], range[|range| - 1];
      SortKeeps(front, pick);
      InsertKeeps(last, SortEntries(front), pick);
      assert (SortEntries(front) + [last])[..|front|] == SortEntries(front);
    }
  }

  // ---------------------------------------------------------------- merging

  /** One entry joins the compiled list: dropped, added to the hand before it, or appended. */
  function Merged(out: Range, e: Entry): Range {
    if e.weight == 0.0 then out
    else if out != [] && SameHand(out[|out| - 1], e) then
      out[|out| - 1 := out[|out| - 1].(weight := out[|out| - 1].weight + e.weight)]
    else out + [e]
  }

  function MergeAll(range: Range): Range {
    if range == [] then [] else Merged(MergeAll(range[..|range| - 1]), range[|range| - 1])
  }

  lemma MergePicks(out: Range, e: Entry, pick: (nat, nat) -> bool)
    requires AllCanonical(out) && Canon(e) == e
    ensures Picked(Merged(out, e), pick) ==
            Picked(out, pick) + (if pick(e.first, e.second) then e.weight else 0.0)
  {
    if e.weight != 0.0 {
      if out != [] && SameHand(out[|out| - 1], e) {
        assert Merged(out, e)[..|out| - 1] == out[..|out| - 1];
      } else {
        assert (out + [e])[..|out|] == out;
      }
    }
  }

  lemma MergeCompiles(out: Range, e: Entry)
    requires Compiled(out) && Canon(e) == e && ValidEntry(e)
    requires out != [] ==> !HandBefore(e, out[|out| - 1])
    ensures Compiled(Merged(out, e))
    ensures Merged(out, e) != [] ==>
              SameHand(Merged(out, e)[|Merged(out, e)| - 1], e) ||
              (out != [] && SameHand(Merged(out, e)[|Merged(out, e)| - 1], out[|out| - 1]))
  {
    var r := Merged(out, e);
    if e.weight != 0.0 && !(out != [] && SameHand(out[|out| - 1], e)) {
      forall i | 0 <= i < |out| ensures HandBefore(r[i], e) {
        assert i < |out| - 1 ==> HandBefore(out[i], out[|out| - 1]);
      }
    }
  }

  lemma FrontSorted(range: Range)
    requires ValidRange(range) && AllCanonical(range) && HandsClimb(range) && range != []
    ensures var front, last := range[..|range| - 1], range[|range| - 1];
            && ValidRange(front) && AllCanonical(front) && HandsClimb(front)
            && ValidEntry(last) && Canon(last) == last
            && forall i :: 0 <= i < |front| ==> !HandBefore(last, range[i])
  {
  }

  lemma CompiledIsCanonical(out: Range)
    requires Compiled(out)
    ensures AllCanonical(out)
  {
  }

  lemma {:induction false} MergeAllKeeps(range: Range, pick: (nat, nat) -> bool)
    requires ValidRange(range) && AllCanonical(range) && HandsClimb(range)
    ensures Compiled(MergeAll(range)) && Picked(MergeAll(range), pick) == Picked(range, pick)
    ensures MergeAll(range) != [] ==>
              exists i :: 0 <= i < |range| && SameHand(MergeAll(range)[|MergeAll(range)| - 1], range[i])
  {
    if range != [] {
      var front, last := range[..|range| - 1], range[|range| - 1];
      FrontSorted(range);
      hide ValidRange, AllCanonical, HandsClimb, Compiled, Merged;
      MergeAllKeeps(front, pick);
      var out := MergeAll(front);
      if out != [] {
        var i :| 0 <= i < |front| && SameHand(out[|out| - 1], front[i]);
        assert front[i] == range[i] && !HandBefore(last, range[i]);
      }
      MergeCompiles(out, last);
      CompiledIsCanonical(out);
      MergePicks(out, last, pick);
      assert range[|range| - 1] == last;
      if MergeAll(range) != [] && !SameHand(MergeAll(range)[|MergeAll(range)| - 1], last) {
        var i :| 0 <= i < |front| && SameHand(out[|out| - 1], front[i]);
        assert range[i] == front[i];
      }
    }
  }

  // ---------------------------------------------------------------- the whole pass

  function CanonAll(range: Range): (r: Range)
    ensures |r| == |range| && forall i :: 0 <= i < |r| ==> r[i] == Canon(range[i])
  {
    seq(|range|, i requires 0 <= i < |range| => Canon(range[i]))
  }

  function Compile(range: Range): Range {
    MergeAll(SortEntries(CanonAll(range)))
  }

  lemma CanonTwice(e: Entry)
    ensures Canon(Canon(e)) == Canon(e) && (ValidEntry(e) ==> ValidEntry(Canon(e)))
  {
  }

  lemma {:induction false} CanonPicks(range: Range, pick: (nat, nat) -> bool)
    ensures Picked(CanonAll(range), pick) == Picked(range, pick)
  {
    if range != [] {
      CanonPicks(range[..|range| - 1], pick);
      assert CanonAll(range)[..|range| - 1] == CanonAll(range[..|range| - 1]);
      CanonTwice(range[|range| - 1]);
    }
  }

  lemma SortedCanonical(range: Range)
    requires ValidRange(range)
    ensures ValidRange(SortEntries(CanonAll(range))) && AllCanonical(SortEntries(CanonAll(range)))
  {
    var canon, sorted := CanonAll(range), SortEntries(CanonAll(range));
    forall i | 0 <= i < |sorted| ensures ValidEntry(sorted[i]) && Canon(sorted[i]) == sorted[i] {
      assert sorted[i] in sorted;
      var j :| 0 <= j < |canon| && canon[j] == sorted[i];
      CanonTwice(range[j]);
    }
  }

  /** Compiling keeps the total weight of every selection of hands, and leaves each hand once, with weight. */
  lemma CompileKeepsWeights(range: Range, pick: (nat, nat) -> bool)
    requires ValidRange(range)
    ensures Compiled(Compile(range)) && Picked(Compile(range), pick) == Picked(range, pick)
  {
    hide ValidEntry, HandBefore, SameHand;
    SortedCanonical(range);
    SortKeeps(CanonAll(range), pick);
    MergeAllKeeps(SortEntries(CanonAll(range)), pick);
    CanonPicks(range, pick);
  }

  // ---------------------------------------------------------------- masses and deals survive

  function OffBoard(blocked: set<nat>): (nat, nat) -> bool {
    (a, b) => a !in blocked && b !in blocked
  }

  lemma {:induction false} MassIsPicked(range: Range, blocked: set<nat>, k: nat)
    requires ValidRange(range) && k <= |range|
    ensures Cum(range, blocked, k) == Picked(range[..k], OffBoard(blocked))
  {
    if k > 0 {
      MassIsPicked(range, blocked, k - 1);
      assert range[..k][..k - 1] == range[..k - 1];
    } else {
      assert range[..0] == [];
    }
  }

  /** Whatever is blocked, a compiled range offers the same mass as the range it was made from. */
  lemma CompileKeepsMass(range: Range, blocked: set<nat>)
    requires ValidRange(range)
    ensures ValidRange(Compile(range)) && Mass(Compile(range), blocked) == Mass(range, blocked)
  {
    CompileKeepsWeights(range, OffBoard(blocked));
    hide Compile, Picked, ValidEntry;
    MassIsPicked(range, blocked, |range|);
    MassIsPicked(Compile(range), blocked, |Compile(range)|);
    assert range[..|range|] == range && Compile(range)[..|Compile(range)|] == Compile(range);
  }

  function OnlyHand(e: Entry): (nat, nat) -> bool {
    (a, b) => a == Canon(e).first && b == Canon(e).second
  }

  lemma {:induction false} PickedPositive(range: Range, e: Entry)
    requires ValidRange(range)
    ensures Picked(range, OnlyHand(e)) >= 0.0
    ensures e in range && e.weight > 0.0 ==> Picked(range, OnlyHand(e)) > 0.0
    ensures Picked(range, OnlyHand(e)) > 0.0 ==>
              exists i :: 0 <= i < |range| && CardsOf(range[i]) == CardsOf(e) && range[i].weight > 0.0
  {
    if range != [] {
      var front, last := range[..|range| - 1], range[|range| - 1];
      assert range == front + [last];
      PickedPositive(front, e);
      if Picked(front, OnlyHand(e)) > 0.0 {
        var i :| 0 <= i < |front| && CardsOf(front[i]) == CardsOf(e) && front[i].weight > 0.0;
        assert range[i] == front[i];
      } else if Picked(range, OnlyHand(e)) > 0.0 {
        SameCanon(last, e);
        assert CardsOf(range[|range| - 1]) == CardsOf(e);
      }
    }
  }

  lemma SameCanon(a: Entry, b: Entry)
    ensures SameHand(Canon(a), Canon(b)) ==> CardsOf(a) == CardsOf(b)
  {
  }

  function CompileAll(ranges: seq<Range>): (r: seq<Range>)
    ensures |r| == |ranges| && forall i :: 0 <= i < |r| ==> r[i] == Compile(ranges[i])
  {
    seq(|ranges|, i requires 0 <= i < |ranges| => Compile(ranges[i]))
  }

  /** The range can deal the hand of `e`. */
  ghost predicate HasHand(range: Range, e: Entry) {
    exists k: nat :: k < |range| && CardsOf(range[k]) == CardsOf(e) && range[k].weight > 0.0
  }

  ghost function HandIndex(range: Range, e: Entry): (k: nat)
    requires HasHand(range, e)
    ensures k < |range| && CardsOf(range[k]) == CardsOf(e) && range[k].weight > 0.0
  {
    var k: nat :| k < |range| && CardsOf(range[k]) == CardsOf(e) && range[k].weight > 0.0;
    k
  }

  /** Two ranges that give a hand the same weight can both deal it or neither. */
  lemma SameWeightSameHand(a: Range, b: Range, e: Entry)
    requires ValidRange(a) && ValidRange(b) && e in a && e.weight > 0.0
    requires Picked(a, OnlyHand(e)) == Picked(b, OnlyHand(e))
    ensures HasHand(b, e)
  {
    PickedPositive(a, e);
    PickedPositive(b, e);
  }

  lemma SameCardsFit(a: Entry, b: Entry, blocked: set<nat>)
    requires CardsOf(a) == CardsOf(b) && a.weight > 0.0
    ensures Fits(b, blocked) ==> Fits(a, blocked)
  {
    assert a.first in CardsOf(a) && a.second in CardsOf(a);
  }

  /** The choice deals these cards, seat by seat. */
  ghost predicate DealsHands(ranges: seq<Range>, blocked: set<nat>, choice: seq<nat>, hands: seq<set<nat>>) {
    && IsDeal(ranges, blocked, choice) && |hands| == |ranges|
    && forall i :: 0 <= i < |hands| ==> CardsOf(ranges[i][choice[i]]) == hands[i]
  }

  /** Whoever has the same hands can make the same deal. */
  lemma DealMoves(a: seq<Range>, b: seq<Range>, blocked: set<nat>, choice: seq<nat>, hands: seq<set<nat>>)
    returns (other: seq<nat>)
    requires |a| == |b| && DealsHands(a, blocked, choice, hands)
    requires forall i :: 0 <= i < |a| ==> HasHand(b[i], a[i][choice[i]])
    ensures DealsHands(b, blocked, other, hands)
  {
    hide Fits, CardsOf, HasHand;
    other := seq(|b|, i requires 0 <= i < |b| => HandIndex(b[i], a[i][choice[i]]));
    forall i | 0 <= i < |b| ensures Fits(b[i][other[i]], blocked) && CardsOf(b[i][other[i]]) == hands[i] {
      SameCardsFit(b[i][other[i]], a[i][choice[i]], blocked);
    }
  }

  ghost predicate CanDeal(ranges: seq<Range>, blocked: set<nat>, hands: seq<set<nat>>) {
    exists choice :: DealsHands(ranges, blocked, choice, hands)
  }

  /** The compiled ranges can make exactly the joint deals the ranges can, hand for hand. */
  lemma CompileKeepsDeals(ranges: seq<Range>, blocked: set<nat>, hands: seq<set<nat>>)
    requires ValidRanges(ranges)
    ensures CanDeal(ranges, blocked, hands) <==> CanDeal(CompileAll(ranges), blocked, hands)
  {
    hide Compile, CardsOf, ValidRange, HasHand, Picked;
    var compiled := CompileAll(ranges);
    if CanDeal(ranges, blocked, hands) {
      var choice :| DealsHands(ranges, blocked, choice, hands);
      forall i | 0 <= i < |ranges| ensures HasHand(compiled[i], ranges[i][choice[i]]) {
        CompileKeepsWeights(ranges[i], OnlyHand(ranges[i][choice[i]]));
        SameWeightSameHand(ranges[i], compiled[i], ranges[i][choice[i]]);
      }
      var other := DealMoves(ranges, compiled, blocked, choice, hands);
    }
    if CanDeal(compiled, blocked, hands) {
      var choice :| DealsHands(compiled, blocked, choice, hands);
      forall i | 0 <= i < |ranges| ensures HasHand(ranges[i], compiled[i][choice[i]]) {
        CompileKeepsWeights(ranges[i], OnlyHand(compiled[i][choice[i]]));
        SameWeightSameHand(compiled[i], ranges[i], compiled[i][choice[i]]);
      }
      var other := DealMoves(compiled, ranges, blocked, choice, hands);
    }
  }

  ghost function HandsDealt(ranges: seq<Range>, choice: seq<nat>): (hands: seq<set<nat>>)
    requires Chooses(ranges, choice)
    ensures |hands| == |ranges|
  {
    seq(|ranges|, i requires 0 <= i < |ranges| => CardsOf(ranges[i][choice[i]]))
  }

  lemma CompileKeepsFeasibility(ranges: seq<Range>, blocked: set<nat>)
    requires ValidRanges(ranges)
    ensures DealExists(ranges, blocked) <==> DealExists(CompileAll(ranges), blocked)
  {
    hide Compile, CardsOf, Fits, ValidRange;
    var compiled := CompileAll(ranges);
    if choice :| IsDeal(ranges, blocked, choice) {
      assert DealsHands(ranges, blocked, choice, HandsDealt(ranges, choice));
      CompileKeepsDeals(ranges, blocked, HandsDealt(ranges, choice));
    }
    if choice :| IsDeal(compiled, blocked, choice) {
      assert DealsHands(compiled, blocked, choice, HandsDealt(compiled, choice));
      CompileKeepsDeals(ranges, blocked, HandsDealt(compiled, choice));
    }
  }

  // ---------------------------------------------------------------- the constructor

  /** One seat of the constructor: swap, sort, merge. */
  method CompileRange(range: Range) returns (out: Range)
    ensures out == Compile(range)
  {
    var entries := range;
    for i := 0 to |entries|
      invariant |entries| == |range|
      invariant forall j :: 0 <= j < |entries| ==> entries[j] == if j < i then Canon(range[j]) else range[j]
    {
      if entries[i].second < entries[i].first {
        entries := entries[i := Entry(entries[i].second, entries[i].first, entries[i].weight)];
      }
    }
    assert entries == CanonAll(range);
    entries := SortEntries(entries);
    out := [];
    assert entries[..0] == [];
    for i := 0 to |entries|
      invariant out == MergeAll(entries[..i])
    {
      var entry := entries[i];
      assert entries[..i + 1][..i] == entries[..i];
      if entry.weight == 0.0 {
        continue;
      }
      if out != [] && SameHand(out[|out| - 1], entry) {
        out := out[|out| - 1 := out[|out| - 1].(weight := out[|out| - 1].weight + entry.weight)];
      } else {
        out := out + [entry];
      }
    }
    assert entries[..|entries|] == entries;
  }

  datatype CompileError = BadConfig | NoCompatibleDeal | BudgetExhausted

  /**
   The compiled-range constructor.  It refuses an invalid configuration, a search that needs more nodes than
   the budget, and ranges without a joint deal; otherwise what it returns has a joint deal to draw.
   */
  method CompileRanges(board: seq<nat>, ranges: seq<Range>)
    returns (r: Result<seq<Range>, CompileError>, ghost order: seq<nat>)
    ensures r == Failure(BadConfig) <==> !ValidPrivateConfig(board, ranges)
    ensures ValidPrivateConfig(board, ranges) ==>
              && IsOrder(order, |ranges|) && Climbs(ranges, order, 0, |ranges|)
              && var needed := Explore(Ordered(ranges, order), BoardCards(board)).nodes;
                 && (r == Failure(BudgetExhausted) <==> needed > DEFAULT_NODE_BUDGET)
                 && (r == Failure(NoCompatibleDeal) <==>
                       needed <= DEFAULT_NODE_BUDGET && !DealExists(ranges, BoardCards(board)))
    ensures r.Success? ==> r.value == CompileAll(ranges) && DealExists(r.value, BoardCards(board))
  {
    hide DealExists, BoardCards, IsOrder, Climbs, Explore;
    var verdict: Result<(Status, nat), PreflightError>;
    verdict, order := Preflight(board, ranges, DEFAULT_NODE_BUDGET);
    if verdict.Failure? {
      return Failure(BadConfig), order;
    }
    match verdict.value.0 {
      case Infeasible => return Failure(NoCompatibleDeal), order;
      case SearchBudgetExhausted => return Failure(BudgetExhausted), order;
      case Feasible =>
    }
    assert ValidRanges(ranges);
    hide ValidPrivateConfig, ValidRange;
    CompileKeepsFeasibility(ranges, BoardCards(board));
    var compiled: seq<Range> := [];
    for seat := 0 to |ranges|
      invariant |compiled| == seat && forall i :: 0 <= i < seat ==> compiled[i] == Compile(ranges[i])
    {
      var out := CompileRange(ranges[seat]);
      compiled := compiled + [out];
    }
    assert compiled == CompileAll(ranges);
    return Success(compiled), order;
  }
}
