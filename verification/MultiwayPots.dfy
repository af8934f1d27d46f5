/**
 Side pots: how contribution levels cut the chips into layers, what each layer holds, and when
 a layer has nobody left to win it.
 */
module MultiwayPots {
  import opened Arithmetic
  import opened Wrappers
  import opened SeqFolds

  datatype SidePot = SidePot(amount: int, cap: int, eligible: seq<nat>)

  datatype Layout = Layout(pots: seq<SidePot>, refunds: seq<int>)

  // ---------------------------------------------------------------- contribution levels

  ghost predicate StrictlyIncreasing(s: seq<int>) {
    forall i, j :: 0 <= i < j < |s| ==> s[i] < s[j]
  }

  predicate NonNegative(c: seq<int>) {
    forall i :: 0 <= i < |c| ==> c[i] >= 0
  }

  /** `levels` lists the distinct positive contributions in increasing order. */
  ghost predicate IsLevels(levels: seq<int>, c: seq<int>) {
    && StrictlyIncreasing(levels)
    && (forall x :: x in levels ==> x > 0 && x in c)
    && (forall x :: x in c && x > 0 ==> x in levels)
  }

  lemma MemberOf(s: seq<int>) returns (x: int)
    ensures s != [] ==> x in s
  {
    x := if s == [] then 0 else s[0];
  }

  lemma {:induction false} SameIncreasing(a: seq<int>, b: seq<int>)
    requires StrictlyIncreasing(a) && StrictlyIncreasing(b)
    requires forall x :: x in a <==> x in b
    ensures a == b
  {
    if a == [] {
      var x := MemberOf(b);
    } else {
      var p, q := |a| - 1, |b| - 1;
      assert a[p] in a && b[q] in b;
      assert a[p] in b && b[q] in a;
      assert a[p] == b[q];
      forall x ensures x in a[..p] <==> x in b[..q] {
        if x in a[..p] { assert x in b && x != b[q]; }
        if x in b[..q] { assert x in a && x != a[p]; }
      }
      SameIncreasing(a[..p], b[..q]);
      assert a == a[..p] + [a[p]] && b == b[..q] + [b[q]];
    }
  }

  function InsertLevel(levels: seq<int>, x: int): (r: seq<int>)
    ensures |r| <= |levels| + 1
  {
    if levels == [] || x < levels[0] then [x] + levels
    else if x == levels[0] then levels
    else [levels[0]] + InsertLevel(levels[1..], x)
  }

  lemma {:induction false} InsertLevelMembers(levels: seq<int>, x: int)
    ensures forall y :: y in InsertLevel(levels, x) <==> y == x || y in levels
  {
    if levels != [] && x > levels[0] {
      InsertLevelMembers(levels[1..], x);
      assert levels == [levels[0]] + levels[1..];
    }
  }

  lemma PrependIncreasing(x: int, s: seq<int>)
    requires StrictlyIncreasing(s) && (s != [] ==> x < s[0])
    ensures StrictlyIncreasing([x] + s)
  {
  }

  lemma {:induction false} InsertLevelIncreases(levels: seq<int>, x: int)
    requires StrictlyIncreasing(levels)
    ensures StrictlyIncreasing(InsertLevel(levels, x))
  {
    if levels == [] || x < levels[0] {
      PrependIncreasing(x, levels);
    } else if x > levels[0] {
      InsertLevelIncreases(levels[1..], x);
      var rest := InsertLevel(levels[1..], x);
      assert rest != [] ==> rest[0] == x || rest[0] == levels[1];
      PrependIncreasing(levels[0], rest);
    }
  }

  function LevelsOf(c: seq<int>): (levels: seq<int>)
    requires NonNegative(c)
    ensures IsLevels(levels, c) && |levels| <= |c|
  {
    if c == [] then []
    else
      var front, x := c[..|c| - 1], c[|c| - 1];
      assert c == front + [x];
      InsertLevelMembers(LevelsOf(front), x);
      InsertLevelIncreases(LevelsOf(front), x);
      if x == 0 then LevelsOf(front) else InsertLevel(LevelsOf(front), x)
  }

  // ---------------------------------------------------------------- who is in a layer

  function AtLeast(c: seq<int>, level: int): (flags: seq<bool>)
    ensures |flags| == |c| && forall i :: 0 <= i < |c| ==> flags[i] == (c[i] >= level)
  {
    seq(|c|, i requires 0 <= i < |c| => c[i] >= level)
  }

  function Eligible(c: seq<int>, folded: seq<bool>, level: int): (flags: seq<bool>)
    requires |folded| == |c|
    ensures |flags| == |c| && forall i :: 0 <= i < |c| ==> flags[i] == (c[i] >= level && !folded[i])
  {
    seq(|c|, i requires 0 <= i < |c| => c[i] >= level && !folded[i])
  }

  /** What all seats together have put in, counting at most `x` from each. */
  function Capped(c: seq<int>, x: int): int {
    if c == [] then 0 else Capped(c[..|c| - 1], x) + Min(c[|c| - 1], x)
  }

  lemma {:induction false} CappedAtZero(c: seq<int>)
    requires NonNegative(c)
    ensures Capped(c, 0) == 0
  {
    if c != [] {
      CappedAtZero(c[..|c| - 1]);
    }
  }

  lemma {:induction false} CappedAboveAll(c: seq<int>, x: int)
    requires forall i :: 0 <= i < |c| ==> c[i] <= x
    ensures Capped(c, x) == Sum(c)
  {
    if c != [] {
      CappedAboveAll(c[..|c| - 1], x);
    }
  }

  lemma {:induction false} CappedGrows(c: seq<int>, x: int, y: int)
    requires x <= y
    ensures Capped(c, x) <= Capped(c, y)
  {
    if c != [] {
      CappedGrows(c[..|c| - 1], x, y);
    }
  }

  /** A layer between two levels with no contribution strictly inside holds its width per contributor. */
  lemma {:induction false} LayerHolds(c: seq<int>, low: int, high: int)
    requires low < high
    requires forall i :: 0 <= i < |c| ==> c[i] <= low || c[i] >= high
    ensures Capped(c, high) - Capped(c, low) == Times(high - low, Count(AtLeast(c, high)))
  {
    if c != [] {
      var front := c[..|c| - 1];
      LayerHolds(front, low, high);
      assert AtLeast(c, high)[..|c| - 1] == AtLeast(front, high);
    }
  }

  // ---------------------------------------------------------------- the layers

  function Prev(levels: seq<int>, k: nat): int
    requires k <= |levels|
  {
    if k == 0 then 0 else levels[k - 1]
  }

  /** A layer's chips are refunded to a lone contributor, contested, or won by nobody. */
  function Place(below: Layout, level: int, amount: int, contributors: seq<nat>, eligible: seq<nat>)
    : (r: Option<Layout>)
    requires forall i :: i in contributors ==> i < |below.refunds|
    ensures r.Some? ==> |r.value.refunds| == |below.refunds|
  {
    if |contributors| == 1 then
      var seat := contributors[0];
      assert seat in contributors;
      Some(below.(refunds := below.refunds[seat := below.refunds[seat] + amount]))
    else if |contributors| == 0 || eligible == [] then None
    else Some(below.(pots := below.pots + [SidePot(amount, level, eligible)]))
  }

  /** The layer between `levels[k]` and the level under it. */
  function AddLayer(c: seq<int>, folded: seq<bool>, levels: seq<int>, k: nat, below: Layout): (r: Option<Layout>)
    requires |folded| == |c| == |below.refunds| && k < |levels|
    ensures r.Some? ==> |r.value.refunds| == |c|
  {
    var contributors := Select(AtLeast(c, levels[k]));
    Place(below, levels[k], Times(levels[k] - Prev(levels, k), |contributors|), contributors,
          Select(Eligible(c, folded, levels[k])))
  }

  function LayoutUpTo(c: seq<int>, folded: seq<bool>, levels: seq<int>, k: nat): (r: Option<Layout>)
    requires |folded| == |c| && k <= |levels|
    ensures r.Some? ==> |r.value.refunds| == |c|
  {
    if k == 0 then Some(Layout([], Zeros(|c|)))
    else
      match LayoutUpTo(c, folded, levels, k - 1)
      case None => None
      case Some(below) => AddLayer(c, folded, levels, k - 1, below)
  }

  /** The pots and refunds of one hand, or None when some layer has contributors but nobody live. */
  function PotLayout(c: seq<int>, folded: seq<bool>): (r: Option<Layout>)
    requires NonNegative(c) && |folded| == |c|
    ensures r.Some? ==> |r.value.refunds| == |c|
  {
    LayoutUpTo(c, folded, LevelsOf(c), |LevelsOf(c)|)
  }

  lemma {:induction false} LayoutFailureStays(c: seq<int>, folded: seq<bool>, levels: seq<int>, k: nat)
    requires |folded| == |c| && k <= |levels|
    requires LayoutUpTo(c, folded, levels, k).None?
    ensures LayoutUpTo(c, folded, levels, |levels|).None?
    decreases |levels| - k
  {
    hide AddLayer;
    if k < |levels| {
      LayoutFailureStays(c, folded, levels, k + 1);
    }
  }

  // ---------------------------------------------------------------- what a layout conserves

  function PotSum(pots: seq<SidePot>): int {
    if pots == [] then 0 else PotSum(pots[..|pots| - 1]) + pots[|pots| - 1].amount
  }

  /** The chips in pots a seat that put in `x` can win. */
  function PotSumUpTo(pots: seq<SidePot>, x: int): int {
    if pots == [] then 0
    else PotSumUpTo(pots[..|pots| - 1], x) + if pots[|pots| - 1].cap <= x then pots[|pots| - 1].amount else 0
  }

  ghost predicate PotOk(c: seq<int>, folded: seq<bool>, pot: SidePot)
    requires |folded| == |c|
  {
    && pot.amount > 0 && pot.eligible != []
    && pot.eligible == Select(Eligible(c, folded, pot.cap))
  }

  ghost predicate LayoutOk(c: seq<int>, folded: seq<bool>, layout: Layout)
    requires |folded| == |c|
  {
    && |layout.refunds| == |c|
    && (forall i :: 0 <= i < |c| ==> layout.refunds[i] >= 0)
    && PotsOk(c, folded, layout.pots)
  }

  lemma ContributionsAvoidGaps(c: seq<int>, levels: seq<int>, k: nat)
    requires NonNegative(c) && IsLevels(levels, c) && k < |levels|
    ensures Prev(levels, k) < levels[k]
    ensures forall i :: 0 <= i < |c| ==> c[i] <= Prev(levels, k) || c[i] >= levels[k]
  {
    assert levels[k] in levels;
    assert k > 0 ==> levels[k - 1] in levels;
    forall i | 0 <= i < |c|
      ensures c[i] <= Prev(levels, k) || c[i] >= levels[k]
    {
      if c[i] > 0 {
        assert c[i] in levels;
        var j :| 0 <= j < |levels| && levels[j] == c[i];
        assert j < k - 1 ==> levels[j] < levels[k - 1];
        assert k < j ==> levels[k] < levels[j];
      }
    }
  }

  /** Chips in refunds and pots together. */
  function Held(layout: Layout): int {
    Sum(layout.refunds) + PotSum(layout.pots)
  }

  /** Chips of a layout that seat `i`, having put in `x`, gets back or can win. */
  function Reach(layout: Layout, i: nat, x: int): int
    requires i < |layout.refunds|
  {
    layout.refunds[i] + PotSumUpTo(layout.pots, x)
  }

  ghost predicate PotsOk(c: seq<int>, folded: seq<bool>, pots: seq<SidePot>)
    requires |folded| == |c|
  {
    forall p :: 0 <= p < |pots| ==> PotOk(c, folded, pots[p])
  }

  /** Placing a layer adds its chips once, and within reach of exactly the seats that contributed. */
  lemma PlaceAdds(below: Layout, level: int, amount: int, contributors: seq<nat>, eligible: seq<nat>)
    requires forall i :: i in contributors ==> i < |below.refunds|
    requires Place(below, level, amount, contributors, eligible).Some?
    ensures var above := Place(below, level, amount, contributors, eligible).value;
            && Held(above) == Held(below) + amount
            && forall i, x :: 0 <= i < |below.refunds| ==>
                                Reach(above, i, x) == Reach(below, i, x)
                                  + if |contributors| == 1 then (if i == contributors[0] then amount else 0)
                                    else if level <= x then amount else 0
  {
    if |contributors| == 1 {
      assert contributors[0] in contributors;
      SumUpdate(below.refunds, contributors[0], below.refunds[contributors[0]] + amount);
    } else {
      assert (below.pots + [SidePot(amount, level, eligible)])[..|below.pots|] == below.pots;
    }
  }

  lemma PlaceKeepsOk(c: seq<int>, folded: seq<bool>, below: Layout, level: int, amount: int, contributors: seq<nat>)
    requires |folded| == |c| && LayoutOk(c, folded, below) && amount > 0
    requires forall i :: i in contributors ==> i < |below.refunds|
    requires Place(below, level, amount, contributors, Select(Eligible(c, folded, level))).Some?
    ensures LayoutOk(c, folded, Place(below, level, amount, contributors, Select(Eligible(c, folded, level))).value)
  {
    var pot := SidePot(amount, level, Select(Eligible(c, folded, level)));
    if |contributors| != 1 {
      assert PotOk(c, folded, pot);
    }
  }

  /** What the layer under `levels[k]` holds, and who put it in. */
  lemma LayerAmount(c: seq<int>, levels: seq<int>, k: nat)
    requires NonNegative(c) && IsLevels(levels, c) && k < |levels|
    ensures var contributors := Select(AtLeast(c, levels[k]));
            && Times(levels[k] - Prev(levels, k), |contributors|) == Capped(c, levels[k]) - Capped(c, Prev(levels, k))
            && Capped(c, levels[k]) > Capped(c, Prev(levels, k))
            && (|contributors| == 1 ==>
                  contributors[0] < |c| && forall i :: 0 <= i < |c| ==> (c[i] >= levels[k] <==> i == contributors[0]))
  {
    ContributionsAvoidGaps(c, levels, k);
    LayerHolds(c, Prev(levels, k), levels[k]);
    var flags := AtLeast(c, levels[k]);
    assert levels[k] in levels && levels[k] in c;
    var i :| 0 <= i < |c| && c[i] == levels[k];
    CountOne(flags, i);
    TimesPositive(levels[k] - Prev(levels, k), Count(flags));
    if Count(flags) == 1 {
      assert Select(flags)[0] in Select(flags);
    }
  }

  /** What one layer adds, in total and for each seat. */
  lemma LayerAdds(c: seq<int>, folded: seq<bool>, levels: seq<int>, k: nat, below: Layout)
    requires NonNegative(c) && |folded| == |c| && IsLevels(levels, c) && k < |levels|
    requires LayoutOk(c, folded, below)
    requires AddLayer(c, folded, levels, k, below).Some?
    ensures var above := AddLayer(c, folded, levels, k, below).value;
            var amount := Capped(c, levels[k]) - Capped(c, Prev(levels, k));
            && LayoutOk(c, folded, above)
            && Held(above) == Held(below) + amount
            && forall i :: 0 <= i < |c| ==>
                             Reach(above, i, c[i]) == Reach(below, i, c[i]) + if c[i] >= levels[k] then amount else 0
  {
    LayerAmount(c, levels, k);
    var amount := Capped(c, levels[k]) - Capped(c, Prev(levels, k));
    var contributors := Select(AtLeast(c, levels[k]));
    var eligible := Select(Eligible(c, folded, levels[k]));
    PlaceAdds(below, levels[k], amount, contributors, eligible);
    PlaceKeepsOk(c, folded, below, levels[k], amount, contributors);
  }

  /** The layers built so far account for every chip up to their level, in total and seat by seat. */
  lemma {:induction false} LayoutConserves(c: seq<int>, folded: seq<bool>, levels: seq<int>, k: nat)
    requires NonNegative(c) && |folded| == |c| && IsLevels(levels, c) && k <= |levels|
    requires LayoutUpTo(c, folded, levels, k).Some?
    ensures var layout := LayoutUpTo(c, folded, levels, k).value;
            && LayoutOk(c, folded, layout)
            && Held(layout) == Capped(c, Prev(levels, k))
            && forall i :: 0 <= i < |c| ==> Reach(layout, i, c[i]) == Capped(c, Min(Prev(levels, k), c[i]))
  {
    hide AddLayer;
    if k == 0 {
      SumOfZeros(|c|);
      CappedAtZero(c);
    } else {
      LayoutConserves(c, folded, levels, k - 1);
      LayerAdds(c, folded, levels, k - 1, LayoutUpTo(c, folded, levels, k - 1).value);
      ContributionsAvoidGaps(c, levels, k - 1);
    }
  }

  lemma TopLevelCovers(c: seq<int>, levels: seq<int>)
    requires NonNegative(c) && IsLevels(levels, c)
    ensures forall i :: 0 <= i < |c| ==> c[i] <= Prev(levels, |levels|)
  {
    forall i | 0 <= i < |c|
      ensures c[i] <= Prev(levels, |levels|)
    {
      if c[i] > 0 {
        assert c[i] in levels;
        var j :| 0 <= j < |levels| && levels[j] == c[i];
      } else if |levels| > 0 {
        assert levels[|levels| - 1] in levels;
      }
    }
  }

  /** Every contribution is either refunded or in a pot, and a seat can reach exactly what it matched. */
  lemma PotLayoutConserves(c: seq<int>, folded: seq<bool>)
    requires NonNegative(c) && |folded| == |c| && PotLayout(c, folded).Some?
    ensures var layout := PotLayout(c, folded).value;
            && LayoutOk(c, folded, layout)
            && Held(layout) == Sum(c)
            && forall i :: 0 <= i < |c| ==> Reach(layout, i, c[i]) == Capped(c, c[i])
  {
    var levels := LevelsOf(c);
    LayoutConserves(c, folded, levels, |levels|);
    TopLevelCovers(c, levels);
    CappedAboveAll(c, Prev(levels, |levels|));
  }

  /** Counting contributions up to any level stays between nothing and everything. */
  lemma CappedWithin(c: seq<int>, levels: seq<int>, x: int)
    requires NonNegative(c) && IsLevels(levels, c) && 0 <= x <= Prev(levels, |levels|)
    ensures 0 <= Capped(c, x) <= Sum(c)
  {
    TopLevelCovers(c, levels);
    CappedAtZero(c);
    CappedGrows(c, 0, x);
    CappedAboveAll(c, Prev(levels, |levels|));
    CappedGrows(c, x, Prev(levels, |levels|));
  }

  /** Whether or not a later layer is refused, each layer's amount is within what was contributed. */
  lemma LayerAmountFits(c: seq<int>, k: nat)
    requires NonNegative(c) && k < |LevelsOf(c)|
    ensures var levels := LevelsOf(c);
            0 <= Times(levels[k] - Prev(levels, k), |Select(AtLeast(c, levels[k]))|) <= Sum(c)
  {
    hide LevelsOf, InsertLevel, Select, AtLeast, Times, Capped;
    var levels := LevelsOf(c);
    LayerAmount(c, levels, k);
    ContributionsAvoidGaps(c, levels, k);
    assert levels[k] in levels && levels[|levels| - 1] in levels;
    assert k > 0 ==> levels[k - 1] in levels;
    CappedWithin(c, levels, levels[k]);
    CappedWithin(c, levels, Prev(levels, k));
  }

  /** So are the refunds and the running total of the pots after any number of layers. */
  lemma PartialLayoutFits(c: seq<int>, folded: seq<bool>, k: nat, i: nat, p: nat)
    requires NonNegative(c) && |folded| == |c| && k <= |LevelsOf(c)|
    requires LayoutUpTo(c, folded, LevelsOf(c), k).Some?
    requires i < |c| && p <= |LayoutUpTo(c, folded, LevelsOf(c), k).value.pots|
    ensures var layout := LayoutUpTo(c, folded, LevelsOf(c), k).value;
            0 <= layout.refunds[i] <= Sum(c) && 0 <= PotSum(layout.pots[..p]) <= Sum(c)
  {
    var levels := LevelsOf(c);
    var layout := LayoutUpTo(c, folded, levels, k).value;
    LayoutConserves(c, folded, levels, k);
    assert k > 0 ==> levels[k - 1] in levels;
    assert levels != [] ==> levels[|levels| - 1] in levels;
    CappedWithin(c, levels, Prev(levels, k));
    SumAtLeastPart(layout.refunds, i);
    forall q | 0 <= q < |layout.pots| ensures layout.pots[q].amount >= 0 {
      assert PotOk(c, folded, layout.pots[q]);
    }
    PartialPotSum(layout.pots, p);
    PartialPotSum(layout.pots, 0);
  }

  lemma {:induction false} PartialPotSum(pots: seq<SidePot>, p: nat)
    requires p <= |pots| && forall q :: 0 <= q < |pots| ==> pots[q].amount >= 0
    ensures 0 <= PotSum(pots[..p]) <= PotSum(pots)
  {
    if p < |pots| {
      PartialPotSum(pots[..|pots| - 1], p);
      assert pots[..|pots| - 1][..p] == pots[..p];
    } else {
      assert pots[..p] == pots;
      if pots != [] {
        PartialPotSum(pots[..|pots| - 1], |pots| - 1);
        assert pots[..|pots| - 1][..|pots| - 1] == pots[..|pots| - 1];
      }
    }
  }

  // ---------------------------------------------------------------- exactly when settlement refuses

  /** Two folded seats both put in more than every live seat: a layer only folded seats reached. */
  predicate DeadLayer(c: seq<int>, folded: seq<bool>)
    requires |folded| == |c|
  {
    exists i, j :: 0 <= i < j < |c| && c[i] > 0 && c[j] > 0
                   && forall h :: 0 <= h < |c| && !folded[h] ==> c[h] < c[i] && c[h] < c[j]
  }

  lemma LiveSeatReaches(c: seq<int>, folded: seq<bool>, i: nat, j: nat) returns (h: nat)
    requires |folded| == |c| && !DeadLayer(c, folded)
    requires i < |c| && j < |c| && i != j && c[i] > 0 && c[j] >= c[i]
    ensures h < |c| && !folded[h] && c[h] >= c[i]
  {
    var low, high := if i < j then i else j, if i < j then j else i;
    assert low < high && c[low] > 0 && c[high] > 0;
    h :| 0 <= h < |c| && !folded[h] && !(c[h] < c[low] && c[h] < c[high]);
  }

  /** A layer that two seats reached has a live seat in it, unless the hand has a dead layer. */
  lemma LayerHasWinner(c: seq<int>, folded: seq<bool>, level: int)
    requires |folded| == |c| && !DeadLayer(c, folded) && level > 0
    requires level in c
    ensures var contributors, eligible := Select(AtLeast(c, level)), Select(Eligible(c, folded, level));
            |contributors| == 1 || (|contributors| > 1 && eligible != [])
  {
    hide Select, Count, DeadLayer;
    var i :| 0 <= i < |c| && c[i] == level;
    var flags := AtLeast(c, level);
    CountOne(flags, i);
    if Count(flags) > 1 {
      var j :| 0 <= j < |c| && j != i && flags[j];
      var h := LiveSeatReaches(c, folded, i, j);
      assert Eligible(c, folded, level)[h];
      assert h in Select(Eligible(c, folded, level));
    }
  }

  lemma {:induction false} LayoutTotalUnlessDead(c: seq<int>, folded: seq<bool>, levels: seq<int>, k: nat)
    requires |folded| == |c| && k <= |levels| && !DeadLayer(c, folded)
    requires forall x :: x in levels ==> x > 0 && x in c
    ensures LayoutUpTo(c, folded, levels, k).Some?
  {
    hide Select, AtLeast, Eligible, Times, DeadLayer;
    if k > 0 {
      LayoutTotalUnlessDead(c, folded, levels, k - 1);
      assert levels[k - 1] in levels;
      LayerHasWinner(c, folded, levels[k - 1]);
    }
  }

  /** In a hand with a dead layer, some level was reached by two seats, all of them folded. */
  lemma DeadLevel(c: seq<int>, folded: seq<bool>) returns (level: int)
    requires |folded| == |c| && DeadLayer(c, folded)
    ensures level > 0 && level in c
    ensures |Select(AtLeast(c, level))| > 1 && Select(Eligible(c, folded, level)) == []
  {
    var i, j :| 0 <= i < j < |c| && c[i] > 0 && c[j] > 0
                && forall h :: 0 <= h < |c| && !folded[h] ==> c[h] < c[i] && c[h] < c[j];
    level := Min(c[i], c[j]);
    var flags := AtLeast(c, level);
    CountOne(flags, i);
    assert flags[j];
    CountZero(Eligible(c, folded, level));
  }

  lemma DeadLevelRefused(c: seq<int>, folded: seq<bool>, levels: seq<int>, k: nat)
    requires |folded| == |c| && k < |levels|
    requires |Select(AtLeast(c, levels[k]))| > 1 && Select(Eligible(c, folded, levels[k])) == []
    ensures LayoutUpTo(c, folded, levels, k + 1).None?
  {
    hide Select, AtLeast, Eligible, Times;
  }

  lemma DeadLayerHasNoLayout(c: seq<int>, folded: seq<bool>, levels: seq<int>)
    requires |folded| == |c| && DeadLayer(c, folded)
    requires forall x :: x in c && x > 0 ==> x in levels
    ensures LayoutUpTo(c, folded, levels, |levels|).None?
  {
    hide Select, AtLeast, Eligible, Times, DeadLayer, LayoutUpTo, Count;
    var level := DeadLevel(c, folded);
    assert level in levels;
    var k :| 0 <= k < |levels| && levels[k] == level;
    DeadLevelRefused(c, folded, levels, k);
    LayoutFailureStays(c, folded, levels, k + 1);
  }

  /** The "invalid side pot" refusal happens exactly when a layer was reached by folded seats alone. */
  lemma LayoutRefusedExactly(c: seq<int>, folded: seq<bool>)
    requires NonNegative(c) && |folded| == |c|
    ensures PotLayout(c, folded).None? <==> DeadLayer(c, folded)
  {
    if DeadLayer(c, folded) {
      DeadLayerHasNoLayout(c, folded, LevelsOf(c));
    } else {
      LayoutTotalUnlessDead(c, folded, LevelsOf(c), |LevelsOf(c)|);
    }
  }
}
