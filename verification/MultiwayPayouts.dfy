/**
 What a settled hand pays, from the contributions, the folds, the strengths and the rake policy: how much rake
 is taken and from which pots, what is refunded, and how each pot is split.
 */
module MultiwayPayouts {
  import opened Arithmetic
  import opened Wrappers
  import opened CommonTypes
  import opened SeqFolds
  import opened MultiwayPots
  import opened MultiwaySettlement

  // ---------------------------------------------------------------- rake

  /**
   No rake is taken when the policy is none, or waits for a flop that was not seen. Otherwise it is the largest
   number of chips within both the cap and the percentage of what was contested.
   */
  lemma RakeExactly(input: TerminalInput)
    requires Settle(input).Success?
    ensures var s, policy := Settle(input).value, input.rake;
            var contested := Sum(input.contributions) - Sum(s.refunds);
            if policy.mode == ExplicitZero || (policy.noFlopNoDrop && !input.flopSeen) then s.rakeTaken == 0
            else
              && 0 <= s.rakeTaken <= policy.cap && 10_000 * s.rakeTaken <= contested * policy.basisPoints
              && (s.rakeTaken == policy.cap || contested * policy.basisPoints < 10_000 * (s.rakeTaken + 1))
  {
    hide TakeRake, PayPots, PotLayout, Sum, PotSum;
    PotLayoutConserves(input.contributions, input.folded);
    var layout := PotLayout(input.contributions, input.folded).value;
    LayoutIsPlayable(input, layout);
    assert PotSum(layout.pots) == Sum(input.contributions) - Sum(layout.refunds);
    RakeIsLargest(input.rake, PotSum(layout.pots), input.flopSeen);
  }

  lemma RakeIsLargest(policy: RakePolicy, contested: nat, flopSeen: bool)
    requires policy.Valid()
    ensures var r := policy.RakeFor(contested, flopSeen);
            if policy.mode == ExplicitZero || (policy.noFlopNoDrop && !flopSeen) then r == 0
            else
              && 0 <= r <= policy.cap && 10_000 * r <= contested * policy.basisPoints
              && (r == policy.cap || contested * policy.basisPoints < 10_000 * (r + 1))
  {
    RakeWithinPot(policy, contested, flopSeen);
    var x := contested * policy.basisPoints;
    assert 10_000 * (x / 10_000) <= x < 10_000 * (x / 10_000 + 1);
  }

  /** Rake is taken from a pot only when every earlier pot has been emptied. */
  lemma RakeEmptiesEarlierPots(input: TerminalInput, p: nat, q: nat)
    requires Settle(input).Success? && p < q < |Settle(input).value.pots|
    ensures var before := PotLayout(input.contributions, input.folded).value.pots;
            var after := Settle(input).value.pots;
            && PotLayout(input.contributions, input.folded).Some? && |before| == |after|
            && (after[q].amount < before[q].amount ==> after[p].amount == 0)
  {
    hide TakeRake, PayPots, PotLayout;
    var layout := PotLayout(input.contributions, input.folded).value;
    LayoutIsPlayable(input, layout);
    TakenInOrder(layout.pots, input.rake.RakeFor(PotSum(layout.pots), input.flopSeen), p, q);
  }

  lemma {:induction false} TakenInOrder(pots: seq<SidePot>, rake: nat, p: nat, q: nat)
    requires p < q < |pots| && forall i :: 0 <= i < |pots| ==> pots[i].amount >= 0
    ensures TakeRake(pots, rake)[q].amount < pots[q].amount ==> TakeRake(pots, rake)[p].amount == 0
  {
    if rake > 0 {
      var taken := Min(pots[0].amount, rake);
      if p > 0 {
        TakenInOrder(pots[1..], rake - taken, p - 1, q - 1);
      }
    }
  }

  // ---------------------------------------------------------------- the pots

  /** A pot between two levels, holding what every seat put in between them. */
  ghost predicate IsLayer(c: seq<int>, levels: seq<int>, p: nat, pot: SidePot)
    requires p < |levels|
  {
    pot.cap == levels[p] && pot.amount == Capped(c, levels[p]) - Capped(c, Prev(levels, p))
  }

  ghost predicate PotsAreLayers(c: seq<int>, levels: seq<int>, k: nat, pots: seq<SidePot>)
    requires k <= |levels|
  {
    && (|pots| == k || (k == |levels| && |pots| == k - 1))
    && forall p :: 0 <= p < |pots| ==> IsLayer(c, levels, p, pots[p])
  }

  /** Below the highest level at least two seats contributed, so only the top layer can have a lone contributor. */
  lemma LowerLayersAreShared(c: seq<int>, levels: seq<int>, k: nat)
    requires NonNegative(c) && IsLevels(levels, c) && k + 1 < |levels|
    ensures |Select(AtLeast(c, levels[k]))| > 1
  {
    assert levels[k] in levels && levels[k + 1] in levels;
    var i :| 0 <= i < |c| && c[i] == levels[k];
    var j :| 0 <= j < |c| && c[j] == levels[k + 1];
    CountOne(AtLeast(c, levels[k]), i);
    assert AtLeast(c, levels[k])[j];
  }

  lemma LayerAddsPot(c: seq<int>, folded: seq<bool>, levels: seq<int>, k: nat, below: Layout)
    requires NonNegative(c) && |folded| == |c| == |below.refunds| && IsLevels(levels, c) && k < |levels|
    requires PotsAreLayers(c, levels, k, below.pots) && |below.pots| == k
    requires AddLayer(c, folded, levels, k, below).Some?
    ensures PotsAreLayers(c, levels, k + 1, AddLayer(c, folded, levels, k, below).value.pots)
    ensures k + 1 < |levels| ==> |AddLayer(c, folded, levels, k, below).value.pots| == k + 1
  {
    LayerAmount(c, levels, k);
    if k + 1 < |levels| {
      LowerLayersAreShared(c, levels, k);
    }
    hide Select, AtLeast, Eligible, Times, IsLevels, NonNegative, Capped;
  }

  lemma NoLayers(c: seq<int>, levels: seq<int>)
    ensures PotsAreLayers(c, levels, 0, [])
  {
  }

  lemma {:induction false} LayersUpTo(c: seq<int>, folded: seq<bool>, levels: seq<int>, k: nat)
    requires NonNegative(c) && |folded| == |c| && IsLevels(levels, c) && k <= |levels|
    requires LayoutUpTo(c, folded, levels, k).Some?
    ensures var pots := LayoutUpTo(c, folded, levels, k).value.pots;
            PotsAreLayers(c, levels, k, pots) && (k < |levels| ==> |pots| == k)
  {
    hide AddLayer, IsLevels, NonNegative, PotsAreLayers;
    if k == 0 {
      NoLayers(c, levels);
    } else {
      LayersUpTo(c, folded, levels, k - 1);
      LayerAddsPot(c, folded, levels, k - 1, LayoutUpTo(c, folded, levels, k - 1).value);
    }
  }

  /** Before rake the pots ascend by contribution level and each holds what every seat put in up to its level. */
  lemma PotsInOrder(input: TerminalInput, p: nat)
    requires Settle(input).Success? && PotLayout(input.contributions, input.folded).Some?
    requires p < |PotLayout(input.contributions, input.folded).value.pots|
    ensures var c, pots := input.contributions, PotLayout(input.contributions, input.folded).value.pots;
            && |Settle(input).value.pots| == |pots|
            && Settle(input).value.pots[p].cap == pots[p].cap && pots[p].cap in c
            && (p > 0 ==> pots[p - 1].cap < pots[p].cap)
            && pots[p].amount == Capped(c, pots[p].cap) - if p == 0 then 0 else Capped(c, pots[p - 1].cap)
  {
    var c := input.contributions;
    var levels := LevelsOf(c);
    hide Settle, LevelsOf;
    LayersUpTo(c, input.folded, levels, |levels|);
    SettledPots(input);
    CappedAtZero(c);
    var pots := PotLayout(c, input.folded).value.pots;
    assert IsLayer(c, levels, p, pots[p]) && levels[p] in levels;
    if p > 0 {
      assert IsLayer(c, levels, p - 1, pots[p - 1]);
    }
  }

  // ---------------------------------------------------------------- refunds

  /** The most any seat other than `i` put in. */
  ghost predicate MostOfOthers(c: seq<int>, i: nat, most: int) {
    && (forall j :: 0 <= j < |c| && j != i ==> c[j] <= most)
    && exists j :: 0 <= j < |c| && j != i && c[j] == most
  }

  lemma LoneTopLayer(c: seq<int>, levels: seq<int>, k: nat, i: nat, most: int)
    requires NonNegative(c) && IsLevels(levels, c) && k < |levels| && i < |c| && MostOfOthers(c, i, most)
    ensures var contributors := Select(AtLeast(c, levels[k]));
            && (|contributors| == 1 && contributors[0] == i <==> most < levels[k])
            && (most < levels[k] ==> most <= Prev(levels, k))
            && (|contributors| == 1 ==>
                  Times(levels[k] - Prev(levels, k), |contributors|) == levels[k] - Prev(levels, k))
  {
    ContributionsAvoidGaps(c, levels, k);
    var flags := AtLeast(c, levels[k]);
    assert levels[k] in levels && levels[k] in c;
    var at :| 0 <= at < |c| && c[at] == levels[k];
    var j :| 0 <= j < |c| && j != i && c[j] == most;
    CountOne(flags, at);
    hide Count;
    if most < levels[k] {
      assert at == i;
      assert Select(flags)[0] in Select(flags);
    } else if |Select(flags)| == 1 {
      assert flags[j];
      assert j in Select(flags);
      assert j == Select(flags)[0];
    }
  }

  /** A layer changes the refund of its lone contributor, if it has one, and no other. */
  lemma LayerRefunds(c: seq<int>, folded: seq<bool>, levels: seq<int>, k: nat, below: Layout, i: nat)
    requires |folded| == |c| == |below.refunds| && k < |levels| && i < |c|
    requires AddLayer(c, folded, levels, k, below).Some?
    ensures var contributors := Select(AtLeast(c, levels[k]));
            AddLayer(c, folded, levels, k, below).value.refunds[i] == below.refunds[i] +
            if |contributors| == 1 && contributors[0] == i then Times(levels[k] - Prev(levels, k), |contributors|)
            else 0
  {
    hide Select, AtLeast, Eligible, Times;
  }

  lemma {:induction false} RefundUpTo(c: seq<int>, folded: seq<bool>, levels: seq<int>, k: nat, i: nat, most: int)
    requires NonNegative(c) && |folded| == |c| && IsLevels(levels, c) && k <= |levels| && i < |c|
    requires MostOfOthers(c, i, most) && most >= 0 && LayoutUpTo(c, folded, levels, k).Some?
    ensures LayoutUpTo(c, folded, levels, k).value.refunds[i] == Max(0, Prev(levels, k) - most)
  {
    hide Select, AtLeast, Eligible, Times, IsLevels, MostOfOthers, NonNegative, AddLayer;
    if k > 0 {
      RefundUpTo(c, folded, levels, k - 1, i, most);
      LoneTopLayer(c, levels, k - 1, i, most);
      ContributionsAvoidGaps(c, levels, k - 1);
      LayerRefunds(c, folded, levels, k - 1, LayoutUpTo(c, folded, levels, k - 1).value, i);
    }
  }

  /** A seat is refunded what it put in beyond everybody else, folded or not. */
  lemma RefundExactly(input: TerminalInput, i: nat, most: int)
    requires Settle(input).Success? && i < |input.contributions| && MostOfOthers(input.contributions, i, most)
    ensures |Settle(input).value.refunds| == |input.contributions|
    ensures Settle(input).value.refunds[i] == Max(0, input.contributions[i] - most)
  {
    var c := input.contributions;
    var levels := LevelsOf(c);
    hide TakeRake, PayPots, LevelsOf;
    TopIsLargest(c, levels);
    RefundUpTo(c, input.folded, levels, |levels|, i, most);
    var j :| 0 <= j < |c| && j != i && c[j] == most;
  }

  lemma TopIsLargest(c: seq<int>, levels: seq<int>)
    requires NonNegative(c) && IsLevels(levels, c) && c != []
    ensures forall i :: 0 <= i < |c| ==> c[i] <= Prev(levels, |levels|)
    ensures exists i :: 0 <= i < |c| && c[i] == Prev(levels, |levels|)
  {
    TopLevelCovers(c, levels);
    if levels != [] {
      assert levels[|levels| - 1] in levels;
    } else {
      assert c[0] == 0;
    }
  }

  // ---------------------------------------------------------------- splitting the pots

  /** A live seat that matched the pot and whose hand no other such seat beats. */
  ghost predicate Best(input: TerminalInput, pot: SidePot, i: nat)
    requires input.Valid() && i < |input.contributions|
  {
    && !input.folded[i] && input.contributions[i] >= pot.cap
    && forall j :: 0 <= j < |input.contributions| && !input.folded[j] && input.contributions[j] >= pot.cap ==>
                     input.strengths[j] <= input.strengths[i]
  }

  /** How many seats clockwise of the first odd-chip seat a seat sits. */
  function Turn(input: TerminalInput, i: nat): int {
    if i >= input.oddChipFirstSeat then i - input.oddChipFirstSeat
    else i + |input.contributions| - input.oddChipFirstSeat
  }

  /** The best seats share a pot to the last chip, equally but for an odd chip to the first of them clockwise. */
  ghost predicate FairSplit(input: TerminalInput, pot: SidePot, shares: seq<int>)
    requires input.Valid()
  {
    && |shares| == |input.contributions| && Sum(shares) == pot.amount
    && (forall i :: 0 <= i < |shares| && !Best(input, pot, i) ==> shares[i] == 0)
    && forall i, j :: 0 <= i < |shares| && 0 <= j < |shares|
                      && Best(input, pot, i) && Best(input, pot, j) && Turn(input, i) <= Turn(input, j) ==>
                        shares[j] <= shares[i] <= shares[j] + 1
  }

  /** What seat `i` gets from all pots. */
  function Received(shares: seq<seq<int>>, i: nat): int
    requires forall p :: 0 <= p < |shares| ==> i < |shares[p]|
  {
    if shares == [] then 0 else Received(shares[..|shares| - 1], i) + shares[|shares| - 1][i]
  }

  lemma {:induction false} RingCountGrows(flags: seq<bool>, start: nat, d: nat, e: nat)
    requires start < |flags| && d <= e <= |flags|
    ensures RingCount(flags, start, d) <= RingCount(flags, start, e)
  {
    if d < e {
      RingCountGrows(flags, start, d, e - 1);
    }
  }

  lemma EarlierGetsMore(amount: nat, winners: seq<bool>, start: nat, i: nat, j: nat)
    requires start < |winners| && i < |winners| && j < |winners| && winners[i] && winners[j] && Count(winners) > 0
    requires RingDistance(start, i, |winners|) <= RingDistance(start, j, |winners|)
    ensures Award(amount, winners, start, j) <= Award(amount, winners, start, i) <= Award(amount, winners, start, j) + 1
  {
    RingCountGrows(winners, start, RingDistance(start, i, |winners|), RingDistance(start, j, |winners|));
    hide Count, RingCount, RingDistance;
  }

  lemma WinnersAreBest(input: TerminalInput, pots: seq<SidePot>, p: nat, i: nat)
    requires Playable(input, pots) && EligibleExactly(input, pots) && p < |pots| && i < |input.contributions|
    ensures PotWinners(input, pots[p])[i] <==> Best(input, pots[p], i)
  {
    hide Count;
    assert i in pots[p].eligible <==> input.contributions[i] >= pots[p].cap && !input.folded[i];
  }

  lemma TurnIsDistance(input: TerminalInput, i: nat)
    requires input.Valid() && i < |input.contributions|
    ensures Turn(input, i) == RingDistance(input.oddChipFirstSeat, i, |input.contributions|)
  {
  }

  lemma PotSplitFairly(input: TerminalInput, pots: seq<SidePot>, p: nat) returns (shares: seq<int>)
    requires Playable(input, pots) && EligibleExactly(input, pots) && p < |pots|
    ensures FairSplit(input, pots[p], shares)
    ensures forall i :: 0 <= i < |shares| ==>
                          shares[i] == Award(pots[p].amount, PotWinners(input, pots[p]), input.oddChipFirstSeat, i)
  {
    hide Award, DealOut, PotWinners, Count, Best, EligibleExactly, Turn;
    var n, pot, start := |input.contributions|, pots[p], input.oddChipFirstSeat;
    var winners := PotWinners(input, pot);
    shares := DealOut(Zeros(n), pot.amount, winners, start, n);
    SumOfZeros(n);
    PotPaidInFull(Zeros(n), pot.amount, winners, start);
    forall i | 0 <= i < n
      ensures shares[i] == Award(pot.amount, winners, start, i)
      ensures winners[i] <==> Best(input, pot, i)
      ensures !winners[i] ==> shares[i] == 0
    {
      DealOutSeat(Zeros(n), pot.amount, winners, start, n, i);
      WinnersAreBest(input, pots, p, i);
      NoShareForOthers(pot.amount, winners, start, i);
    }
    forall i, j | 0 <= i < n && 0 <= j < n && Best(input, pot, i) && Best(input, pot, j)
                  && Turn(input, i) <= Turn(input, j)
      ensures shares[j] <= shares[i] <= shares[j] + 1
    {
      TurnIsDistance(input, i);
      TurnIsDistance(input, j);
      EarlierGetsMore(pot.amount, winners, start, i, j);
    }
  }

  lemma NoShareForOthers(amount: int, winners: seq<bool>, start: nat, i: nat)
    requires start < |winners| && i < |winners| && Count(winners) > 0
    ensures !winners[i] ==> Award(amount, winners, start, i) == 0
  {
  }

  ghost predicate SplitAll(input: TerminalInput, pots: seq<SidePot>, shares: seq<seq<int>>)
    requires input.Valid()
  {
    && |shares| == |pots|
    && forall p :: 0 <= p < |pots| ==> FairSplit(input, pots[p], shares[p])
  }

  lemma {:induction false} PotsSplitFairly(input: TerminalInput, pots: seq<SidePot>) returns (shares: seq<seq<int>>)
    requires Playable(input, pots) && EligibleExactly(input, pots)
    ensures SplitAll(input, pots, shares)
    ensures forall i :: 0 <= i < |input.contributions| ==> PayPots(input, pots)[i] == Received(shares, i)
  {
    if pots == [] {
      shares := [];
    } else {
      var last := |pots| - 1;
      var front := PotsSplitFairly(input, pots[..last]);
      var share := PotSplitFairly(input, pots, last);
      shares := front + [share];
      hide FairSplit, Award, PotWinners, PayPots;
      assert shares[..last] == front;
      forall p | 0 <= p < |pots| ensures FairSplit(input, pots[p], shares[p]) {
        assert p < last ==> pots[..last][p] == pots[p] && FairSplit(input, pots[..last][p], front[p]);
      }
      forall i | 0 <= i < |input.contributions|
        ensures PayPots(input, pots)[i] == Received(shares, i)
      {
        PotShareOfSeat(input, pots, i);
      }
    }
  }

  /**
   Every pot left after rake is split among the best live seats that matched it; a payout is what a seat gets
   from all of them, and its utility is that and its refund less what it put in.
   */
  lemma PotsArePaidOut(input: TerminalInput) returns (shares: seq<seq<int>>)
    requires Settle(input).Success?
    ensures input.Valid() && SplitAll(input, Settle(input).value.pots, shares)
    ensures var s, n := Settle(input).value, |input.contributions|;
            && |s.payouts| == |s.refunds| == |s.utilities| == n
            && forall i :: 0 <= i < n ==>
                             && s.payouts[i] == Received(shares, i)
                             && s.utilities[i] == s.payouts[i] + s.refunds[i] - input.contributions[i]
  {
    hide PayPots, TakeRake, PotLayout, Settle, FairSplit;
    SettledPots(input);
    PotsNameLiveMatchers(input, Settle(input).value.pots, PotLayout(input.contributions, input.folded).value);
    shares := PotsSplitFairly(input, Settle(input).value.pots);
  }

  // ---------------------------------------------------------------- what is not settled

  /** A rake policy that settlement refuses: none with figures left in it, or a percentage without figures. */
  ghost predicate PolicyRefused(policy: RakePolicy) {
    if policy.mode == ExplicitZero then policy.basisPoints > 0 || policy.cap != 0 || !policy.noFlopNoDrop
    else policy.basisPoints == 0 || policy.basisPoints > 10_000 || policy.cap <= 0
  }

  /**
   Input is called invalid exactly when the table sizes disagree, no seat is live, a contribution is negative,
   the contributions overflow or the policy is refused; other input fails only for a layer nobody live reached.
   */
  lemma RefusedWhy(input: TerminalInput)
    ensures var c, n := input.contributions, |input.contributions|;
            Settle(input) == Failure(InvalidInput) <==>
            || n < 2 || n > 6 || |input.folded| != n || |input.strengths| != n
            || input.oddChipFirstSeat < 0 || input.oddChipFirstSeat >= n
            || (exists i :: 0 <= i < n && c[i] < 0) || (forall i :: 0 <= i < n ==> input.folded[i])
            || Sum(c) > 0x7fff_ffff || PolicyRefused(input.rake)
    ensures Settle(input) == Failure(InvalidSidePot) <==>
            input.Valid() && DeadLayer(input.contributions, input.folded)
  {
    hide PotLayout, TakeRake, PayPots, DeadLayer;
    if input.Valid() {
      SettlementRefusedExactly(input);
    }
  }
}
