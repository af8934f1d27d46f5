/**
 Terminal settlement: rake, the split of each pot, and what the whole settlement promises.
 */
module MultiwaySettlement {
  import opened Arithmetic
  import opened Wrappers
  import opened CommonTypes
  import opened SeqFolds
  import opened MultiwayPots

  /** Hand strengths enter only through their order. */
  type Strength = int

  // ---------------------------------------------------------------- rake

  datatype RakeMode = ExplicitZero | PercentageOfContestedPot

  datatype RakePolicy = RakePolicy(mode: RakeMode, basisPoints: nat, cap: int, noFlopNoDrop: bool) {
    predicate Valid() {
      match mode
      case ExplicitZero => basisPoints == 0 && cap == 0 && noFlopNoDrop
      case PercentageOfContestedPot => 0 < basisPoints <= 10_000 && cap > 0
    }

    function RakeFor(contested: nat, flopSeen: bool): int {
      if mode.ExplicitZero? || (noFlopNoDrop && !flopSeen) then 0
      else Min(contested * basisPoints / 10_000, cap)
    }
  }

  /** Rake never exceeds what was contested. */
  lemma RakeWithinPot(policy: RakePolicy, contested: nat, flopSeen: bool)
    requires policy.Valid()
    ensures 0 <= policy.RakeFor(contested, flopSeen) <= contested
  {
    if policy.mode.PercentageOfContestedPot? {
      var x := contested * policy.basisPoints;
      assert contested * 10_000 == x + contested * (10_000 - policy.basisPoints);
      assert x <= contested * 10_000;
      assert x / 10_000 <= contested;
    }
  }

  /** Rake comes out of the pots first to last. */
  function TakeRake(pots: seq<SidePot>, rake: int): (r: seq<SidePot>)
    ensures |r| == |pots|
  {
    if pots == [] || rake <= 0 then pots
    else
      var taken := Min(pots[0].amount, rake);
      [pots[0].(amount := pots[0].amount - taken)] + TakeRake(pots[1..], rake - taken)
  }

  lemma {:induction false} PotSumFront(pots: seq<SidePot>)
    requires pots != []
    ensures PotSum(pots) == pots[0].amount + PotSum(pots[1..])
  {
    if |pots| > 1 {
      var last := |pots| - 1;
      PotSumFront(pots[..last]);
      assert pots[..last][1..] == pots[1..][..last - 1];
    } else {
      assert pots[..0] == [] && pots[1..] == [];
    }
  }

  ghost predicate Reduces(after: seq<SidePot>, before: seq<SidePot>) {
    && |after| == |before|
    && forall p :: 0 <= p < |before| ==>
                     && 0 <= after[p].amount <= before[p].amount
                     && after[p] == before[p].(amount := after[p].amount)
  }

  /** Rake is removed in full and only shrinks pots. */
  lemma {:induction false} TakeRakeRemovesAll(pots: seq<SidePot>, rake: nat)
    requires forall p :: 0 <= p < |pots| ==> pots[p].amount >= 0
    requires rake <= PotSum(pots)
    ensures PotSum(TakeRake(pots, rake)) == PotSum(pots) - rake
    ensures Reduces(TakeRake(pots, rake), pots)
  {
    if pots != [] && rake > 0 {
      PotSumFront(pots);
      var taken := Min(pots[0].amount, rake);
      PotSumNonNegative(pots[1..]);
      TakeRakeRemovesAll(pots[1..], rake - taken);
      var rest := TakeRake(pots[1..], rake - taken);
      ReducesBehind(rest, pots[1..], pots[0], pots[0].amount - taken);
      assert pots == [pots[0]] + pots[1..];
      var after := TakeRake(pots, rake);
      assert after == [pots[0].(amount := pots[0].amount - taken)] + rest;
      hide TakeRake, PotSum, Reduces;
      assert after[1..] == rest;
      PotSumFront(after);
    }
  }

  lemma ReducesBehind(after: seq<SidePot>, before: seq<SidePot>, pot: SidePot, left: int)
    requires Reduces(after, before) && 0 <= left <= pot.amount
    ensures Reduces([pot.(amount := left)] + after, [pot] + before)
  {
  }

  lemma {:induction false} PotSumNonNegative(pots: seq<SidePot>)
    requires forall p :: 0 <= p < |pots| ==> pots[p].amount >= 0
    ensures PotSum(pots) >= 0
  {
    if pots != [] {
      PotSumNonNegative(pots[..|pots| - 1]);
    }
  }

  lemma {:induction false} ReducedReach(after: seq<SidePot>, before: seq<SidePot>, x: int)
    requires Reduces(after, before)
    ensures PotSumUpTo(after, x) <= PotSumUpTo(before, x)
  {
    if after != [] {
      ReducedReach(after[..|after| - 1], before[..|before| - 1], x);
    }
  }

  // ---------------------------------------------------------------- splitting one pot

  /** The eligible seats that no eligible seat beats. */
  function Winners(n: nat, eligible: seq<nat>, strengths: seq<Strength>): (flags: seq<bool>)
    requires |strengths| == n && forall i :: i in eligible ==> i < n
    ensures |flags| == n
    ensures forall i :: 0 <= i < n ==>
                          (flags[i] <==> i in eligible && forall e :: e in eligible ==> strengths[e] <= strengths[i])
  {
    seq(n, i requires 0 <= i < n => i in eligible && forall e | e in eligible :: strengths[e] <= strengths[i])
  }

  lemma {:induction false} StrongestExists(eligible: seq<nat>, strengths: seq<Strength>) returns (best: nat)
    requires eligible != [] && forall i :: i in eligible ==> i < |strengths|
    ensures best in eligible && forall e :: e in eligible ==> strengths[e] <= strengths[best]
  {
    var front, last := eligible[..|eligible| - 1], eligible[|eligible| - 1];
    assert last in eligible;
    assert forall e :: e in eligible <==> e in front || e == last;
    if front == [] {
      best := last;
    } else {
      best := StrongestExists(front, strengths);
      if strengths[best] < strengths[last] {
        best := last;
      }
    }
  }

  lemma SomeWinner(n: nat, eligible: seq<nat>, strengths: seq<Strength>)
    requires |strengths| == n && eligible != [] && forall i :: i in eligible ==> i < n
    ensures Count(Winners(n, eligible, strengths)) > 0
  {
    var best := StrongestExists(eligible, strengths);
    CountZero(Winners(n, eligible, strengths));
    assert Winners(n, eligible, strengths)[best];
  }

  function RingDistance(start: nat, i: nat, n: nat): (d: nat)
    requires start < n && i < n
    ensures d < n && RingSeat(start, d, n) == i
  {
    if i >= start then i - start else i + n - start
  }

  /** What one seat gets from a pot: an even share, and an odd chip while they last clockwise from `start`. */
  function Award(amount: int, winners: seq<bool>, start: nat, i: nat): int
    requires start < |winners| && i < |winners| && Count(winners) > 0
  {
    if !winners[i] then 0
    else amount / Count(winners)
         + if RingCount(winners, start, RingDistance(start, i, |winners|)) < amount % Count(winners) then 1 else 0
  }

  /** Payouts after the first `d` seats clockwise from `start` have been served. */
  function DealOut(base: seq<int>, amount: int, winners: seq<bool>, start: nat, d: nat): (r: seq<int>)
    requires |base| == |winners| && start < |winners| && d <= |winners| && Count(winners) > 0
    ensures |r| == |base|
  {
    if d == 0 then base
    else
      var prev := DealOut(base, amount, winners, start, d - 1);
      var seat := RingSeat(start, d - 1, |winners|);
      prev[seat := prev[seat] + Award(amount, winners, start, seat)]
  }

  /** Serving the ring gives every seat its award once. */
  lemma {:induction false} DealOutSeat(base: seq<int>, amount: int, winners: seq<bool>, start: nat, d: nat, i: nat)
    requires |base| == |winners| && start < |winners| && d <= |winners| && Count(winners) > 0 && i < |winners|
    ensures DealOut(base, amount, winners, start, d)[i]
            == base[i] + if RingDistance(start, i, |winners|) < d then Award(amount, winners, start, i) else 0
  {
    hide Award, Count;
    if d > 0 {
      DealOutSeat(base, amount, winners, start, d - 1, i);
    }
  }

  /** The seat served after `d` others gets a share, and an odd chip while fewer winners came before it. */
  lemma AwardInTurn(amount: int, winners: seq<bool>, start: nat, d: nat)
    requires start < |winners| && d < |winners| && Count(winners) > 0
    ensures var seat := RingSeat(start, d, |winners|);
            Award(amount, winners, start, seat) ==
            if !winners[seat] then 0
            else amount / Count(winners) + if RingCount(winners, start, d) < amount % Count(winners) then 1 else 0
  {
    hide Count, RingCount;
    assert RingDistance(start, RingSeat(start, d, |winners|), |winners|) == d;
  }

  lemma ServedShare(share: int, odd: int, served: nat, wins: bool)
    ensures Times(share, served) + Min(odd, served) + (if wins then share + (if served < odd then 1 else 0) else 0)
            == Times(share, served + if wins then 1 else 0) + Min(odd, served + if wins then 1 else 0)
  {
  }

  lemma {:induction false} DealOutSum(base: seq<int>, amount: int, winners: seq<bool>, start: nat, d: nat)
    requires |base| == |winners| && start < |winners| && d <= |winners| && Count(winners) > 0
    ensures var served := RingCount(winners, start, d);
            Sum(DealOut(base, amount, winners, start, d))
            == Sum(base) + Times(amount / Count(winners), served) + Min(amount % Count(winners), served)
  {
    hide Count, Award, RingSeat;
    if d > 0 {
      DealOutSum(base, amount, winners, start, d - 1);
      var prev := DealOut(base, amount, winners, start, d - 1);
      var seat := RingSeat(start, d - 1, |winners|);
      SumUpdate(prev, seat, prev[seat] + Award(amount, winners, start, seat));
      AwardInTurn(amount, winners, start, d - 1);
      ServedShare(amount / Count(winners), amount % Count(winners), RingCount(winners, start, d - 1), winners[seat]);
    }
  }

  /** A pot is paid out to the last chip. */
  lemma PotPaidInFull(base: seq<int>, amount: int, winners: seq<bool>, start: nat)
    requires |base| == |winners| && start < |winners| && Count(winners) > 0
    ensures Sum(DealOut(base, amount, winners, start, |winners|)) == Sum(base) + amount
  {
    hide Count, DealOut, RingCount;
    var w := Count(winners);
    DealOutSum(base, amount, winners, start, |winners|);
    FullRingCount(winners, start);
    TimesIsProduct(amount / w, w);
    assert amount == (amount / w) * w + amount % w;
  }

  lemma ShareWithin(amount: nat, w: nat)
    requires w > 0
    ensures 0 <= amount / w && amount % w < w
    ensures w == 1 ==> amount / w == amount
    ensures amount / w + (if amount % w > 0 then 1 else 0) <= amount
  {
    var share, odd := amount / w, amount % w;
    assert amount == share * w + odd;
    ProductAtLeast(w, share);
    assert w * share == share * w;
  }

  lemma AwardWithin(amount: nat, winners: seq<bool>, start: nat, i: nat)
    requires start < |winners| && i < |winners| && Count(winners) > 0
    ensures 0 <= Award(amount, winners, start, i) <= amount
    ensures Count(winners) == 1 && winners[i] ==> Award(amount, winners, start, i) == amount
  {
    hide Count, RingCount;
    ShareWithin(amount, Count(winners));
  }

  // ---------------------------------------------------------------- the whole hand

  datatype TerminalInput = TerminalInput(
    contributions: seq<int>,
    folded: seq<bool>,
    strengths: seq<Strength>,
    oddChipFirstSeat: int,
    rake: RakePolicy,
    flopSeen: bool)
  {
    predicate Valid() {
      && 2 <= |contributions| <= MAX_SEATS
      && |folded| == |contributions| == |strengths|
      && 0 <= oddChipFirstSeat < |contributions|
      && NonNegative(contributions)
      && (exists i :: 0 <= i < |folded| && !folded[i])
      && Sum(contributions) <= INT_MAX
      && rake.Valid()
    }
  }

  datatype Settlement = Settlement(
    pots: seq<SidePot>,
    refunds: seq<int>,
    payouts: seq<int>,
    utilities: seq<int>,
    rakeTaken: int)

  datatype SettleError = InvalidInput | InvalidSidePot

  ghost predicate Playable(input: TerminalInput, pots: seq<SidePot>) {
    && input.Valid()
    && forall p :: 0 <= p < |pots| ==>
                     && pots[p].amount >= 0 && pots[p].eligible != []
                     && forall i :: i in pots[p].eligible ==> i < |input.contributions|
  }

  function PotWinners(input: TerminalInput, pot: SidePot): (flags: seq<bool>)
    requires input.Valid() && pot.eligible != [] && forall i :: i in pot.eligible ==> i < |input.contributions|
    ensures |flags| == |input.contributions| && Count(flags) > 0
  {
    SomeWinner(|input.contributions|, pot.eligible, input.strengths);
    Winners(|input.contributions|, pot.eligible, input.strengths)
  }

  function PayPots(input: TerminalInput, pots: seq<SidePot>): (payouts: seq<int>)
    requires Playable(input, pots)
    ensures |payouts| == |input.contributions|
  {
    var n := |input.contributions|;
    if pots == [] then Zeros(n)
    else
      var last := |pots| - 1;
      DealOut(PayPots(input, pots[..last]), pots[last].amount, PotWinners(input, pots[last]),
              input.oddChipFirstSeat, n)
  }

  function Utilities(payouts: seq<int>, refunds: seq<int>, contributions: seq<int>): (u: seq<int>)
    requires |payouts| == |refunds| == |contributions|
    ensures |u| == |payouts|
    ensures forall i :: 0 <= i < |u| ==> u[i] == payouts[i] + refunds[i] - contributions[i]
  {
    seq(|payouts|, i requires 0 <= i < |payouts| => payouts[i] + refunds[i] - contributions[i])
  }

  lemma LayoutIsPlayable(input: TerminalInput, layout: Layout)
    requires input.Valid() && PotLayout(input.contributions, input.folded) == Some(layout)
    ensures Playable(input, layout.pots)
    ensures PotSum(layout.pots) >= 0
    ensures var rake := input.rake.RakeFor(PotSum(layout.pots), input.flopSeen);
            && 0 <= rake <= PotSum(layout.pots)
            && Playable(input, TakeRake(layout.pots, rake))
            && PotSum(TakeRake(layout.pots, rake)) == PotSum(layout.pots) - rake
            && Reduces(TakeRake(layout.pots, rake), layout.pots)
  {
    PotLayoutConserves(input.contributions, input.folded);
    forall p | 0 <= p < |layout.pots|
      ensures layout.pots[p].amount > 0 && layout.pots[p].eligible != []
      ensures forall i :: i in layout.pots[p].eligible ==> i < |input.contributions|
    {
      assert PotOk(input.contributions, input.folded, layout.pots[p]);
    }
    PotSumNonNegative(layout.pots);
    RakeWithinPot(input.rake, PotSum(layout.pots), input.flopSeen);
    TakeRakeRemovesAll(layout.pots, input.rake.RakeFor(PotSum(layout.pots), input.flopSeen));
  }

  /** settle_multiway_terminal_fixed. */
  function Settle(input: TerminalInput): (r: Result<Settlement, SettleError>) {
    if !input.Valid() then Failure(InvalidInput)
    else
      match PotLayout(input.contributions, input.folded)
      case None => Failure(InvalidSidePot)
      case Some(layout) =>
        LayoutIsPlayable(input, layout);
        var rake := input.rake.RakeFor(PotSum(layout.pots), input.flopSeen);
        var pots := TakeRake(layout.pots, rake);
        var payouts := PayPots(input, pots);
        Success(Settlement(pots, layout.refunds, payouts,
                           Utilities(payouts, layout.refunds, input.contributions), rake))
  }

  // ---------------------------------------------------------------- what settlement promises

  lemma {:induction false} PayoutsSum(input: TerminalInput, pots: seq<SidePot>)
    requires Playable(input, pots)
    ensures Sum(PayPots(input, pots)) == PotSum(pots)
  {
    hide DealOut, PotWinners;
    if pots == [] {
      SumOfZeros(|input.contributions|);
    } else {
      var last := |pots| - 1;
      PayoutsSum(input, pots[..last]);
      PotPaidInFull(PayPots(input, pots[..last]), pots[last].amount, PotWinners(input, pots[last]),
                    input.oddChipFirstSeat);
    }
  }

  ghost predicate EligibleMatched(input: TerminalInput, pots: seq<SidePot>) {
    forall p, i :: 0 <= p < |pots| && i in pots[p].eligible ==>
                     i < |input.contributions| && input.contributions[i] >= pots[p].cap
  }

  lemma LoserGetsNothing(input: TerminalInput, pot: SidePot, i: nat)
    requires input.Valid() && pot.eligible != [] && i < |input.contributions| && i !in pot.eligible
    requires forall e :: e in pot.eligible ==> e < |input.contributions|
    ensures Award(pot.amount, PotWinners(input, pot), input.oddChipFirstSeat, i) == 0
  {
  }

  /** Payouts are never negative and never more than the pots within reach of the seat's contribution. */
  lemma {:induction false} PayoutWithinReach(input: TerminalInput, pots: seq<SidePot>, i: nat)
    requires Playable(input, pots) && EligibleMatched(input, pots) && i < |input.contributions|
    ensures 0 <= PayPots(input, pots)[i] <= PotSumUpTo(pots, input.contributions[i])
  {
    hide DealOut, PotWinners, Award;
    if pots != [] {
      var front, pot := pots[..|pots| - 1], pots[|pots| - 1];
      PayoutWithinReach(input, front, i);
      DealOutSeat(PayPots(input, front), pot.amount, PotWinners(input, pot), input.oddChipFirstSeat,
                  |input.contributions|, i);
      AwardWithin(pot.amount, PotWinners(input, pot), input.oddChipFirstSeat, i);
      if i !in pot.eligible {
        LoserGetsNothing(input, pot, i);
      }
    }
  }

  ghost predicate StrictlyStrongest(input: TerminalInput, i: nat) {
    && i < |input.folded| && |input.strengths| == |input.folded| && !input.folded[i]
    && forall j :: 0 <= j < |input.folded| && !input.folded[j] && j != i ==> input.strengths[j] < input.strengths[i]
  }

  ghost predicate EligibleExactly(input: TerminalInput, pots: seq<SidePot>) {
    && |input.folded| == |input.contributions|
    && forall p, i :: 0 <= p < |pots| ==>
                        (i in pots[p].eligible <==>
                           0 <= i < |input.contributions| && input.contributions[i] >= pots[p].cap && !input.folded[i])
  }

  lemma SoleWinner(input: TerminalInput, pot: SidePot, i: nat)
    requires input.Valid() && pot.eligible != [] && StrictlyStrongest(input, i) && i in pot.eligible
    requires forall e :: e in pot.eligible ==> e < |input.contributions| && !input.folded[e]
    ensures PotWinners(input, pot)[i] && Count(PotWinners(input, pot)) == 1
  {
    hide Count;
    CountOne(PotWinners(input, pot), i);
  }

  /** A strictly strongest live seat takes every pot it is eligible for, whole. */
  lemma {:induction false} StrongestTakesAll(input: TerminalInput, pots: seq<SidePot>, i: nat)
    requires Playable(input, pots) && EligibleExactly(input, pots) && StrictlyStrongest(input, i)
    ensures PayPots(input, pots)[i] == PotSumUpTo(pots, input.contributions[i])
  {
    hide DealOut, PotWinners, Award, Count;
    if pots != [] {
      var front, pot := pots[..|pots| - 1], pots[|pots| - 1];
      StrongestTakesAll(input, front, i);
      DealOutSeat(PayPots(input, front), pot.amount, PotWinners(input, pot), input.oddChipFirstSeat,
                  |input.contributions|, i);
      assert i in pot.eligible <==> input.contributions[i] >= pot.cap;
      if i in pot.eligible {
        SoleWinner(input, pot, i);
        AwardWithin(pot.amount, PotWinners(input, pot), input.oddChipFirstSeat, i);
      } else {
        LoserGetsNothing(input, pot, i);
      }
    }
  }

  lemma {:induction false} UtilitySum(payouts: seq<int>, refunds: seq<int>, contributions: seq<int>)
    requires |payouts| == |refunds| == |contributions|
    ensures Sum(Utilities(payouts, refunds, contributions)) == Sum(payouts) + Sum(refunds) - Sum(contributions)
  {
    if payouts != [] {
      var last := |payouts| - 1;
      UtilitySum(payouts[..last], refunds[..last], contributions[..last]);
      assert Utilities(payouts, refunds, contributions)[..last]
          == Utilities(payouts[..last], refunds[..last], contributions[..last]);
    }
  }

  lemma SettledPots(input: TerminalInput)
    requires Settle(input).Success?
    ensures input.Valid()
    ensures var s := Settle(input).value;
            var layout := PotLayout(input.contributions, input.folded);
            && layout.Some? && LayoutOk(input.contributions, input.folded, layout.value)
            && s.refunds == layout.value.refunds
            && Playable(input, s.pots) && s.payouts == PayPots(input, s.pots)
            && s.utilities == Utilities(s.payouts, s.refunds, input.contributions)
            && 0 <= s.rakeTaken <= PotSum(layout.value.pots)
            && PotSum(s.pots) == PotSum(layout.value.pots) - s.rakeTaken
            && Reduces(s.pots, layout.value.pots)
  {
    hide TakeRake, PayPots, PotLayout;
    PotLayoutConserves(input.contributions, input.folded);
    LayoutIsPlayable(input, PotLayout(input.contributions, input.folded).value);
  }

  lemma PotsNameLiveMatchers(input: TerminalInput, pots: seq<SidePot>, layout: Layout)
    requires |input.folded| == |input.contributions|
    requires LayoutOk(input.contributions, input.folded, layout) && Reduces(pots, layout.pots)
    ensures EligibleExactly(input, pots) && EligibleMatched(input, pots)
  {
    forall p, i | 0 <= p < |pots|
      ensures i in pots[p].eligible <==>
                0 <= i < |input.contributions| && input.contributions[i] >= pots[p].cap && !input.folded[i]
    {
      assert PotOk(input.contributions, input.folded, layout.pots[p]);
      assert pots[p] == layout.pots[p].(amount := pots[p].amount);
    }
  }

  /**
   Chips are conserved exactly: payouts, refunds and rake are the contributions, rake comes out of
   contested chips only, and every amount returned stays within the validated total.
   */
  lemma SettlementConserves(input: TerminalInput)
    requires Settle(input).Success?
    ensures var s := Settle(input).value; var total := Sum(input.contributions);
            && Sum(s.payouts) + Sum(s.refunds) + s.rakeTaken == total
            && 0 <= s.rakeTaken <= total - Sum(s.refunds)
            && PotSum(s.pots) == Sum(s.payouts)
            && Sum(s.utilities) == -s.rakeTaken
            && |s.payouts| == |s.refunds| == |input.contributions|
            && forall i :: 0 <= i < |input.contributions| ==>
                             && 0 <= s.payouts[i] <= total && 0 <= s.refunds[i] <= total
                             && s.payouts[i] + s.refunds[i] <= total
  {
    hide PayPots, TakeRake, PotLayout, Settle;
    SettledPots(input);
    PotLayoutConserves(input.contributions, input.folded);
    var s := Settle(input).value;
    PayoutsSum(input, s.pots);
    UtilitySum(s.payouts, s.refunds, input.contributions);
    PotsNameLiveMatchers(input, s.pots, PotLayout(input.contributions, input.folded).value);
    forall i | 0 <= i < |input.contributions| ensures s.payouts[i] >= 0 {
      PayoutWithinReach(input, s.pots, i);
    }
    SumNonNegative(s.payouts);
    SumNonNegative(s.refunds);
    forall i | 0 <= i < |input.contributions|
      ensures s.payouts[i] <= Sum(s.payouts) && s.refunds[i] <= Sum(s.refunds)
    {
      SumAtLeastPart(s.payouts, i);
      SumAtLeastPart(s.refunds, i);
    }
  }

  /**
   While pot `p` is dealt out, after `d` seats of the lap, no running payout leaves the validated total;
   nor do the pots left after rake, added up to any pot.
   */
  lemma RunningPayoutsFit(input: TerminalInput, p: nat, d: nat, i: nat)
    requires Settle(input).Success? && p < |Settle(input).value.pots|
    requires d <= |input.contributions| && i < |input.contributions|
    ensures var pots := Settle(input).value.pots;
            && Playable(input, pots[..p]) && Playable(input, pots)
               && |PayPots(input, pots[..p])| == |input.contributions|
            && 0 <= PotSum(pots[..p]) <= Sum(input.contributions) <= INT_MAX
            && 0 <= DealOut(PayPots(input, pots[..p]), pots[p].amount, PotWinners(input, pots[p]),
                            input.oddChipFirstSeat, d)[i] <= Sum(input.contributions)
  {
    hide PotLayout, Settle, PotWinners, Award, DealOut, PayPots;
    SettledPots(input);
    SettlementConserves(input);
    var s := Settle(input).value;
    SumNonNegative(s.refunds);
    PrefixPaid(input, s.pots, p, i);
    PartialPotSum(s.pots, p);
    PartialPotSum(s.pots, p + 1);
    assert s.pots[..p + 1][..p] == s.pots[..p];
    DealOutSeat(PayPots(input, s.pots[..p]), s.pots[p].amount, PotWinners(input, s.pots[p]), input.oddChipFirstSeat, d,
                i);
    AwardWithin(s.pots[p].amount, PotWinners(input, s.pots[p]), input.oddChipFirstSeat, i);
  }

  lemma {:induction false} PrefixPaid(input: TerminalInput, pots: seq<SidePot>, p: nat, i: nat)
    requires Playable(input, pots) && p <= |pots| && i < |input.contributions|
    ensures Playable(input, pots[..p])
    ensures 0 <= PayPots(input, pots[..p])[i] <= PotSum(pots[..p])
  {
    hide DealOut, PotWinners, Award;
    if p > 0 {
      PrefixPaid(input, pots, p - 1, i);
      var front, pot := pots[..p - 1], pots[p - 1];
      assert pots[..p][..p - 1] == front && pots[..p][p - 1] == pot;
      DealOutSeat(PayPots(input, front), pot.amount, PotWinners(input, pot), input.oddChipFirstSeat,
                  |input.contributions|, i);
      AwardWithin(pot.amount, PotWinners(input, pot), input.oddChipFirstSeat, i);
    }
  }

  /** No seat gets back more than every seat's contribution counted up to its own. */
  lemma ReceiptIsCapped(input: TerminalInput, i: nat)
    requires Settle(input).Success? && i < |input.contributions|
    ensures var s := Settle(input).value;
            |s.payouts| == |s.refunds| == |input.contributions|
            && s.payouts[i] + s.refunds[i] <= Capped(input.contributions, input.contributions[i])
  {
    hide PayPots, TakeRake, PotLayout, Settle;
    SettledPots(input);
    PotLayoutConserves(input.contributions, input.folded);
    var s, layout := Settle(input).value, PotLayout(input.contributions, input.folded).value;
    PotsNameLiveMatchers(input, s.pots, layout);
    PayoutWithinReach(input, s.pots, i);
    ReducedReach(s.pots, layout.pots, input.contributions[i]);
    assert Reach(layout, i, input.contributions[i]) == Capped(input.contributions, input.contributions[i]);
  }

  /** A strictly strongest live seat receives every pot it reached in full, and without rake all it matched. */
  lemma StrongestReceivesAll(input: TerminalInput, i: nat)
    requires Settle(input).Success? && StrictlyStrongest(input, i)
    ensures var s := Settle(input).value;
            && |s.payouts| == |s.refunds| == |input.contributions| && i < |s.payouts|
            && s.payouts[i] == PotSumUpTo(s.pots, input.contributions[i])
            && (s.rakeTaken == 0 ==>
                  s.payouts[i] + s.refunds[i] == Capped(input.contributions, input.contributions[i]))
  {
    hide PayPots, TakeRake, PotLayout, Settle;
    SettledPots(input);
    PotLayoutConserves(input.contributions, input.folded);
    var s, layout := Settle(input).value, PotLayout(input.contributions, input.folded).value;
    PotsNameLiveMatchers(input, s.pots, layout);
    StrongestTakesAll(input, s.pots, i);
    if s.rakeTaken == 0 {
      UnrakedPots(s.pots, layout.pots);
      assert Reach(layout, i, input.contributions[i]) == Capped(input.contributions, input.contributions[i]);
    }
  }

  lemma FrontReduces(after: seq<SidePot>, before: seq<SidePot>)
    requires Reduces(after, before) && after != []
    ensures var last := |after| - 1;
            && Reduces(after[..last], before[..last]) && after[last].amount <= before[last].amount
            && (after[last].amount == before[last].amount ==> after[last] == before[last])
  {
  }

  lemma {:induction false} UnrakedPots(after: seq<SidePot>, before: seq<SidePot>)
    requires Reduces(after, before) && PotSum(after) >= PotSum(before)
    ensures after == before
  {
    if after != [] {
      var last := |after| - 1;
      FrontReduces(after, before);
      ReducedSum(after[..last], before[..last]);
      assert after[last].amount >= before[last].amount;
      hide Reduces, PotSum;
      UnrakedPots(after[..last], before[..last]);
      assert after == after[..last] + [after[last]] && before == before[..last] + [before[last]];
    }
  }

  lemma {:induction false} ReducedSum(after: seq<SidePot>, before: seq<SidePot>)
    requires Reduces(after, before)
    ensures PotSum(after) <= PotSum(before)
  {
    if after != [] {
      ReducedSum(after[..|after| - 1], before[..|before| - 1]);
    }
  }

  /** Settlement refuses valid input exactly when folded seats alone reached some layer. */
  lemma SettlementRefusedExactly(input: TerminalInput)
    requires input.Valid()
    ensures Settle(input).Failure? <==> DeadLayer(input.contributions, input.folded)
  {
    hide DeadLayer, PotLayout;
    LayoutRefusedExactly(input.contributions, input.folded);
  }

  /** How a single pot reaches one seat: an even share, plus an odd chip for the first winners clockwise. */
  lemma PotShareOfSeat(input: TerminalInput, pots: seq<SidePot>, i: nat)
    requires Playable(input, pots) && pots != [] && i < |input.contributions|
    ensures PayPots(input, pots)[i] == PayPots(input, pots[..|pots| - 1])[i]
              + Award(pots[|pots| - 1].amount, PotWinners(input, pots[|pots| - 1]), input.oddChipFirstSeat, i)
  {
    hide DealOut, PotWinners, Award;
    var front, pot := pots[..|pots| - 1], pots[|pots| - 1];
    DealOutSeat(PayPots(input, front), pot.amount, PotWinners(input, pot), input.oddChipFirstSeat,
                |input.contributions|, i);
  }
}
