/**
 Settlement as the source runs it: scratch buffers filled in place, nested seat loops, and the
 vector form of the layering that is checked against a supplied layout.
 */
module MultiwayTerminal {
  import opened Arithmetic
  import opened Wrappers
  import opened CommonTypes
  import opened SeqFolds
  import opened MultiwayPots
  import opened MultiwaySettlement

  class TerminalScratch {
    const levels: array<int>
    var levelCount: nat
    const winners: array<nat>

    constructor ()
      ensures levels.Length == MAX_SEATS && winners.Length == MAX_SEATS && fresh(levels) && fresh(winners)
    {
      levels := new int[MAX_SEATS];
      levelCount := 0;
      winners := new nat[MAX_SEATS];
    }
  }

  class TerminalResult {
    var pots: seq<SidePot>
    var refunds: seq<int>
    var payouts: seq<int>
    var utilities: seq<int>
    var rakeTaken: int

    constructor ()
    {
      pots, refunds, payouts, utilities, rakeTaken := [], [], [], [], 0;
    }

    ghost function Value(): Settlement
      reads this
    {
      Settlement(pots, refunds, payouts, utilities, rakeTaken)
    }
  }

  // ---------------------------------------------------------------- contribution levels in place

  /** Inserting a new level at its place keeps the list of levels. */
  lemma InsertedLevels(levels: seq<int>, at: nat, c: seq<int>, x: int)
    requires IsLevels(levels, c) && at <= |levels| && x > 0
    requires forall i :: 0 <= i < at ==> levels[i] < x
    requires at < |levels| ==> x < levels[at]
    ensures IsLevels(levels[..at] + [x] + levels[at..], c + [x])
  {
    var r := levels[..at] + [x] + levels[at..];
    forall i, j | 0 <= i < j < |r|
      ensures r[i] < r[j]
    {
    }
    forall y | y in r ensures y > 0 && y in c + [x] {
      assert y == x || y in levels;
    }
    forall y | y in levels ensures y in r {
      var k :| 0 <= k < |levels| && levels[k] == y;
      assert r[if k < at then k else k + 1] == y;
    }
    assert r[at] == x;
  }

  lemma KnownLevel(levels: seq<int>, c: seq<int>, x: int)
    requires IsLevels(levels, c) && (x == 0 || x in levels)
    ensures IsLevels(levels, c + [x])
  {
  }

  /** Adds one contribution to the partly filled level buffer, keeping it sorted and distinct. */
  method PlaceLevel(levels: array<int>, count: nat, level: int, ghost c: seq<int>) returns (newCount: nat)
    requires count < levels.Length && level >= 0 && IsLevels(levels[..count], c)
    modifies levels
    ensures count <= newCount <= count + 1
    ensures IsLevels(levels[..newCount], c + [level])
  {
    ghost var before := levels[..count];
    if level == 0 {
      KnownLevel(before, c, level);
      return count;
    }
    var insert := 0;
    while insert < count && levels[insert] < level
      invariant insert <= count
      invariant forall i :: 0 <= i < insert ==> before[i] < level
    {
      insert := insert + 1;
    }
    if insert < count && levels[insert] == level {
      assert before[insert] == level;
      KnownLevel(before, c, level);
      return count;
    }
    InsertedLevels(before, insert, c, level);
    InsertAt(levels, count, insert, level);
    assert levels[..count + 1] == before[..insert] + [level] + before[insert..];
    return count + 1;
  }

  /** Fills `scratch.levels` with the sorted distinct positive contributions, by insertion in place. */
  method CollectLevels(c: seq<int>, scratch: TerminalScratch)
    requires |c| <= scratch.levels.Length && NonNegative(c)
    modifies scratch`levelCount, scratch.levels
    ensures scratch.levelCount <= |c|
    ensures scratch.levels[..scratch.levelCount] == LevelsOf(c)
  {
    hide IsLevels;
    scratch.levelCount := 0;
    NoLevels(scratch.levels[..0]);
    for seat := 0 to |c|
      invariant scratch.levelCount <= seat
      invariant IsLevels(scratch.levels[..scratch.levelCount], c[..seat])
    {
      assert c[..seat + 1] == c[..seat] + [c[seat]];
      var newCount := PlaceLevel(scratch.levels, scratch.levelCount, c[seat], c[..seat]);
      scratch.levelCount := newCount;
    }
    assert c[..|c|] == c;
    LevelsAreUnique(scratch.levels[..scratch.levelCount], c);
  }

  lemma NoLevels(levels: seq<int>)
    requires levels == []
    ensures IsLevels(levels, [])
  {
  }

  lemma LevelsAreUnique(levels: seq<int>, c: seq<int>)
    requires NonNegative(c) && IsLevels(levels, c)
    ensures levels == LevelsOf(c)
  {
    SameIncreasing(levels, LevelsOf(c));
  }

  /** Shifts the tail of a partly filled buffer one place up and writes `x` into the gap. */
  method InsertAt(buffer: array<int>, count: nat, at: nat, x: int)
    requires at <= count < buffer.Length
    modifies buffer
    ensures buffer[..count + 1] == old(buffer[..at]) + [x] + old(buffer[at..count])
  {
    var index := count;
    while index > at
      invariant at <= index <= count
      invariant forall i :: 0 <= i <= index && i < count ==> buffer[i] == old(buffer[i])
      invariant forall i :: index < i <= count ==> buffer[i] == old(buffer[i - 1])
    {
      buffer[index] := buffer[index - 1];
      index := index - 1;
    }
    buffer[at] := x;
  }

  // ---------------------------------------------------------------- layers

  /** Counts the contributors of a layer and lists the live ones. */
  method ScanLayer(c: seq<int>, folded: seq<bool>, level: int) returns (contributors: nat, eligible: seq<nat>)
    requires |folded| == |c|
    ensures contributors == Count(AtLeast(c, level))
    ensures eligible == Select(Eligible(c, folded, level))
  {
    contributors, eligible := 0, [];
    ghost var reached, live := AtLeast(c, level), Eligible(c, folded, level);
    for seat := 0 to |c|
      invariant contributors == Count(reached[..seat]) && eligible == Select(live[..seat])
    {
      assert reached[..seat + 1][..seat] == reached[..seat] && live[..seat + 1][..seat] == live[..seat];
      if c[seat] < level {
        continue;
      }
      contributors := contributors + 1;
      if !folded[seat] {
        eligible := eligible + [seat];
      }
    }
    assert reached[..|c|] == reached && live[..|c|] == live;
  }

  /** The refund loop: adds `amount` for every seat that reached `level`. */
  method RefundReachers(c: seq<int>, level: int, amount: int, refunds: seq<int>) returns (r: seq<int>)
    requires |refunds| == |c| && Count(AtLeast(c, level)) == 1
    ensures var seat := Select(AtLeast(c, level))[0];
            seat < |c| && r == refunds[seat := refunds[seat] + amount]
  {
    ghost var flags := AtLeast(c, level);
    ghost var holder := Select(flags)[0];
    assert holder in Select(flags);
    CountOne(flags, holder);
    r := refunds;
    for seat := 0 to |c|
      invariant r == if seat <= holder then refunds else refunds[holder := refunds[holder] + amount]
    {
      assert flags[seat] <==> seat == holder;
      if c[seat] >= level {
        r := r[seat := r[seat] + amount];
      }
    }
  }

  lemma PlacedLayer(c: seq<int>, folded: seq<bool>, levels: seq<int>, k: nat, below: Layout)
    requires |folded| == |c| == |below.refunds| && k < |levels|
    ensures var reached := AtLeast(c, levels[k]);
            AddLayer(c, folded, levels, k, below)
            == Place(below, levels[k], (levels[k] - Prev(levels, k)) * Count(reached), Select(reached),
                     Select(Eligible(c, folded, levels[k])))
  {
    TimesIsProduct(levels[k] - Prev(levels, k), Count(AtLeast(c, levels[k])));
  }

  /** The layering loop of the fixed settlement: pots and refunds, or the refusal of a layer nobody can win. */
  method BuildLayers(c: seq<int>, folded: seq<bool>, levels: seq<int>, result: TerminalResult) returns (ok: bool)
    requires |folded| == |c| && |levels| <= MAX_SEATS
    requires result.pots == [] && result.refunds == Zeros(|c|)
    modifies result`pots, result`refunds
    ensures ok <==> LayoutUpTo(c, folded, levels, |levels|).Some?
    ensures ok ==> LayoutUpTo(c, folded, levels, |levels|) == Some(Layout(result.pots, result.refunds))
  {
    hide AddLayer, Select, AtLeast, Eligible, Count;
    var previousLevel := 0;
    for k := 0 to |levels|
      invariant previousLevel == Prev(levels, k) && |result.pots| <= k
      invariant LayoutUpTo(c, folded, levels, k) == Some(Layout(result.pots, result.refunds))
    {
      var level := levels[k];
      var contributors, eligible := ScanLayer(c, folded, level);
      var amount := (level - previousLevel) * contributors;
      previousLevel := level;
      PlacedLayer(c, folded, levels, k, Layout(result.pots, result.refunds));
      if contributors == 1 {
        result.refunds := RefundReachers(c, level, amount, result.refunds);
        continue;
      }
      if contributors == 0 || |eligible| == 0 || |result.pots| == MAX_SEATS {
        LayoutFailureStays(c, folded, levels, k + 1);
        return false;
      }
      result.pots := result.pots + [SidePot(amount, level, eligible)];
    }
    return true;
  }

  // ---------------------------------------------------------------- rake and payouts

  lemma TakeRakeStep(pots: seq<SidePot>, k: nat, rake: int)
    requires k < |pots| && rake > 0
    ensures var taken := Min(pots[k].amount, rake);
            TakeRake(pots[k..], rake) ==
            [pots[k].(amount := pots[k].amount - taken)] + TakeRake(pots[k + 1..], rake - taken)
  {
    assert pots[k..][0] == pots[k] && pots[k..][1..] == pots[k + 1..];
  }

  lemma TakeRakeDone(pots: seq<SidePot>, k: nat, rake: int)
    requires k <= |pots| && (k == |pots| || rake <= 0)
    ensures TakeRake(pots[k..], rake) == pots[k..]
  {
  }

  lemma PassTaken(done: seq<SidePot>, pots: seq<SidePot>, k: nat, rake: int)
    requires k < |pots| && rake > 0
    ensures var taken := Min(pots[k].amount, rake);
            done + TakeRake(pots[k..], rake) ==
            (done + [pots[k].(amount := pots[k].amount - taken)]) + TakeRake(pots[k + 1..], rake - taken)
  {
    TakeRakeStep(pots, k, rake);
  }

  method RemoveRake(pots: seq<SidePot>, rake: int) returns (r: seq<SidePot>)
    ensures r == TakeRake(pots, rake)
  {
    hide TakeRake;
    r := pots;
    var remaining := rake;
    var k := 0;
    ghost var done: seq<SidePot> := [];
    assert pots[0..] == pots && done + TakeRake(pots, rake) == TakeRake(pots, rake);
    while k < |pots| && remaining > 0
      invariant k <= |pots| == |r| && |done| == k
      invariant forall i :: 0 <= i < |r| ==> r[i] == if i < k then done[i] else pots[i]
      invariant done + TakeRake(pots[k..], remaining) == TakeRake(pots, rake)
    {
      var taken := Min(r[k].amount, remaining);
      ghost var cut := pots[k].(amount := pots[k].amount - taken);
      PassTaken(done, pots, k, remaining);
      r := r[k := r[k].(amount := r[k].amount - taken)];
      remaining := remaining - taken;
      done := done + [cut];
      k := k + 1;
    }
    TakeRakeDone(pots, k, remaining);
    assert r == done + pots[k..];
  }

  /** The eligible seats whose strength is `best`, in order. */
  function WithStrength(eligible: seq<nat>, strengths: seq<Strength>, best: Strength): seq<nat>
    requires forall i :: i in eligible ==> i < |strengths|
  {
    if eligible == [] then []
    else
      var front, last := eligible[..|eligible| - 1], eligible[|eligible| - 1];
      assert last in eligible;
      assert forall i :: i in front ==> i in eligible;
      WithStrength(front, strengths, best) + if strengths[last] == best then [last] else []
  }

  lemma {:induction false} WithStrengthSelects(live: seq<bool>, winners: seq<bool>, strengths: seq<Strength>,
                                               best: Strength)
    requires |live| == |winners| <= |strengths|
    requires forall i :: 0 <= i < |live| ==> (winners[i] <==> live[i] && strengths[i] == best)
    ensures WithStrength(Select(live), strengths, best) == Select(winners)
  {
    if live != [] {
      var last := |live| - 1;
      WithStrengthSelects(live[..last], winners[..last], strengths, best);
      if live[last] {
        assert Select(live)[..|Select(live)| - 1] == Select(live[..last]);
      }
    }
  }

  /** Finds the best strength among the eligible seats. */
  method BestStrength(eligible: seq<nat>, strengths: seq<Strength>) returns (best: Strength)
    requires eligible != [] && forall i :: i in eligible ==> i < |strengths|
    ensures exists e :: e in eligible && strengths[e] == best
    ensures forall e :: e in eligible ==> strengths[e] <= best
  {
    assert eligible[0] in eligible;
    best := strengths[eligible[0]];
    for index := 1 to |eligible|
      invariant exists e :: e in eligible && strengths[e] == best
      invariant forall m :: 0 <= m < index ==> eligible[m] in eligible && strengths[eligible[m]] <= best
    {
      assert eligible[index] in eligible;
      if best < strengths[eligible[index]] {
        best := strengths[eligible[index]];
      }
    }
  }

  /** Writes the eligible seats of the best strength into the scratch buffer. */
  method CollectWinners(eligible: seq<nat>, strengths: seq<Strength>, best: Strength, buffer: array<nat>)
    returns (count: nat)
    requires |eligible| <= buffer.Length && forall i :: i in eligible ==> i < |strengths|
    modifies buffer
    ensures count <= |eligible| && buffer[..count] == WithStrength(eligible, strengths, best)
  {
    count := 0;
    for index := 0 to |eligible|
      invariant count <= index
      invariant forall i :: i in eligible[..index] ==> i < |strengths|
      invariant buffer[..count] == WithStrength(eligible[..index], strengths, best)
    {
      var player := eligible[index];
      assert player in eligible;
      assert eligible[..index + 1][..index] == eligible[..index];
      ghost var prefix := eligible[..index + 1];
      forall i | i in prefix ensures i < |strengths| { assert i in eligible; }
      if strengths[player] == best {
        buffer[count] := player;
        count := count + 1;
        assert buffer[..count] == buffer[..count - 1] + [player];
      }
    }
    assert eligible[..|eligible|] == eligible;
  }

  /** The winner test of the payout loop. */
  method IsWinner(buffer: array<nat>, count: nat, player: nat) returns (winner: bool)
    requires count <= buffer.Length
    ensures winner <==> player in buffer[..count]
  {
    winner := false;
    for index := 0 to count
      invariant winner <==> player in buffer[..index]
    {
      assert buffer[..index + 1] == buffer[..index] + [buffer[index]];
      winner := winner || buffer[index] == player;
    }
  }

  lemma BestMakesWinners(input: TerminalInput, pot: SidePot, best: Strength)
    requires input.Valid() && PotOk(input.contributions, input.folded, pot)
    requires exists e :: e in pot.eligible && input.strengths[e] == best
    requires forall e :: e in pot.eligible ==> input.strengths[e] <= best
    ensures WithStrength(pot.eligible, input.strengths, best) == Select(PotWinners(input, pot))
  {
    hide Count, Select;
    WithStrengthSelects(Eligible(input.contributions, input.folded, pot.cap), PotWinners(input, pot),
                        input.strengths, best);
  }

  lemma NothingToDeal(base: seq<int>, winners: seq<bool>, start: nat, d: nat)
    requires |base| == |winners| && start < |winners| && d <= |winners| && Count(winners) > 0
    ensures DealOut(base, 0, winners, start, d) == base
  {
    hide Count;
    var w := Count(winners);
    DivModUnique(0, w, 0, 0);
    if d > 0 {
      NothingToDeal(base, winners, start, d - 1);
    }
  }

  /** Pays one pot: even shares, then the odd chips clockwise from the first seat. */
  method PayPot(input: TerminalInput, pot: SidePot, payouts: seq<int>, scratch: TerminalScratch) returns (r: seq<int>)
    requires input.Valid() && PotOk(input.contributions, input.folded, pot.(amount := 1)) && pot.amount >= 0
    requires |payouts| == |input.contributions| <= scratch.winners.Length
    modifies scratch.winners
    ensures r == DealOut(payouts, pot.amount, PotWinners(input, pot), input.oddChipFirstSeat, |input.contributions|)
  {
    hide Select, Count, Winners, DealOut, WithStrength;
    var best := BestStrength(pot.eligible, input.strengths);
    BestMakesWinners(input, pot.(amount := 1), best);
    var count := CollectWinners(pot.eligible, input.strengths, best, scratch.winners);
    r := Deal(payouts, pot.amount, scratch.winners, count, input.oddChipFirstSeat, PotWinners(input, pot));
  }

  /** The payout loop of one pot, over the winners listed in the buffer. */
  method Deal(payouts: seq<int>, amount: int, buffer: array<nat>, count: nat, start: nat, ghost winners: seq<bool>)
    returns (r: seq<int>)
    requires |payouts| == |winners| && start < |winners| && Count(winners) > 0
    requires count <= buffer.Length && buffer[..count] == Select(winners)
    ensures r == DealOut(payouts, amount, winners, start, |winners|)
  {
    hide Select, Count, Award, RingCount;
    var n := |payouts|;
    var share, remainder := amount / count, amount % count;
    r := payouts;
    for offset := 0 to n
      invariant r == DealOut(payouts, amount, winners, start, offset)
      invariant remainder == Odd(amount % count, RingCount(winners, start, offset))
    {
      RingWrap(start + offset, n);
      var player := (start + offset) % n;
      AwardOnTurn(amount, winners, start, offset);
      var winner := IsWinner(buffer, count, player);
      if !winner {
        assert r[player := r[player] + 0] == r;
        continue;
      }
      r := r[player := r[player] + share];
      if remainder > 0 {
        r := r[player := r[player] + 1];
        remainder := remainder - 1;
      }
    }
  }

  /** Odd chips still undealt after `served` winners. */
  function Odd(odd: int, served: nat): int {
    if odd > served then odd - served else 0
  }

  /** The award of the seat whose turn it is, and how the served winners grow. */
  lemma AwardOnTurn(amount: int, winners: seq<bool>, start: nat, offset: nat)
    requires start < |winners| && offset < |winners| && Count(winners) > 0
    ensures var seat := RingSeat(start, offset, |winners|);
            && Award(amount, winners, start, seat)
               == (if !winners[seat] then 0
                   else amount / Count(winners)
                        + if RingCount(winners, start, offset) < amount % Count(winners) then 1 else 0)
            && RingCount(winners, start, offset + 1)
               == RingCount(winners, start, offset) + if winners[seat] then 1 else 0
  {
    hide Count;
  }

  // ---------------------------------------------------------------- the whole settlement

  method CheckInput(input: TerminalInput) returns (valid: bool)
    ensures valid <==> input.Valid()
  {
    var n := |input.contributions|;
    if !(2 <= n <= MAX_SEATS) || |input.folded| != n || |input.strengths| != n
       || !(0 <= input.oddChipFirstSeat < n) {
      return false;
    }
    var hasLive, total := false, 0;
    for seat := 0 to n
      invariant forall i :: 0 <= i < seat ==> input.contributions[i] >= 0
      invariant total == Sum(input.contributions[..seat])
      invariant hasLive <==> exists i :: 0 <= i < seat && !input.folded[i]
    {
      if input.contributions[seat] < 0 {
        return false;
      }
      assert input.contributions[..seat + 1][..seat] == input.contributions[..seat];
      total := total + input.contributions[seat];
      hasLive := hasLive || !input.folded[seat];
    }
    assert input.contributions[..n] == input.contributions;
    return hasLive && total <= INT_MAX && input.rake.Valid();
  }

  /** settle_multiway_terminal_fixed: fills `result`, or reports why the hand cannot be settled. */
  method SettleFixed(input: TerminalInput, scratch: TerminalScratch, result: TerminalResult)
    returns (error: Option<SettleError>)
    requires scratch.levels.Length == MAX_SEATS == scratch.winners.Length
    modifies scratch`levelCount, scratch.levels, scratch.winners, result
    ensures error.None? <==> Settle(input).Success?
    ensures error.None? ==> Success(result.Value()) == Settle(input)
    ensures error.Some? ==> Settle(input) == Failure(error.value)
  {
    hide TakeRake, PayPots, LayoutUpTo, LevelsOf, DealOut;
    var valid := CheckInput(input);
    if !valid {
      return Some(InvalidInput);
    }
    var n := |input.contributions|;
    result.pots, result.refunds, result.payouts := [], Zeros(n), Zeros(n);
    CollectLevels(input.contributions, scratch);
    var ok := BuildLayers(input.contributions, input.folded, scratch.levels[..scratch.levelCount], result);
    if !ok {
      return Some(InvalidSidePot);
    }
    ghost var layout := Layout(result.pots, result.refunds);
    assert PotLayout(input.contributions, input.folded) == Some(layout);
    LayoutIsPlayable(input, layout);
    PotLayoutConserves(input.contributions, input.folded);
    var contested := ContestedTotal(result.pots);
    result.rakeTaken := input.rake.RakeFor(contested, input.flopSeen);
    result.pots := RemoveRake(result.pots, result.rakeTaken);
    PayAll(input, layout, scratch, result);
    result.utilities := NetResults(result.payouts, result.refunds, input.contributions);
    return None;
  }

  method ContestedTotal(pots: seq<SidePot>) returns (total: int)
    ensures total == PotSum(pots)
  {
    total := 0;
    for k := 0 to |pots|
      invariant total == PotSum(pots[..k])
    {
      assert pots[..k + 1][..k] == pots[..k];
      total := total + pots[k].amount;
    }
    assert pots[..|pots|] == pots;
  }

  method NetResults(payouts: seq<int>, refunds: seq<int>, contributions: seq<int>) returns (u: seq<int>)
    requires |payouts| == |refunds| == |contributions|
    ensures u == Utilities(payouts, refunds, contributions)
  {
    u := [];
    for seat := 0 to |payouts|
      invariant |u| == seat
      invariant forall i :: 0 <= i < seat ==> u[i] == payouts[i] + refunds[i] - contributions[i]
    {
      u := u + [payouts[seat] + refunds[seat] - contributions[seat]];
    }
  }

  /** The payout loop over the raked pots. */
  method PayAll(input: TerminalInput, ghost layout: Layout, scratch: TerminalScratch, result: TerminalResult)
    requires input.Valid() && LayoutOk(input.contributions, input.folded, layout)
    requires Playable(input, result.pots) && Reduces(result.pots, layout.pots)
    requires result.payouts == Zeros(|input.contributions|) && scratch.winners.Length == MAX_SEATS
    modifies scratch.winners, result`payouts
    ensures result.payouts == PayPots(input, result.pots)
  {
    hide DealOut, PotWinners, Eligible, Select;
    var pots := result.pots;
    for k := 0 to |pots|
      invariant Playable(input, pots[..k]) && result.payouts == PayPots(input, pots[..k])
    {
      assert pots[..k + 1][..k] == pots[..k];
      assert PotOk(input.contributions, input.folded, layout.pots[k]);
      assert pots[k] == layout.pots[k].(amount := pots[k].amount);
      if pots[k].amount == 0 {
        NothingToDeal(result.payouts, PotWinners(input, pots[k]), input.oddChipFirstSeat, |input.contributions|);
        continue;
      }
      result.payouts := PayPot(input, pots[k], result.payouts, scratch);
    }
    assert pots[..|pots|] == pots;
  }

  // ---------------------------------------------------------------- the vector layout

  datatype LayoutError = BadLayoutInput | NoEligiblePlayer | LayoutMismatch

  predicate LayoutInputValid(c: seq<int>, folded: seq<bool>) {
    && 2 <= |c| <= MAX_SEATS && |folded| == |c| && NonNegative(c)
    && (exists i :: 0 <= i < |folded| && !folded[i]) && Sum(c) <= INT_MAX
  }

  /** What std::sort, std::unique and erase leave: the distinct contributions in increasing order. */
  method SortUnique(c: seq<int>) returns (levels: seq<int>)
    ensures StrictlyIncreasing(levels) && forall x :: x in levels <==> x in c
  {
    levels := [];
    for k := 0 to |c|
      invariant StrictlyIncreasing(levels) && forall x :: x in levels <==> x in c[..k]
    {
      assert c[..k + 1] == c[..k] + [c[k]];
      InsertLevelMembers(levels, c[k]);
      InsertLevelIncreases(levels, c[k]);
      levels := InsertLevel(levels, c[k]);
    }
    assert c[..|c|] == c;
  }

  lemma WithoutZero(levels: seq<int>, c: seq<int>)
    requires NonNegative(c) && StrictlyIncreasing(levels) && forall x :: x in levels <==> x in c
    ensures levels == LevelsOf(c) || (levels != [] && levels[0] == 0 && levels[1..] == LevelsOf(c))
  {
    assert forall i :: 0 <= i < |levels| ==> levels[i] in levels;
    if levels != [] && levels[0] == 0 {
      assert forall x :: x in levels <==> x == 0 || x in levels[1..];
      LevelsAreUnique(levels[1..], c);
    } else {
      assert forall x :: x in levels ==> x > 0;
      LevelsAreUnique(levels, c);
    }
  }

  lemma ZeroIsFirst(levels: seq<int>, positive: seq<int>, k: nat)
    requires k < |levels| && levels[k] == 0 && forall i :: 0 <= i < |positive| ==> positive[i] > 0
    requires levels == positive || (levels[0] == 0 && levels[1..] == positive)
    ensures k == 0 && levels != positive
  {
    var rest := levels[1..];
    assert forall j :: 0 <= j < |rest| ==> rest[j] == levels[j + 1];
  }

  lemma LayoutEnds(c: seq<int>, folded: seq<bool>)
    requires NonNegative(c) && |folded| == |c|
    ensures LayoutUpTo(c, folded, LevelsOf(c), 0) == Some(Layout([], Zeros(|c|)))
    ensures LayoutUpTo(c, folded, LevelsOf(c), |LevelsOf(c)|) == PotLayout(c, folded)
  {
  }

  lemma LayoutStep(c: seq<int>, folded: seq<bool>, levels: seq<int>, k: nat, below: Layout)
    requires |folded| == |c| && k < |levels| && LayoutUpTo(c, folded, levels, k) == Some(below)
    ensures LayoutUpTo(c, folded, levels, k + 1) == AddLayer(c, folded, levels, k, below)
  {
    hide AddLayer;
  }

  /** build_multiway_pot_layout: the second copy of the layering, over growing vectors. */
  method BuildPotLayout(c: seq<int>, folded: seq<bool>) returns (r: Result<Layout, LayoutError>)
    ensures r == Failure(BadLayoutInput) <==> !LayoutInputValid(c, folded)
    ensures LayoutInputValid(c, folded) ==>
              r == match PotLayout(c, folded)
                   case Some(layout) => Success(layout)
                   case None => Failure(NoEligiblePlayer)
  {
    hide AddLayer, Select, AtLeast, Eligible, Count, LevelsOf, PotLayout, LayoutUpTo, Zeros;
    if !LayoutInputValid(c, folded) {
      return Failure(BadLayoutInput);
    }
    var layout := Layout([], Zeros(|c|));
    var levels := SortUnique(c);
    WithoutZero(levels, c);
    ghost var positive := LevelsOf(c);
    LayoutEnds(c, folded);
    ghost var skipped := if levels == positive then 0 else 1;
    var previousLevel := 0;
    for k := 0 to |levels|
      invariant previousLevel == if k < skipped then 0 else Prev(positive, k - skipped)
      invariant LayoutUpTo(c, folded, positive, if k < skipped then 0 else k - skipped) == Some(layout)
    {
      var level := levels[k];
      if level == 0 {
        assert forall i :: 0 <= i < |positive| ==> positive[i] in positive;
        ZeroIsFirst(levels, positive, k);
        continue;
      }
      assert positive[k - skipped] == level;
      var contributors, eligible := ScanLayerVectors(c, folded, level);
      var layerAmount := (level - previousLevel) * |contributors|;
      previousLevel := level;
      PlacedLayer(c, folded, positive, k - skipped, layout);
      LayoutStep(c, folded, positive, k - skipped, layout);
      LayerAmount(c, positive, k - skipped);
      TimesIsProduct(level - Prev(positive, k - skipped), |contributors|);
      var placed := PlaceVectorLayer(layout, level, layerAmount, contributors, eligible);
      if placed.None? {
        LayoutFailureStays(c, folded, positive, k - skipped + 1);
        return Failure(NoEligiblePlayer);
      }
      layout := placed.value;
    }
    return Success(layout);
  }

  /** One layer: refunded to its only contributor, or a pot for the live ones. */
  method PlaceVectorLayer(layout: Layout, level: int, amount: int, contributors: seq<nat>, eligible: seq<nat>)
    returns (r: Option<Layout>)
    requires forall i :: i in contributors ==> i < |layout.refunds|
    requires contributors != []
    ensures r == Place(layout, level, amount, contributors, eligible)
  {
    if |contributors| == 1 {
      var seat := contributors[0];
      assert seat in contributors;
      return Some(layout.(refunds := layout.refunds[seat := layout.refunds[seat] + amount]));
    }
    if |eligible| == 0 {
      return None;
    }
    return Some(layout.(pots := layout.pots + [SidePot(amount, level, eligible)]));
  }

  method ScanLayerVectors(c: seq<int>, folded: seq<bool>, level: int)
    returns (contributors: seq<nat>, eligible: seq<nat>)
    requires |folded| == |c|
    ensures contributors == Select(AtLeast(c, level))
    ensures eligible == Select(Eligible(c, folded, level))
  {
    contributors, eligible := [], [];
    ghost var reached, live := AtLeast(c, level), Eligible(c, folded, level);
    for seat := 0 to |c|
      invariant contributors == Select(reached[..seat]) && eligible == Select(live[..seat])
    {
      assert reached[..seat + 1][..seat] == reached[..seat] && live[..seat + 1][..seat] == live[..seat];
      if c[seat] >= level {
        contributors := contributors + [seat];
        if !folded[seat] {
          eligible := eligible + [seat];
        }
      }
    }
    assert reached[..|c|] == reached && live[..|c|] == live;
  }

  /**
   settle_multiway_terminal with a supplied layout: it settles exactly when the layout is the one the
   hand implies; the sign, pot, eligibility and conservation checks made after the match never fire.
   */
  method SettleWithLayout(input: TerminalInput, layout: Layout) returns (r: Result<Settlement, LayoutError>)
    ensures r.Success? <==> input.Valid() && PotLayout(input.contributions, input.folded) == Some(layout)
    ensures r.Success? ==> Settle(input) == Success(r.value)
  {
    hide PotLayout, TakeRake, PayPots;
    if !input.Valid() {
      return Failure(BadLayoutInput);
    }
    var n := |input.contributions|;
    if |layout.refunds| != n {
      return Failure(LayoutMismatch);
    }
    var built := BuildPotLayout(input.contributions, input.folded);
    if built.Failure? {
      return Failure(NoEligiblePlayer);
    }
    var expected := built.value;
    if layout.refunds != expected.refunds || |layout.pots| != |expected.pots| {
      return Failure(LayoutMismatch);
    }
    for p := 0 to |layout.pots|
      invariant layout.pots[..p] == expected.pots[..p]
    {
      if layout.pots[p].amount != expected.pots[p].amount || layout.pots[p].cap != expected.pots[p].cap
         || layout.pots[p].eligible != expected.pots[p].eligible {
        return Failure(LayoutMismatch);
      }
      assert layout.pots[p] == expected.pots[p];
    }
    assert layout.pots == expected.pots;
    PotLayoutConserves(input.contributions, input.folded);
    CheckMatchedLayout(input, layout);
    var scratch := new TerminalScratch();
    var result := new TerminalResult();
    var error := SettleFixed(input, scratch, result);
    return Success(Settlement(result.pots, result.refunds, result.payouts, result.utilities, result.rakeTaken));
  }

  /** The checks after a match, each with its refusal shown to be out of reach. */
  method CheckMatchedLayout(input: TerminalInput, layout: Layout)
    requires input.Valid() && LayoutOk(input.contributions, input.folded, layout)
    requires Held(layout) == Sum(input.contributions)
  {
    hide Select, Count;
    var total := 0;
    for seat := 0 to |layout.refunds|
      invariant total == Sum(layout.refunds[..seat])
    {
      if layout.refunds[seat] < 0 {
        assert false;
      }
      assert layout.refunds[..seat + 1][..seat] == layout.refunds[..seat];
      total := total + layout.refunds[seat];
    }
    assert layout.refunds[..|layout.refunds|] == layout.refunds;
    for p := 0 to |layout.pots|
      invariant total == Sum(layout.refunds) + PotSum(layout.pots[..p])
    {
      var pot := layout.pots[p];
      assert PotOk(input.contributions, input.folded, pot);
      if pot.amount <= 0 || pot.eligible == [] {
        assert false;
      }
      assert layout.pots[..p + 1][..p] == layout.pots[..p];
      total := total + pot.amount;
      for k := 0 to |pot.eligible| {
        var player := pot.eligible[k];
        assert player in pot.eligible;
        if player >= |input.contributions| || input.folded[player] {
          assert false;
        }
      }
    }
    assert layout.pots[..|layout.pots|] == layout.pots;
    if total != Sum(input.contributions) {
      assert false;
    }
  }
}
