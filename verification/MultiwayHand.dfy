/**
 Betting and settlement joined: what the betting machine keeps is what makes settlement total.
 */
module MultiwayHand {
  import opened Wrappers
  import opened CommonTypes
  import opened SeqFolds
  import B = MultiwayBetting
  import I = MultiwayInvariant
  import P = MultiwayProgress
  import S = MultiwaySnapshot
  import opened MultiwayPots
  import opened MultiwaySettlement

  function Totals(seats: seq<B.Seat>): (c: seq<int>)
    ensures |c| == |seats| && forall i :: 0 <= i < |c| ==> c[i] == seats[i].total
  {
    seq(|seats|, i requires 0 <= i < |seats| => seats[i].total)
  }

  function FoldFlags(seats: seq<B.Seat>): (f: seq<bool>)
    ensures |f| == |seats| && forall i :: 0 <= i < |f| ==> f[i] == seats[i].folded
  {
    seq(|seats|, i requires 0 <= i < |seats| => seats[i].folded)
  }

  /** The settlement input of a table, for any strengths, odd-chip seat and rake policy. */
  function HandInput(t: B.Table, strengths: seq<Strength>, odd: int, rake: RakePolicy, flopSeen: bool): TerminalInput {
    TerminalInput(Totals(t.seats), FoldFlags(t.seats), strengths, odd, rake, flopSeen)
  }

  lemma {:induction false} TotalsSum(seats: seq<B.Seat>)
    ensures Sum(Totals(seats)) == S.SumTotals(seats)
    ensures Sum(Totals(seats)) + P.Behind(seats) == S.SumChips(seats)
  {
    if seats != [] {
      TotalsSum(seats[..|seats| - 1]);
      assert Totals(seats)[..|seats| - 1] == Totals(seats[..|seats| - 1]);
    }
  }

  /** A live seat has put in at least as much as anyone, so no layer is left to folded seats alone. */
  lemma LiveSeatHoldsLargestTotal(t: B.Table, level: int) returns (h: nat)
    requires I.Inv(t, level)
    ensures h < |t.seats| && !t.seats[h].folded
    ensures forall i :: 0 <= i < |t.seats| ==> 0 <= t.seats[i].total <= t.seats[h].total
    ensures !DeadLayer(Totals(t.seats), FoldFlags(t.seats))
  {
    h :| 0 <= h < |t.seats| && I.Holds(t, t.seats[h], level);
    forall i | 0 <= i < |t.seats| ensures 0 <= t.seats[i].total <= t.seats[h].total {
      assert I.SeatInv(t, t.seats[i], level);
    }
    assert !FoldFlags(t.seats)[h];
  }

  /**
   However a hand is played from a root whose seats had put in equally before, some live seat always
   has the largest total contribution, so every contested layer has a live winner and settling the table
   reached is refused exactly when the contributions do not fit an int; chips left behind, payouts, refunds
   and rake add up to the chips dealt.  Where the chips dealt fit an int, settling never refuses.
   */
  lemma RunsAlwaysSettle(config: B.GameConfig, level: int, events: seq<B.Event>,
                         strengths: seq<Strength>, odd: int, rake: RakePolicy, flopSeen: bool)
    requires config.Valid() && I.LevelConfig(config, level)
    requires B.Root(config).Success? && B.Run(B.Root(config).value, events).Success?
    requires |strengths| == |config.startingStacks| && 0 <= odd < |config.startingStacks| && rake.Valid()
    ensures var root, t := B.Root(config).value, B.Run(B.Root(config).value, events).value;
            var settled := Settle(HandInput(t, strengths, odd, rake, flopSeen));
            && (exists h :: 0 <= h < |t.seats| && !t.seats[h].folded
                            && forall i :: 0 <= i < |t.seats| ==> t.seats[i].total <= t.seats[h].total)
            && (settled.Success? <==> Sum(Totals(t.seats)) <= INT_MAX)
            && (S.SumChips(root.seats) <= INT_MAX ==> settled.Success?)
            && (settled.Success? ==>
                  P.Behind(t.seats) + Sum(settled.value.payouts) + Sum(settled.value.refunds) + settled.value.rakeTaken
                  == S.SumChips(root.seats))
  {
    hide B.Root, B.Run, Settle, DeadLayer, I.Inv;
    I.RootKeeps(config, level);
    var root := B.Root(config).value;
    var last := I.RunKeeps(root, events, level);
    P.RunKeepsChips(root, events);
    RootShape(config);
    SettleReached(root, B.Run(root, events).value, last, strengths, odd, rake, flopSeen);
  }

  lemma RootShape(config: B.GameConfig)
    requires config.Valid()
    ensures B.Root(config).Success? && |B.Root(config).value.seats| == |config.startingStacks|
  {
  }

  lemma SettleReached(root: B.Table, t: B.Table, level: int, strengths: seq<Strength>, odd: int, rake: RakePolicy,
                      flopSeen: bool)
    requires I.Inv(t, level) && P.SameChips(root, t)
    requires |strengths| == |root.seats| && 0 <= odd < |root.seats| && rake.Valid()
    ensures exists h :: 0 <= h < |t.seats| && !t.seats[h].folded
                        && forall i :: 0 <= i < |t.seats| ==> t.seats[i].total <= t.seats[h].total
    ensures var settled := Settle(HandInput(t, strengths, odd, rake, flopSeen));
            && (settled.Success? <==> Sum(Totals(t.seats)) <= INT_MAX)
            && (S.SumChips(root.seats) <= INT_MAX ==> settled.Success?)
            && (settled.Success? ==>
                  P.Behind(t.seats) + Sum(settled.value.payouts) + Sum(settled.value.refunds) + settled.value.rakeTaken
                  == S.SumChips(root.seats))
  {
    hide DeadLayer;
    var h := LiveSeatHoldsLargestTotal(t, level);
    S.SumChipsFixed(root.seats, t.seats);
    TotalsSum(t.seats);
    var input := HandInput(t, strengths, odd, rake, flopSeen);
    forall i | 0 <= i < |t.seats| ensures t.seats[i].stack >= 0 { assert I.SeatInv(t, t.seats[i], level); }
    P.BehindNonNegative(t.seats);
    assert !input.folded[h];
    assert input.Valid() <==> Sum(Totals(t.seats)) <= INT_MAX;
    InvalidIsRefused(input);
    hide Settle;
    if input.Valid() {
      SettlementRefusedExactly(input);
      SettlementConserves(input);
    }
  }

  lemma InvalidIsRefused(input: TerminalInput)
    ensures !input.Valid() ==> Settle(input) == Failure(InvalidInput)
  {
  }
}
