/**
 The sequential sampler over exact reals: each seat draws from what earlier seats left of its range, takes
 the entry whose cumulative interval holds the draw, and records the product of the conditional probabilities.
 */
module PrivateSampler {
  import opened Wrappers
  import opened Poker
  import opened PrivateRanges
  import opened PrivateSearch

  // ---------------------------------------------------------------- one seat

  /** Compatible weight of the first `k` entries. */
  function Cum(range: Range, blocked: set<nat>, k: nat): (c: real)
    requires k <= |range| && ValidRange(range)
    ensures c >= 0.0
  {
    if k == 0 then 0.0
    else
      var e := range[k - 1];
      Cum(range, blocked, k - 1) + (if e.first !in blocked && e.second !in blocked then e.weight else 0.0)
  }

  function Mass(range: Range, blocked: set<nat>): (c: real)
    requires ValidRange(range)
    ensures c >= 0.0
  {
    Cum(range, blocked, |range|)
  }

  /** Real multiplication under a name, so that proofs can leave it alone. */
  function Product(a: real, b: real): real {
    a * b
  }

  /** The draw, a fraction of the compatible mass, lies in the interval of entry `k`. */
  predicate Picks(range: Range, blocked: set<nat>, draw: real, k: nat)
    requires ValidRange(range)
  {
    && k < |range| && Fits(range[k], blocked)
    && Cum(range, blocked, k) <= Product(draw, Mass(range, blocked)) < Cum(range, blocked, k + 1)
  }

  lemma {:induction false} CumGrows(range: Range, blocked: set<nat>, i: nat, j: nat)
    requires ValidRange(range) && i <= j <= |range|
    ensures Cum(range, blocked, i) <= Cum(range, blocked, j)
    decreases j - i
  {
    if i < j {
      CumGrows(range, blocked, i, j - 1);
    }
  }

  /** Each compatible entry owns an interval as long as its weight, and no draw lies in two of them. */
  lemma IntervalsAreWeights(range: Range, blocked: set<nat>, draw: real, i: nat, j: nat)
    requires ValidRange(range) && Picks(range, blocked, draw, i)
    ensures Cum(range, blocked, i + 1) - Cum(range, blocked, i) == range[i].weight
    ensures Picks(range, blocked, draw, j) ==> i == j
  {
    if Picks(range, blocked, draw, j) {
      if i < j {
        CumGrows(range, blocked, i + 1, j);
      }
      if j < i {
        CumGrows(range, blocked, j + 1, i);
      }
    }
  }

  lemma {:induction false} EntryHolding(range: Range, blocked: set<nat>, point: real, n: nat) returns (k: nat)
    requires ValidRange(range) && n <= |range| && 0.0 <= point < Cum(range, blocked, n)
    ensures k < n && Fits(range[k], blocked)
    ensures Cum(range, blocked, k) <= point < Cum(range, blocked, k) + range[k].weight
  {
    if point < Cum(range, blocked, n - 1) {
      k := EntryHolding(range, blocked, point, n - 1);
    } else {
      k := n - 1;
    }
  }

  /** Where there is mass, every draw from zero up to one picks an entry, and only one. */
  lemma EveryDrawPicks(range: Range, blocked: set<nat>, draw: real) returns (k: nat)
    requires ValidRange(range) && Mass(range, blocked) > 0.0 && 0.0 <= draw < 1.0
    ensures k < |range| && Fits(range[k], blocked)
    ensures Cum(range, blocked, k) <= Product(draw, Mass(range, blocked)) < Cum(range, blocked, k) + range[k].weight
    ensures forall j :: Picks(range, blocked, draw, j) <==> j == k
  {
    BelowMass(draw, Mass(range, blocked));
    k := EntryHolding(range, blocked, Product(draw, Mass(range, blocked)), |range|);
    assert Picks(range, blocked, draw, k);
    hide Picks, Cum, Mass, Product;
    forall j ensures Picks(range, blocked, draw, j) <==> j == k {
      IntervalsAreWeights(range, blocked, draw, k, j);
    }
  }

  lemma {:induction false} NoMassNoHand(range: Range, blocked: set<nat>, k: nat)
    requires ValidRange(range) && k < |range|
    ensures Fits(range[k], blocked) ==> Mass(range, blocked) > 0.0
  {
    CumGrows(range, blocked, k + 1, |range|);
  }

  /** sample_compatible: the first compatible entry whose cumulative weight exceeds the draw. */
  method SampleCompatible(range: Range, used: array<bool>, mass: real, draw: real) returns (selected: nat)
    requires used.Length == CARD_SLOTS && ValidRange(range) && 0.0 <= draw < 1.0
    requires mass == Mass(range, Blocked(used[..])) > 0.0
    ensures Picks(range, Blocked(used[..]), draw, selected)
  {
    hide Product, Cum, Mass, Blocked, Fits;
    BelowMass(draw, mass);
    selected := EntryAt(range, used, Product(draw, mass));
  }

  /** The loop of sample_compatible, from the scaled draw on. */
  method EntryAt(range: Range, used: array<bool>, point: real) returns (selected: nat)
    requires used.Length == CARD_SLOTS && ValidRange(range)
    requires 0.0 <= point < Mass(range, Blocked(used[..]))
    ensures selected < |range| && Fits(range[selected], Blocked(used[..]))
    ensures Cum(range, Blocked(used[..]), selected) <= point < Cum(range, Blocked(used[..]), selected + 1)
  {
    ghost var blocked := Blocked(used[..]);
    var cumulative := 0.0;
    selected := |range|;
    for index := 0 to |range|
      invariant cumulative == Cum(range, blocked, index) <= point
    {
      var entry := range[index];
      TakesFits(entry, used);
      if !Takes(entry, used) {
        continue;
      }
      selected := index;
      cumulative := cumulative + entry.weight;
      if point < cumulative {
        return;
      }
    }
    assert false;
  }

  lemma BelowMass(draw: real, mass: real)
    requires 0.0 <= draw < 1.0 && mass > 0.0
    ensures 0.0 <= Product(draw, mass) < mass
  {
    assert (1.0 - draw) * mass > 0.0;
  }

  // ---------------------------------------------------------------- a whole draw

  /** Indices chosen for the first seats. */
  predicate Prefix(ranges: seq<Range>, choice: seq<nat>) {
    |choice| <= |ranges| && forall i :: 0 <= i < |choice| ==> choice[i] < |ranges[i]|
  }

  function Share(range: Range, blocked: set<nat>, k: nat): real
    requires ValidRange(range) && k < |range|
  {
    if Mass(range, blocked) > 0.0 then range[k].weight / Mass(range, blocked) else 0.0
  }

  /** The product of conditional proposal probabilities along a choice. */
  function Reach(ranges: seq<Range>, blocked: set<nat>, choice: seq<nat>): real
    requires ValidRanges(ranges) && Prefix(ranges, choice)
    decreases |choice|
  {
    if choice == [] then 1.0
    else
      Product(Share(ranges[0], blocked, choice[0]),
              Reach(ranges[1..], blocked + CardsOf(ranges[0][choice[0]]), choice[1..]))
  }

  function BlockedAfter(ranges: seq<Range>, blocked: set<nat>, choice: seq<nat>): set<nat>
    requires Prefix(ranges, choice)
    decreases |choice|
  {
    if choice == [] then blocked
    else BlockedAfter(ranges[1..], blocked + CardsOf(ranges[0][choice[0]]), choice[1..])
  }

  lemma ProductAssociates(a: real, b: real, c: real)
    ensures Product(a, Product(b, c)) == Product(Product(a, b), c)
    ensures Product(a, 1.0) == a && Product(1.0, a) == a
  {
  }

  lemma {:induction false} ReachSnoc(ranges: seq<Range>, blocked: set<nat>, choice: seq<nat>, k: nat)
    requires ValidRanges(ranges) && Prefix(ranges, choice) && |choice| < |ranges| && k < |ranges[|choice|]|
    ensures Prefix(ranges, choice + [k])
    ensures var after := BlockedAfter(ranges, blocked, choice);
            && BlockedAfter(ranges, blocked, choice + [k]) == after + CardsOf(ranges[|choice|][k])
            && Reach(ranges, blocked, choice + [k])
               == Product(Reach(ranges, blocked, choice), Share(ranges[|choice|], after, k))
    decreases |choice|
  {
    hide Share, CardsOf, ValidRange, Product;
    if choice == [] {
      assert (choice + [k])[1..] == [];
      ProductAssociates(Share(ranges[0], blocked, k), 1.0, 1.0);
    } else {
      var first, rest := choice[0], choice[1..];
      var beyond := blocked + CardsOf(ranges[0][first]);
      assert (choice + [k])[0] == first && (choice + [k])[1..] == rest + [k];
      ReachSnoc(ranges[1..], beyond, rest, k);
      ProductAssociates(Share(ranges[0], blocked, first), Reach(ranges[1..], beyond, rest),
                        Share(ranges[|choice|], BlockedAfter(ranges, blocked, choice), k));
    }
  }

  /** Every seat took the entry its draw points at. */
  ghost predicate Follows(ranges: seq<Range>, blocked: set<nat>, draws: seq<real>, choice: seq<nat>)
    requires ValidRanges(ranges)
    decreases |choice|
  {
    if choice == [] then true
    else
      && |draws| > 0 && |ranges| > 0 && Picks(ranges[0], blocked, draws[0], choice[0])
      && Follows(ranges[1..], blocked + CardsOf(ranges[0][choice[0]]), draws[1..], choice[1..])
  }

  lemma {:induction false} FollowsSnoc(ranges: seq<Range>, blocked: set<nat>, draws: seq<real>, choice: seq<nat>,
                                       k: nat)
    requires ValidRanges(ranges) && Prefix(ranges, choice) && |choice| < |ranges| == |draws|
    requires Follows(ranges, blocked, draws, choice)
    requires Picks(ranges[|choice|], BlockedAfter(ranges, blocked, choice), draws[|choice|], k)
    ensures Follows(ranges, blocked, draws, choice + [k])
    decreases |choice|
  {
    hide Picks;
    if choice == [] {
      assert (choice + [k])[1..] == [];
    } else {
      assert (choice + [k])[1..] == choice[1..] + [k];
      FollowsSnoc(ranges[1..], blocked + CardsOf(ranges[0][choice[0]]), draws[1..], choice[1..], k);
    }
  }

  /** A complete followed choice is a deal: hands with weight, pairwise disjoint and off the board. */
  lemma {:induction false} FollowedIsDeal(ranges: seq<Range>, blocked: set<nat>, draws: seq<real>, choice: seq<nat>)
    requires ValidRanges(ranges) && Follows(ranges, blocked, draws, choice) && |choice| == |ranges|
    ensures IsDeal(ranges, blocked, choice)
    decreases |choice|
  {
    if choice != [] {
      FollowedIsDeal(ranges[1..], blocked + CardsOf(ranges[0][choice[0]]), draws[1..], choice[1..]);
      DealStep(ranges, blocked, choice[0], choice[1..]);
      assert choice == [choice[0]] + choice[1..];
    }
  }

  /** The draws leave no freedom: of two choices that follow them, one continues the other. */
  lemma {:induction false} DrawsDetermineChoice(ranges: seq<Range>, blocked: set<nat>, draws: seq<real>, a: seq<nat>,
                                                b: seq<nat>)
    requires ValidRanges(ranges) && Follows(ranges, blocked, draws, a) && Follows(ranges, blocked, draws, b)
             && |a| <= |b|
    ensures a <= b
    decreases |a|
  {
    if a != [] {
      IntervalsAreWeights(ranges[0], blocked, draws[0], a[0], b[0]);
      DrawsDetermineChoice(ranges[1..], blocked + CardsOf(ranges[0][a[0]]), draws[1..], a[1..], b[1..]);
      assert a == [a[0]] + a[1..] && b == [b[0]] + b[1..];
    }
  }

  // ---------------------------------------------------------------- the worker's scratch

  class Scratch {
    var holes: seq<(nat, nat)>
    const used: array<bool>
    var seatCount: nat
    var attempts: nat
    var chanceReach: real
    var conditionalDealProbability: real
    var proposalReach: real
    var inclusionReach: real
    var accepted: nat
    var rejected: nat
    var discarded: nat

    constructor ()
      ensures fresh(used) && used.Length == CARD_SLOTS
    {
      used := new bool[CARD_SLOTS](_ => false);
      holes, seatCount, attempts := [], 0, 0;
      chanceReach, conditionalDealProbability, proposalReach, inclusionReach := 0.0, 0.0, 0.0, 0.0;
      accepted, rejected, discarded := 0, 0, 0;
    }

    /** Marks the board and nothing else. */
    method FillUsed(board: seq<nat>)
      requires used.Length == CARD_SLOTS && AllValid(board)
      modifies used
      ensures Blocked(used[..]) == BoardCards(board)
    {
      for c := 0 to CARD_SLOTS
        invariant forall i :: 0 <= i < c ==> !used[i]
      {
        used[c] := false;
      }
      for i := 0 to |board|
        invariant forall c: nat :: c < CARD_SLOTS ==> (used[c] <==> c in board[..i])
      {
        assert board[..i + 1] == board[..i] + [board[i]];
        used[board[i]] := true;
      }
      assert board[..|board|] == board;
    }

    /** Sums the weights of the entries that share no card with the used ones. */
    method CompatibleMass(range: Range) returns (mass: real)
      requires used.Length == CARD_SLOTS && ValidRange(range)
      ensures mass == Mass(range, Blocked(used[..]))
    {
      mass := 0.0;
      for k := 0 to |range|
        invariant mass == Cum(range, Blocked(used[..]), k)
      {
        if !used[range[k].first] && !used[range[k].second] {
          mass := mass + range[k].weight;
        }
      }
    }

    /**
     try_sample_into: one sequential attempt, seat by seat.  Success records a deal and its reach; failure
     means that the next seat had no compatible weight left.
     */
    method TrySampleInto(board: seq<nat>, ranges: seq<Range>, draws: seq<real>)
      returns (ok: bool, ghost choice: seq<nat>)
      requires used.Length == CARD_SLOTS && AllValid(board) && ValidRanges(ranges)
      requires |draws| == |ranges| && forall i :: 0 <= i < |draws| ==> 0.0 <= draws[i] < 1.0
      modifies this, used
      ensures Prefix(ranges, choice) && Follows(ranges, BoardCards(board), draws, choice)
      ensures ok ==>
                && IsDeal(ranges, BoardCards(board), choice)
                && seatCount == |ranges| == |holes|
                && (forall i :: 0 <= i < |holes| ==>
                                  holes[i] == (ranges[i][choice[i]].first, ranges[i][choice[i]].second))
                && proposalReach == chanceReach == conditionalDealProbability
                   == Reach(ranges, BoardCards(board), choice)
                && (accepted, rejected, attempts) == (1, 0, 1)
      ensures !ok ==>
                && |choice| < |ranges| && Mass(ranges[|choice|], BlockedAfter(ranges, BoardCards(board), choice)) == 0.0
                && holes == [] && (accepted, rejected, attempts) == (0, 1, 1)
                && proposalReach == chanceReach == conditionalDealProbability == 0.0
      ensures inclusionReach == 1.0 && discarded == 0
    {
      hide *;
      seatCount, attempts, holes := 0, 0, [];
      chanceReach, conditionalDealProbability, proposalReach, inclusionReach := 0.0, 0.0, 0.0, 1.0;
      accepted, rejected, discarded := 0, 0, 0;
      attempts := 1;
      FillUsed(board);
      var reach: real;
      var hands: seq<(nat, nat)>;
      ok, hands, reach, choice := DrawSeats(ranges, draws, BoardCards(board));
      if !ok {
        holes, rejected := [], 1;
        return;
      }
      FollowedIsDeal(ranges, BoardCards(board), draws, choice);
      holes := hands;
      seatCount := |ranges|;
      chanceReach, conditionalDealProbability, proposalReach := reach, reach, reach;
      accepted := 1;
    }

    /** The loop of try_sample_into: one draw per seat until a seat has no compatible weight left. */
    method DrawSeats(ranges: seq<Range>, draws: seq<real>, ghost blocked: set<nat>)
      returns (ok: bool, hands: seq<(nat, nat)>, reach: real, ghost choice: seq<nat>)
      requires used.Length == CARD_SLOTS && ValidRanges(ranges) && Blocked(used[..]) == blocked
      requires |draws| == |ranges| && forall i :: 0 <= i < |draws| ==> 0.0 <= draws[i] < 1.0
      modifies used
      ensures Prefix(ranges, choice) && Follows(ranges, blocked, draws, choice) && |hands| == |choice|
      ensures forall i :: 0 <= i < |hands| ==> hands[i] == (ranges[i][choice[i]].first, ranges[i][choice[i]].second)
      ensures reach == Reach(ranges, blocked, choice)
      ensures ok ==> |choice| == |ranges|
      ensures !ok ==> |choice| < |ranges| && Mass(ranges[|choice|], BlockedAfter(ranges, blocked, choice)) == 0.0
    {
      hide Follows, Reach, BlockedAfter, Picks, Share, Mass, Blocked, Product, ValidRange, CardsOf;
      reach, choice, hands := 1.0, [], [];
      StartOfDraw(ranges, blocked, draws);
      for seat := 0 to |ranges|
        invariant |choice| == seat == |hands| && Prefix(ranges, choice)
        invariant Follows(ranges, blocked, draws, choice)
        invariant Blocked(used[..]) == BlockedAfter(ranges, blocked, choice) && reach == Reach(ranges, blocked, choice)
        invariant forall i :: 0 <= i < |hands| ==> hands[i] == (ranges[i][choice[i]].first, ranges[i][choice[i]].second)
      {
        var found, selected, share := DrawSeat(ranges[seat], draws[seat]);
        if !found {
          return false, hands, reach, choice;
        }
        ReachSnoc(ranges, blocked, choice, selected);
        FollowsSnoc(ranges, blocked, draws, choice, selected);
        reach := Product(reach, share);
        hands := hands + [(ranges[seat][selected].first, ranges[seat][selected].second)];
        choice := choice + [selected];
      }
      ok := true;
    }

    /** One seat's draw: its compatible mass, the selected entry, and the entry's cards marked. */
    method DrawSeat(range: Range, draw: real) returns (found: bool, selected: nat, share: real)
      requires used.Length == CARD_SLOTS && ValidRange(range) && 0.0 <= draw < 1.0
      modifies used
      ensures found <==> Mass(range, Blocked(old(used[..]))) != 0.0
      ensures found ==>
                && Picks(range, Blocked(old(used[..])), draw, selected)
                && selected < |range| && share == Share(range, Blocked(old(used[..])), selected)
                && Blocked(used[..]) == Blocked(old(used[..])) + CardsOf(range[selected])
    {
      hide Cum, Blocked, CardsOf;
      selected, share := 0, 0.0;
      var mass := CompatibleMass(range);
      if mass <= 0.0 {
        return false, selected, share;
      }
      selected := SampleCompatible(range, used, mass, draw);
      var entry := range[selected];
      share := entry.weight / mass;
      MarkedBlocked(used[..], entry);
      ghost var was := used[..];
      used[entry.first] := true;
      used[entry.second] := true;
      assert used[..] == was[entry.first := true][entry.second := true];
      return true, selected, share;
    }
  }

  lemma StartOfDraw(ranges: seq<Range>, blocked: set<nat>, draws: seq<real>)
    requires ValidRanges(ranges)
    ensures Follows(ranges, blocked, draws, []) && BlockedAfter(ranges, blocked, []) == blocked
    ensures Reach(ranges, blocked, []) == 1.0
  {
  }
}
