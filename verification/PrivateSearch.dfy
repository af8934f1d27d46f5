/**
 The feasibility preflight: a backtracking search over the seats, smallest range first, that stops at a
 node budget.  Its answer is exact whenever it finishes, and it finishes exactly when the budget lasts.
 */
module PrivateSearch {
  import opened Arithmetic
  import opened Wrappers
  import opened CommonTypes
  import opened Poker
  import opened PrivateRanges

  datatype Status = Feasible | Infeasible | SearchBudgetExhausted

  /** What an unbounded search finds, and the number of nodes it visits to find it. */
  datatype Search = Search(found: bool, nodes: nat)

  function Explore(ranges: seq<Range>, blocked: set<nat>): (r: Search)
    ensures r.nodes >= 1
    decreases |ranges|, 0
  {
    if ranges == [] then Search(true, 1)
    else
      var below := ExploreFrom(ranges[0], ranges[1..], blocked);
      Search(below.found, 1 + below.nodes)
  }

  function ExploreFrom(range: Range, rest: seq<Range>, blocked: set<nat>): Search
    decreases |rest|, 1 + |range|
  {
    if range == [] then Search(false, 0)
    else if !Fits(range[0], blocked) then ExploreFrom(range[1..], rest, blocked)
    else
      var below := Explore(rest, blocked + CardsOf(range[0]));
      if below.found then below
      else
        var others := ExploreFrom(range[1..], rest, blocked);
        Search(others.found, below.nodes + others.nodes)
  }

  // ---------------------------------------------------------------- the search finds what exists

  /** The unbounded search succeeds if and only if a compatible deal exists. */
  lemma {:induction false} ExploreFindsDeals(ranges: seq<Range>, blocked: set<nat>)
    ensures Explore(ranges, blocked).found <==> DealExists(ranges, blocked)
    decreases |ranges|, if ranges == [] then 0 else |ranges[0]| + 1
  {
    if ranges == [] {
      assert IsDeal(ranges, blocked, []);
    } else {
      ExploreFromFinds(ranges, blocked, 0);
      assert ranges[0][0..] == ranges[0];
      if DealExists(ranges, blocked) {
        var choice :| IsDeal(ranges, blocked, choice);
        assert choice == [choice[0]] + choice[1..];
        assert StartsDeal(ranges, blocked, choice[0], choice[1..]);
      }
    }
  }

  ghost predicate StartsDeal(ranges: seq<Range>, blocked: set<nat>, k: int, rest: seq<nat>) {
    k >= 0 && IsDeal(ranges, blocked, [k] + rest)
  }

  lemma {:induction false} ExploreFromFinds(ranges: seq<Range>, blocked: set<nat>, k: nat)
    requires ranges != [] && k <= |ranges[0]|
    ensures ExploreFrom(ranges[0][k..], ranges[1..], blocked).found <==>
            exists j, rest :: k <= j < |ranges[0]| && StartsDeal(ranges, blocked, j, rest)
    decreases |ranges|, |ranges[0]| - k
  {
    hide IsDeal, Fits, CardsOf;
    if k < |ranges[0]| {
      var range := ranges[0][k..];
      assert range[0] == ranges[0][k] && range[1..] == ranges[0][k + 1..];
      ExploreFromFinds(ranges, blocked, k + 1);
      if Fits(range[0], blocked) {
        ExploreFindsDeals(ranges[1..], blocked + CardsOf(range[0]));
      }
      FirstHandDeals(ranges, blocked, k);
    }
  }

  lemma FirstHandDeals(ranges: seq<Range>, blocked: set<nat>, k: nat)
    requires ranges != [] && k < |ranges[0]|
    ensures (exists rest :: StartsDeal(ranges, blocked, k, rest)) <==>
            Fits(ranges[0][k], blocked) && DealExists(ranges[1..], blocked + CardsOf(ranges[0][k]))
  {
    hide IsDeal, Fits, CardsOf;
    forall rest: seq<nat>
      ensures StartsDeal(ranges, blocked, k, rest) <==>
              Fits(ranges[0][k], blocked) && IsDeal(ranges[1..], blocked + CardsOf(ranges[0][k]), rest)
    {
      DealStep(ranges, blocked, k, rest);
    }
    if Fits(ranges[0][k], blocked) && DealExists(ranges[1..], blocked + CardsOf(ranges[0][k])) {
      var rest :| IsDeal(ranges[1..], blocked + CardsOf(ranges[0][k]), rest);
      assert StartsDeal(ranges, blocked, k, rest);
    }
  }

  // ---------------------------------------------------------------- the used table

  function Blocked(used: seq<bool>): set<nat> {
    set c: nat | c < |used| && used[c]
  }

  lemma MarkedBlocked(used: seq<bool>, e: Entry)
    requires e.first < |used| && e.second < |used|
    ensures Blocked(used[e.first := true][e.second := true]) == Blocked(used) + CardsOf(e)
  {
  }

  // ---------------------------------------------------------------- backtracking in place

  /** What a budgeted search answers, in terms of the unbounded one. */
  predicate Answers(s: Search, visited: nat, budget: nat, status: Status, after: nat) {
    if visited + s.nodes <= budget then
      status == (if s.found then Feasible else Infeasible) && after == visited + s.nodes
    else
      status == SearchBudgetExhausted && after == Max(visited, budget)
  }

  predicate GoodSearch(ranges: seq<Range>, order: seq<nat>, used: array<bool>) {
    used.Length == CARD_SLOTS && ValidRanges(ranges) && forall i :: 0 <= i < |order| ==> order[i] < |ranges|
  }

  /** find_compatible_deal: marks a hand's cards, recurses, and clears them again when that fails. */
  method FindCompatibleDeal(ranges: seq<Range>, order: seq<nat>, depth: nat, used: array<bool>, visited: nat,
                            budget: nat)
    returns (status: Status, after: nat)
    requires GoodSearch(ranges, order, used) && depth <= |order|
    modifies used
    ensures Answers(Explore(Ordered(ranges, order[depth..]), Blocked(old(used[..]))), visited, budget, status, after)
    ensures status == Infeasible ==> used[..] == old(used[..])
    decreases |order| - depth, 0
  {
    if visited >= budget {
      return SearchBudgetExhausted, visited;
    }
    after := visited + 1;
    if depth == |order| {
      return Feasible, after;
    }
    var seat := order[depth];
    assert Ordered(ranges, order[depth..])[0] == ranges[seat];
    assert Ordered(ranges, order[depth..])[1..] == Ordered(ranges, order[depth + 1..]);
    status, after := TryHands(ranges, order, depth, used, after, budget);
  }

  /** The loop of find_compatible_deal over one seat's hands. */
  method TryHands(ranges: seq<Range>, order: seq<nat>, depth: nat, used: array<bool>, visited: nat, budget: nat)
    returns (status: Status, after: nat)
    requires GoodSearch(ranges, order, used) && depth < |order| && visited <= budget
    modifies used
    ensures Answers(ExploreFrom(ranges[order[depth]], Ordered(ranges, order[depth + 1..]), Blocked(old(used[..]))),
                    visited, budget, status, after)
    ensures status == Infeasible ==> used[..] == old(used[..])
    decreases |order| - depth - 1, 1
  {
    hide Explore, Fits;
    var range := ranges[order[depth]];
    ghost var rest, blocked := Ordered(ranges, order[depth + 1..]), Blocked(used[..]);
    after := visited;
    assert range[0..] == range;
    for k := 0 to |range|
      invariant used[..] == old(used[..]) && visited <= after <= budget
      invariant var s, t := ExploreFrom(range, rest, blocked), ExploreFrom(range[k..], rest, blocked);
                s.found == t.found && visited + s.nodes == after + t.nodes
    {
      var entry := range[k];
      assert range[k..][0] == entry && range[k..][1..] == range[k + 1..];
      if Takes(entry, used) {
        assert Fits(entry, blocked) by {
          TakesFits(entry, used);
        }
        MarkedBlocked(used[..], entry);
        ghost var was := used[..];
        used[entry.first] := true;
        used[entry.second] := true;
        assert used[..] == was[entry.first := true][entry.second := true];
        status, after := FindCompatibleDeal(ranges, order, depth + 1, used, after, budget);
        if status != Infeasible {
          return;
        }
        used[entry.first] := false;
        used[entry.second] := false;
        assert used[..] == was;
      } else {
        assert !Fits(entry, blocked) by {
          TakesFits(entry, used);
        }
      }
    }
    assert range[|range|..] == [];
    return Infeasible, after;
  }

  predicate Takes(e: Entry, used: array<bool>)
    requires used.Length == CARD_SLOTS && ValidEntry(e)
    reads used
  {
    e.weight > 0.0 && !used[e.first] && !used[e.second]
  }

  lemma TakesFits(e: Entry, used: array<bool>)
    requires used.Length == CARD_SLOTS && ValidEntry(e)
    ensures Takes(e, used) <==> Fits(e, Blocked(used[..]))
  {
  }

  // ---------------------------------------------------------------- seats, smallest range first

  predicate SeatsBelow(s: seq<nat>, n: nat) {
    forall i :: 0 <= i < |s| ==> s[i] < n
  }

  predicate Climbs(ranges: seq<Range>, order: seq<nat>, from: int, to: int)
    requires SeatsBelow(order, |ranges|) && 0 <= from && to <= |order|
  {
    forall i, j :: from <= i < j < to ==> |ranges[order[i]]| <= |ranges[order[j]]|
  }

  /** Insertion sort of the seats by the size of their ranges. */
  method SortSeats(ranges: seq<Range>) returns (order: array<nat>)
    ensures fresh(order) && IsOrder(order[..], |ranges|) && Climbs(ranges, order[..], 0, |ranges|)
  {
    var n := |ranges|;
    order := new nat[n](i => i);
    var index := 1;
    while index < n
      invariant 1 <= index && IsOrder(order[..], n) && Climbs(ranges, order[..], 0, Min(index, n))
    {
      InsertSeat(ranges, order, index);
      index := index + 1;
    }
  }

  /** One pass: shifts larger ranges right and drops the seat into the gap. */
  method InsertSeat(ranges: seq<Range>, order: array<nat>, index: nat)
    requires index < order.Length == |ranges| && IsOrder(order[..], |ranges|) && Climbs(ranges, order[..], 0, index)
    modifies order
    ensures IsOrder(order[..], |ranges|) && Climbs(ranges, order[..], 0, index + 1)
  {
    ghost var was := order[..];
    var seat := order[index];
    var position := index;
    while position > 0 && |ranges[seat]| < |ranges[order[position - 1]]|
      invariant 0 <= position <= index
      invariant forall i :: 0 <= i < position || index < i < order.Length ==> order[i] == was[i]
      invariant forall i :: position < i <= index ==> order[i] == was[i - 1]
      invariant forall h :: position <= h < index ==> |ranges[seat]| < |ranges[was[h]]|
    {
      order[position] := order[position - 1];
      position := position - 1;
    }
    order[position] := seat;
    InsertedOrder(was, order[..], |ranges|, position, index);
    InsertedClimbs(ranges, was, order[..], position, index);
  }

  /** `now` is `was` with the element at `index` moved down to `position`. */
  ghost predicate Inserted(was: seq<nat>, now: seq<nat>, position: nat, index: nat) {
    && |was| == |now| && position <= index < |was| && now[position] == was[index]
    && (forall i :: 0 <= i < position || index < i < |was| ==> now[i] == was[i])
    && (forall i :: position < i <= index ==> now[i] == was[i - 1])
  }

  function Source(position: nat, index: nat, i: int): int {
    if i == position then index else if position < i <= index then i - 1 else i
  }

  lemma InsertedOrder(was: seq<nat>, now: seq<nat>, n: nat, position: nat, index: nat)
    requires IsOrder(was, n) && Inserted(was, now, position, index)
    ensures IsOrder(now, n)
  {
    forall i | 0 <= i < n ensures now[i] == was[Source(position, index, i)] {
    }
    forall i, j | 0 <= i < j < n ensures now[i] != now[j] {
      var a, b := Source(position, index, i), Source(position, index, j);
      assert now[i] == was[a] && now[j] == was[b] && a != b;
      assert if a < b then was[a] != was[b] else was[b] != was[a];
    }
  }

  lemma InsertedClimbs(ranges: seq<Range>, was: seq<nat>, now: seq<nat>, position: nat, index: nat)
    requires SeatsBelow(was, |ranges|) && Inserted(was, now, position, index) && Climbs(ranges, was, 0, index)
    requires position > 0 ==> |ranges[was[position - 1]]| <= |ranges[was[index]]|
    requires forall h :: position <= h < index ==> |ranges[was[index]]| < |ranges[was[h]]|
    ensures SeatsBelow(now, |ranges|) && Climbs(ranges, now, 0, index + 1)
  {
    forall i | 0 <= i < |now| ensures now[i] == was[Source(position, index, i)] {
    }
    forall i, j | 0 <= i < j < index + 1 ensures |ranges[now[i]]| <= |ranges[now[j]]| {
      var a, b := Source(position, index, i), Source(position, index, j);
      assert now[i] == was[a] && now[j] == was[b];
      if j == position {
        assert a == i && i <= position - 1;
      }
    }
  }

  // ---------------------------------------------------------------- the preflight

  function MassOf(range: Range): real {
    if range == [] then 0.0 else MassOf(range[..|range| - 1]) + range[|range| - 1].weight
  }

  predicate ValidSeatRange(range: Range, board: seq<nat>) {
    && range != [] && ValidRange(range) && MassOf(range) > 0.0
    && forall i :: 0 <= i < |range| ==> range[i].first !in board && range[i].second !in board
  }

  /** MultiwayPrivateConfig::validate. */
  predicate ValidPrivateConfig(board: seq<nat>, ranges: seq<Range>) {
    && MIN_SEATS <= |ranges| <= MAX_SEATS && |board| <= MAX_BOARD && ValidAndDistinct(board)
    && forall i :: 0 <= i < |ranges| ==> ValidSeatRange(ranges[i], board)
  }

  lemma {:induction false} MassMeansHand(range: Range)
    requires ValidRange(range)
    ensures MassOf(range) >= 0.0 && (MassOf(range) > 0.0 <==> exists i :: 0 <= i < |range| && range[i].weight > 0.0)
  {
    if range != [] {
      var front := range[..|range| - 1];
      MassMeansHand(front);
      assert forall i :: 0 <= i < |front| ==> front[i] == range[i];
      assert range[|front|].weight >= 0.0;
    }
  }

  /** Two different cards of the deck off the board, with a weight that is not negative. */
  predicate HandAllowed(e: Entry, board: seq<nat>) {
    e.first < 52 && e.second < 52 && e.first != e.second && e.weight >= 0.0 && e.first !in board && e.second !in board
  }

  /**
   A configuration is valid exactly when two to six seats have ranges of hands off the board, each with some hand of
   positive weight, and the board is at most five different cards.
   */
  lemma ConfigValidExactly(board: seq<nat>, ranges: seq<Range>)
    ensures ValidPrivateConfig(board, ranges) <==>
            && 2 <= |ranges| <= 6 && |board| <= 5
            && (forall i :: 0 <= i < |board| ==> board[i] < 52)
            && (forall i, j :: 0 <= i < j < |board| ==> board[i] != board[j])
            && forall s :: 0 <= s < |ranges| ==> RangeAllowed(ranges[s], board)
  {
    forall s | 0 <= s < |ranges| ensures ValidSeatRange(ranges[s], board) <==> RangeAllowed(ranges[s], board) {
      RangeValidExactly(ranges[s], board);
    }
    hide ValidSeatRange, RangeAllowed;
  }

  /** All hands are allowed and one of them can be dealt. */
  ghost predicate RangeAllowed(range: Range, board: seq<nat>) {
    && (forall i :: 0 <= i < |range| ==> HandAllowed(range[i], board))
    && exists i :: 0 <= i < |range| && range[i].weight > 0.0
  }

  lemma RangeValidExactly(range: Range, board: seq<nat>)
    ensures ValidSeatRange(range, board) <==> RangeAllowed(range, board)
  {
    if ValidRange(range) {
      MassMeansHand(range);
    } else {
      var i :| 0 <= i < |range| && !ValidEntry(range[i]);
      assert !HandAllowed(range[i], board);
    }
  }

  method ValidateConfig(board: seq<nat>, ranges: seq<Range>) returns (ok: bool)
    ensures ok <==> ValidPrivateConfig(board, ranges)
  {
    var boardOk := AreValidAndDistinct(board);
    if |ranges| < MIN_SEATS || |ranges| > MAX_SEATS || |board| > MAX_BOARD || !boardOk {
      return false;
    }
    var boardUsed := MarkBoard(board);
    for seat := 0 to |ranges|
      invariant forall i :: 0 <= i < seat ==> ValidSeatRange(ranges[i], board)
    {
      var range := ranges[seat];
      if range == [] {
        return false;
      }
      var total := 0.0;
      assert range[..0] == [];
      for k := 0 to |range|
        invariant ValidRange(range[..k]) && total == MassOf(range[..k])
        invariant forall i :: 0 <= i < k ==>
                                ValidEntry(range[i]) && range[i].first !in board && range[i].second !in board
      {
        var entry := range[k];
        assert range[..k + 1][..k] == range[..k];
        if !ValidEntry(entry) || boardUsed[entry.first] || boardUsed[entry.second] {
          return false;
        }
        total := total + entry.weight;
      }
      assert range[..|range|] == range;
      if total <= 0.0 {
        return false;
      }
    }
    return true;
  }

  method MarkBoard(board: seq<nat>) returns (used: array<bool>)
    requires AllValid(board)
    ensures fresh(used) && used.Length == CARD_SLOTS
    ensures forall c: nat :: c < CARD_SLOTS ==> (used[c] <==> c in board)
  {
    used := new bool[CARD_SLOTS](_ => false);
    for i := 0 to |board|
      invariant forall c: nat :: c < CARD_SLOTS ==> (used[c] <==> c in board[..i])
    {
      assert board[..i + 1] == board[..i] + [board[i]];
      used[board[i]] := true;
    }
    assert board[..|board|] == board;
  }

  function BoardCards(board: seq<nat>): set<nat> {
    set c | c in board
  }

  datatype PreflightError = InvalidConfig

  /**
   preflight_multiway_private_range_feasibility.  The verdict is about deals that exist, not about the order
   the seats are searched in, and the budget runs out exactly when the whole search needs more nodes.
   */
  method Preflight(board: seq<nat>, ranges: seq<Range>, budget: nat)
    returns (r: Result<(Status, nat), PreflightError>, ghost order: seq<nat>)
    ensures r.Failure? <==> !ValidPrivateConfig(board, ranges)
    ensures r.Success? ==>
              && IsOrder(order, |ranges|) && Climbs(ranges, order, 0, |ranges|)
              && (r.value.0 == Feasible ==> DealExists(ranges, BoardCards(board)))
              && (r.value.0 == Infeasible ==> !DealExists(ranges, BoardCards(board)))
              && (r.value.0 == SearchBudgetExhausted ==> r.value.1 == budget)
              && (r.value.0 == SearchBudgetExhausted <==>
                    Explore(Ordered(ranges, order), BoardCards(board)).nodes > budget)
              && r.value.1 == Min(budget, Explore(Ordered(ranges, order), BoardCards(board)).nodes)
  {
    order := [];
    var ok := ValidateConfig(board, ranges);
    if !ok {
      return Failure(InvalidConfig), order;
    }
    var seats := SortSeats(ranges);
    order := seats[..];
    var used := MarkBoard(board);
    assert Blocked(used[..]) == BoardCards(board);
    assert order[0..] == order && ValidRanges(ranges);
    ExploreFindsDeals(Ordered(ranges, order), BoardCards(board));
    DealExistsInAnyOrder(ranges, BoardCards(board), order);
    hide Explore, DealExists, IsOrder, Climbs, ValidPrivateConfig;
    assert SeatsBelow(order, |ranges|);
    var status, visited := FindCompatibleDeal(ranges, seats[..], 0, used, 0, budget);
    return Success((status, visited)), order;
  }

  /** Any two orders of the seats, given the nodes they need, come to the same verdict. */
  lemma OrderDoesNotMatter(ranges: seq<Range>, blocked: set<nat>, order: seq<nat>, other: seq<nat>)
    requires IsOrder(order, |ranges|) && IsOrder(other, |ranges|)
    ensures Explore(Ordered(ranges, order), blocked).found == Explore(Ordered(ranges, other), blocked).found
  {
    ExploreFindsDeals(Ordered(ranges, order), blocked);
    ExploreFindsDeals(Ordered(ranges, other), blocked);
    DealExistsInAnyOrder(ranges, blocked, order);
    DealExistsInAnyOrder(ranges, blocked, other);
  }
}
