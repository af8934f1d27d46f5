/**
 Infoset encodings of heads-up states: reachable states always encode, canonically, and their keys
 separate exactly what the acting player can tell apart.
 */
module HeadsUpInfoset {
  import opened Arithmetic
  import opened Wrappers
  import opened SeqFolds
  import opened Poker
  import opened HistoryText
  import opened InfosetKey
  import opened HeadsUpConfig
  import opened HeadsUpState
  import opened HeadsUpRuns

  function Flat(past: seq<seq<int>>): seq<int> {
    if past == [] then [] else past[0] + Flat(past[1..])
  }

  function LengthsOf(segments: seq<seq<int>>): (r: seq<nat>)
    ensures |r| == |segments| && forall i :: 0 <= i < |r| ==> r[i] == |segments[i]|
  {
    seq(|segments|, i requires 0 <= i < |segments| => |segments[i]|)
  }

  /** The streets with actions so far, the open one last. */
  function Streets(s: State): seq<seq<int>> {
    if s.codes == [] then s.pastCodes else s.pastCodes + [s.codes]
  }

  /** What fits the arrays of the encoding. */
  predicate Encodable(s: State, player: int) {
    && 0 <= player <= 1 && s.hole.Some? && |s.board| <= BOARD_SLOTS
    && |Streets(s)| <= STREET_SLOTS && |Flat(Streets(s))| <= MAX_HISTORY_CODES
  }

  function EncodingOf(s: State, player: int): (e: Encoding)
    requires Encodable(s, player)
    ensures Shaped(e)
  {
    var hole := s.hole.value.At(player);
    var codes := Flat(Streets(s));
    Encoding(
      hole := if hole.second < hole.first then [hole.second, hole.first] else [hole.first, hole.second],
      board := Sorted(s.board) + Zeros(BOARD_SLOTS - |s.board|),
      streetLengths := LengthsOf(Streets(s)) + Zeros(STREET_SLOTS - |Streets(s)|),
      historyCodes := codes + Zeros(MAX_HISTORY_CODES - |codes|),
      boardCount := |s.board|, street := s.street, historyCount := |codes|)
  }

  /** HUNLState::infoset_encoding. */
  function Encode(s: State, player: int): Result<Encoding, string> {
    if !Encodable(s, player) then Failure("HUNL state exceeds infoset encoding capacity")
    else if !ValidEncoding(EncodingOf(s, player)) then Failure("invalid HUNL infoset encoding")
    else Success(EncodingOf(s, player))
  }

  // ---------------------------------------------------------------- reachable states encode

  predicate NonEmptyStreets(streets: seq<seq<int>>) {
    forall i :: 0 <= i < |streets| ==> streets[i] != []
  }

  lemma SegmentFirst(street: seq<int>, lengths: seq<nat>, codes: seq<int>)
    requires street != [] && Total(lengths) == |codes|
    ensures Total([|street|] + lengths) == |street + codes|
    ensures Segments([|street|] + lengths, street + codes) == [street] + Segments(lengths, codes)
  {
    var all, more := street + codes, [|street|] + lengths;
    assert more[1..] == lengths;
    assert all[|street|..] == codes && all[..|street|] == street;
  }

  lemma {:induction false} SegmentsOfPadded(streets: seq<seq<int>>, pad: nat)
    requires NonEmptyStreets(streets)
    ensures var lengths := LengthsOf(streets) + Zeros(pad);
            Total(lengths) == |Flat(streets)| && Segments(lengths, Flat(streets)) == streets
  {
    var lengths := LengthsOf(streets) + Zeros(pad);
    if streets == [] {
      assert lengths == Zeros(pad);
      NothingPadded(pad);
    } else {
      SegmentsOfPadded(streets[1..], pad);
      var rest := LengthsOf(streets[1..]) + Zeros(pad);
      assert lengths == [|streets[0]|] + rest;
      SegmentFirst(streets[0], rest, Flat(streets[1..]));
      assert Flat(streets) == streets[0] + Flat(streets[1..]);
      hide Flat, Segments, Total, LengthsOf;
      assert [streets[0]] + streets[1..] == streets;
    }
  }

  lemma {:induction false} NothingPadded(pad: nat)
    ensures Total(Zeros(pad)) == 0 && Segments(Zeros(pad), []) == []
  {
    if pad > 0 {
      assert Zeros(pad)[1..] == Zeros(pad - 1);
      NothingPadded(pad - 1);
    }
  }

  lemma {:induction false} FlatValid(streets: seq<seq<int>>)
    requires forall i :: 0 <= i < |streets| ==> ValidCodes(streets[i])
    ensures ValidCodes(Flat(streets))
  {
    if streets != [] {
      FlatValid(streets[1..]);
      assert ValidCodes(streets[0]);
    }
  }

  lemma {:induction false} FlatConcat(a: seq<seq<int>>, b: seq<seq<int>>)
    ensures Flat(a + b) == Flat(a) + Flat(b)
  {
    if a == [] {
      assert a + b == b;
    } else {
      assert (a + b)[1..] == a[1..] + b;
      FlatConcat(a[1..], b);
    }
  }

  lemma {:induction false} FlatCount(past: seq<seq<int>>)
    ensures |Flat(past)| == CodeCount(past)
  {
    if past != [] {
      var front, last := past[..|past| - 1], past[|past| - 1];
      FlatCount(front);
      FlatConcat(front, [last]);
      assert past == front + [last];
      assert Flat([last]) == last + Flat([]);
    }
  }

  lemma FlatStreets(s: State)
    ensures Flat(Streets(s)) == Flat(s.pastCodes) + s.codes
  {
    FlatConcat(s.pastCodes, [s.codes]);
    assert Flat([s.codes]) == s.codes + Flat([]);
  }

  lemma ReachableStreets(cfg: Config, s: State)
    requires ValidConfig(cfg) && Reachable(cfg, s)
    ensures NonEmptyStreets(Streets(s)) && ValidCodes(Flat(Streets(s)))
    ensures forall player :: 0 <= player <= 1 ==> Encodable(s, player)
  {
    HistoryFits(cfg, s);
    FlatStreets(s);
    FlatCount(s.pastCodes);
    hide ValidConfig, Phase, ChipsOk;
    forall i | 0 <= i < |Streets(s)| ensures Streets(s)[i] != [] && ValidCodes(Streets(s)[i]) {
      assert i < |s.pastCodes| ==> StreetOk(s.pastCodes[i], s.pastTokens[i]);
    }
    FlatValid(Streets(s));
  }

  lemma SortedDistinct(cards: seq<nat>)
    requires ValidAndDistinct(cards)
    ensures ValidAndDistinct(Sorted(cards))
    ensures forall c :: c in cards <==> c in Sorted(cards)
  {
    var r := Sorted(cards);
    forall c ensures c in cards <==> c in r {
      assert c in cards <==> c in multiset(cards);
      assert c in r <==> c in multiset(r);
    }
    forall v ensures multiset(r)[v] <= 1 {
      DistinctMultiplicity(cards, v);
    }
    MultiplicityDistinct(r);
  }

  lemma PaddingIsZero(s: seq<int>, n: nat)
    requires |s| <= n
    ensures var r := s + Zeros(n - |s|);
            |r| == n && r[..|s|] == s && forall i :: |s| <= i < n ==> r[i] == 0
  {
  }

  lemma PaddedLengthsTrail(streets: seq<seq<int>>, n: nat)
    requires NonEmptyStreets(streets) && |streets| <= n
    ensures TrailingZeros(LengthsOf(streets) + Zeros(n - |streets|))
  {
  }

  lemma EncodedParts(s: State, player: int)
    requires Encodable(s, player) && NonEmptyStreets(Streets(s))
    ensures var e := EncodingOf(s, player);
            && e.historyCodes[..e.historyCount] == Flat(Streets(s)) && e.board[..e.boardCount] == Sorted(s.board)
            && (forall j :: e.boardCount <= j < BOARD_SLOTS ==> e.board[j] == 0)
            && (forall i :: e.historyCount <= i < MAX_HISTORY_CODES ==> e.historyCodes[i] == 0)
            && TrailingZeros(e.streetLengths) && Total(e.streetLengths) == e.historyCount
            && Segments(e.streetLengths, Flat(Streets(s))) == Streets(s)
  {
    hide Sorted, Flat, Streets, LengthsOf, Segments, Total, Zeros, TrailingZeros, NonEmptyStreets;
    SegmentsOfPadded(Streets(s), STREET_SLOTS - |Streets(s)|);
    PaddingIsZero(Flat(Streets(s)), MAX_HISTORY_CODES);
    PaddingIsZero(Sorted(s.board), BOARD_SLOTS);
    PaddedLengthsTrail(Streets(s), STREET_SLOTS);
  }

  /** Every reachable state encodes for either player, and canonically. */
  lemma ReachableEncodesCanonically(cfg: Config, s: State, player: int)
    requires ValidConfig(cfg) && Reachable(cfg, s) && 0 <= player <= 1
    ensures Encode(s, player).Success? && Canonical(Encode(s, player).value)
    ensures SegmentsOf(Encode(s, player).value) == Streets(s)
    ensures BoardOf(Encode(s, player).value) == Sorted(s.board)
  {
    ReachableStreets(cfg, s);
    SortedDistinct(s.board);
    EncodedParts(s, player);
    HoleEncodes(s, player);
    var e := EncodingOf(s, player);
    assert e.boardCount == |s.board| && e.historyCount == |Flat(Streets(s))|;
    hide ValidConfig, Reachable, Flat, Segments, Sorted, Total, Streets, EncodingOf, TrailingZeros;
    forall i, j | 0 <= i < 2 && 0 <= j < e.boardCount ensures e.hole[i] != e.board[j] {
    }
    assert ValidEncoding(e);
  }

  lemma HoleEncodes(s: State, player: int)
    requires Encodable(s, player) && CardsOk(s)
    ensures var e := EncodingOf(s, player);
            && Ascending(e.hole) && ValidAndDistinct(e.hole)
            && forall i, j :: 0 <= i < 2 && 0 <= j < |s.board| ==> e.hole[i] != e.board[j]
  {
    var e, hand := EncodingOf(s, player), s.hole.value.At(player);
    HandOffBoard(s, player);
    SortedDistinct(s.board);
    hide Flat, Streets, LengthsOf, CardsOk, ValidDeal;
    assert e.hole == [hand.first, hand.second] || e.hole == [hand.second, hand.first];
    forall i, j | 0 <= i < 2 && 0 <= j < |s.board| ensures e.hole[i] != e.board[j] {
      assert e.board[j] == Sorted(s.board)[j] && Sorted(s.board)[j] in s.board;
    }
  }

  lemma HandOffBoard(s: State, player: int)
    requires CardsOk(s)
    ensures var hand := s.hole.value.At(player);
            && ValidCard(hand.first) && ValidCard(hand.second) && hand.first != hand.second
            && hand.first !in s.board && hand.second !in s.board
  {
    var cards := HoleCards(s.hole.value);
    assert cards[0] == s.hole.value.zero.first && cards[1] == s.hole.value.zero.second;
    assert cards[2] == s.hole.value.one.first && cards[3] == s.hole.value.one.second;
    assert forall k :: 0 <= k < 4 ==> cards[k] !in s.board;
  }

  /** The cards of a player, in no order. */
  function OwnCards(s: State, player: int): multiset<nat>
    requires s.hole.Some?
  {
    multiset{s.hole.value.At(player).first, s.hole.value.At(player).second}
  }

  lemma EncodedHand(s: State, player: int)
    requires Encodable(s, player)
    ensures multiset(EncodingOf(s, player).hole) == OwnCards(s, player)
  {
    hide Flat, Streets, LengthsOf, Sorted;
  }

  /**
   Two reachable states share the key of two players if and only if these hold the same cards, the same
   cards lie on the board, and the same actions were taken street by street.
   */
  lemma KeysSeparateExactly(cfg: Config, s: State, player: int, t: State, other: int)
    requires ValidConfig(cfg) && Reachable(cfg, s) && Reachable(cfg, t) && 0 <= player <= 1 && 0 <= other <= 1
    ensures Encode(s, player).Success? && Encode(t, other).Success? && s.hole.Some? && t.hole.Some?
    ensures KeyText(Encode(s, player).value) == KeyText(Encode(t, other).value) <==>
              OwnCards(s, player) == OwnCards(t, other) && multiset(s.board) == multiset(t.board) &&
              s.street == t.street && Streets(s) == Streets(t)
  {
    ReachableEncodesCanonically(cfg, s, player);
    ReachableEncodesCanonically(cfg, t, other);
    EncodedHand(s, player);
    EncodedHand(t, other);
    assert EncodingOf(s, player).street == s.street && EncodingOf(t, other).street == t.street;
    hide ValidConfig, Reachable, Streets, EncodingOf, Segments, Canonical, KeyText, ValidEncoding, Sorted, OwnCards;
    SameKeyExactly(Encode(s, player).value, Encode(t, other).value);
  }
}
