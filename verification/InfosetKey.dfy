/**
 The fixed-capacity infoset encoding, its validation, and the text key printed from it.  A key says
 exactly which cards, street and non-empty history segments an encoding holds.
 */
module InfosetKey {
  import opened Wrappers
  import opened CommonTypes
  import opened Poker
  import opened HistoryText

  const BOARD_SLOTS := 5
  const STREET_SLOTS := 4
  const MAX_HISTORY_CODES := 48

  datatype Encoding = Encoding(
    hole: seq<nat>,
    board: seq<nat>,
    streetLengths: seq<nat>,
    historyCodes: seq<int>,
    boardCount: nat,
    street: Street,
    historyCount: nat)

  /** The array sizes of the struct. */
  predicate Shaped(e: Encoding) {
    |e.hole| == 2 && |e.board| == BOARD_SLOTS && |e.streetLengths| == STREET_SLOTS &&
    |e.historyCodes| == MAX_HISTORY_CODES
  }

  function Total(lengths: seq<nat>): nat {
    if lengths == [] then 0 else lengths[0] + Total(lengths[1..])
  }

  /** What validate_hunl_infoset_encoding lets through. */
  predicate ValidEncoding(e: Encoding) {
    && Shaped(e) && e.boardCount <= BOARD_SLOTS && e.historyCount <= MAX_HISTORY_CODES
    && ValidAndDistinct(e.hole) && ValidAndDistinct(e.board[..e.boardCount])
    && (forall i, j :: 0 <= i < 2 && 0 <= j < e.boardCount ==> e.hole[i] != e.board[j])
    && (forall j :: e.boardCount <= j < BOARD_SLOTS ==> e.board[j] == 0)
    && Total(e.streetLengths) == e.historyCount
    && ValidCodes(e.historyCodes[..e.historyCount])
    && (forall i :: e.historyCount <= i < MAX_HISTORY_CODES ==> e.historyCodes[i] == 0)
  }

  lemma {:induction false} TotalSnoc(lengths: seq<nat>, k: nat)
    requires k < |lengths|
    ensures Total(lengths[..k + 1]) == Total(lengths[..k]) + lengths[k]
  {
    if k > 0 {
      TotalSnoc(lengths[1..], k - 1);
      assert lengths[..k + 1][1..] == lengths[1..][..k];
      assert lengths[..k][1..] == lengths[1..][..k - 1];
    }
  }

  /** A validated encoding names two private and up to five board cards, all different, in zero-padded arrays. */
  lemma ValidHoldsDistinctCards(e: Encoding)
    requires Shaped(e) && e.boardCount <= BOARD_SLOTS && e.historyCount <= MAX_HISTORY_CODES
    ensures ValidEncoding(e) <==>
            && ValidAndDistinct(e.hole + e.board[..e.boardCount])
            && e.streetLengths[0] + e.streetLengths[1] + e.streetLengths[2] + e.streetLengths[3] == e.historyCount
            && (forall i :: 0 <= i < e.historyCount ==> e.historyCodes[i] != 0 && e.historyCodes[i] > -0x8000_0000)
            && (forall i :: e.historyCount <= i < 48 ==> e.historyCodes[i] == 0)
            && (forall j :: e.boardCount <= j < 5 ==> e.board[j] == 0)
  {
    var board := e.board[..e.boardCount];
    TotalOfFour(e.streetLengths);
    JointlyDistinct(e.hole, board);
    assert forall j :: 0 <= j < e.boardCount ==> board[j] == e.board[j];
    assert forall i :: 0 <= i < e.historyCount ==> e.historyCodes[..e.historyCount][i] == e.historyCodes[i];
    hide ValidAndDistinct, Total;
  }

  lemma TotalOfFour(lengths: seq<nat>)
    requires |lengths| == 4
    ensures Total(lengths) == lengths[0] + lengths[1] + lengths[2] + lengths[3]
  {
    var b, c, d := lengths[1..], lengths[2..], lengths[3..];
    assert b[1..] == c && c[1..] == d && d[1..] == [];
    assert Total(d) == lengths[3];
    assert Total(c) == lengths[2] + Total(d);
    assert Total(b) == lengths[1] + Total(c);
  }

  /** validate_hunl_infoset_encoding: true when no check throws. */
  method Validate(e: Encoding) returns (ok: bool)
    requires Shaped(e)
    ensures ok <==> ValidEncoding(e)
  {
    if e.boardCount > BOARD_SLOTS || e.historyCount > MAX_HISTORY_CODES {
      return false;
    }
    var holeOk := AreValidAndDistinct(e.hole);
    var boardOk := AreValidAndDistinct(e.board[..e.boardCount]);
    if !holeOk || !boardOk {
      return false;
    }
    for i := 0 to 2
      invariant forall h, j :: 0 <= h < i && 0 <= j < e.boardCount ==> e.hole[h] != e.board[j]
    {
      for boardIndex := 0 to e.boardCount
        invariant forall j :: 0 <= j < boardIndex ==> e.hole[i] != e.board[j]
      {
        if e.hole[i] == e.board[boardIndex] {
          return false;
        }
      }
    }
    for boardIndex := e.boardCount to BOARD_SLOTS
      invariant forall j :: e.boardCount <= j < boardIndex ==> e.board[j] == 0
    {
      if e.board[boardIndex] != 0 {
        return false;
      }
    }
    var segmentTotal := 0;
    for k := 0 to STREET_SLOTS
      invariant segmentTotal == Total(e.streetLengths[..k])
    {
      TotalSnoc(e.streetLengths, k);
      segmentTotal := segmentTotal + e.streetLengths[k];
    }
    assert e.streetLengths[..STREET_SLOTS] == e.streetLengths;
    if segmentTotal != e.historyCount {
      return false;
    }
    for index := 0 to e.historyCount
      invariant forall i :: 0 <= i < index ==> ValidCode(e.historyCodes[i])
    {
      if e.historyCodes[index] == 0 || e.historyCodes[index] <= INT_MIN {
        assert !ValidCode(e.historyCodes[..e.historyCount][index]);
        return false;
      }
    }
    for index := e.historyCount to MAX_HISTORY_CODES
      invariant forall i :: e.historyCount <= i < index ==> e.historyCodes[i] == 0
    {
      if e.historyCodes[index] != 0 {
        return false;
      }
    }
    return true;
  }

  // ---------------------------------------------------------------- segments and key

  /** The codes cut at the street lengths, empty streets left out. */
  function Segments(lengths: seq<nat>, codes: seq<int>): (r: seq<seq<int>>)
    requires Total(lengths) == |codes|
    ensures ValidCodes(codes) ==> ValidSegments(r)
  {
    if lengths == [] then []
    else
      var rest := Segments(lengths[1..], codes[lengths[0]..]);
      if lengths[0] == 0 then rest else [codes[..lengths[0]]] + rest
  }

  function SegmentsOf(e: Encoding): (r: seq<seq<int>>)
    requires ValidEncoding(e)
    ensures ValidSegments(r)
  {
    Segments(e.streetLengths, e.historyCodes[..e.historyCount])
  }

  function BoardOf(e: Encoding): (r: seq<nat>)
    requires ValidEncoding(e)
    ensures ValidAndDistinct(r) && |r| == e.boardCount
  {
    e.board[..e.boardCount]
  }

  /** hunl_infoset_key of a validated encoding. */
  function KeyText(e: Encoding): string
    requires ValidEncoding(e)
  {
    KeyFrom(Sorted(e.hole), Sorted(BoardOf(e)), e.street, SegmentsOf(e))
  }

  function KeyFrom(hole: seq<nat>, board: seq<nat>, street: Street, segments: seq<seq<int>>): string
    requires AllValid(hole) && AllValid(board) && ValidSegments(segments)
  {
    CardsText(hole) + ("|" + (CardsText(board) + ("|" + ([StreetToken(street)] + ("|" + Printed(segments))))))
  }

  /** A key as the source prints it: aces on a flop of 2, 3 and 7, a call before it, a check and an all-in after. */
  lemma SampleKey()
    ensures ValidSegments([[3], [2, 4]])
    ensures KeyFrom([48, 51], [0, 5, 22], Flop, [[3], [2, 4]]) == "AsAc|2s3h7d|f|c/xA"
  {
    SampleCards();
    SampleStreets();
    hide CardsText, Printed;
  }

  lemma SampleCards()
    ensures CardsText([48, 51]) == "AsAc" && CardsText([0, 5, 22]) == "2s3h7d"
  {
    assert CardText(48) == "As" && CardText(51) == "Ac" && CardText(0) == "2s" && CardText(5) == "3h"
           && CardText(22) == "7d";
    assert [48, 51][1..] == [51] && [51][1..] == [] && [0, 5, 22][1..] == [5, 22] && [5, 22][1..] == [22]
           && [22][1..] == [];
    assert CardsText([51]) == "Ac" && CardsText([22]) == "7d" && CardsText([5, 22]) == "3h7d";
  }

  lemma SampleStreets()
    ensures ValidSegments([[3], [2, 4]]) && Printed([[3], [2, 4]]) == "c/xA"
  {
    assert [[3], [2, 4]][1..] == [[2, 4]];
    assert [3][1..] == [] && [4][1..] == [] && [2, 4][1..] == [4];
    assert Joined([3]) == "c" && Joined([4]) == "A" && Joined([2, 4]) == "xA";
  }

  /** Every part of a key can be read back from it. */
  lemma KeyPartsInjective(hole: seq<nat>, board: seq<nat>, street: Street, segments: seq<seq<int>>,
                          hole': seq<nat>, board': seq<nat>, street': Street, segments': seq<seq<int>>)
    requires AllValid(hole) && AllValid(board) && ValidSegments(segments)
    requires AllValid(hole') && AllValid(board') && ValidSegments(segments')
    requires KeyFrom(hole, board, street, segments) == KeyFrom(hole', board', street', segments')
    ensures hole == hole' && board == board' && street == street' && segments == segments'
  {
    hide CardsText, Printed, StreetToken;
    var a3, b3 := "|" + Printed(segments), "|" + Printed(segments');
    var a2, b2 := [StreetToken(street)] + a3, [StreetToken(street')] + b3;
    var a1, b1 := CardsText(board) + ("|" + a2), CardsText(board') + ("|" + b2);
    CardsTextHasNoBar(hole);
    CardsTextHasNoBar(hole');
    SeparatorSplits(CardsText(hole), CardsText(hole'), a1, b1, '|');
    CardsTextInjective(hole, hole');
    CardsTextHasNoBar(board);
    CardsTextHasNoBar(board');
    SeparatorSplits(CardsText(board), CardsText(board'), a2, b2, '|');
    CardsTextInjective(board, board');
    StreetTokenReads(street, street', a3, b3);
    assert a3[1..] == Printed(segments) && b3[1..] == Printed(segments');
    PrintedInjective(segments, segments');
  }

  lemma StreetTokenReads(s: Street, t: Street, a: string, b: string)
    requires [StreetToken(s)] + a == [StreetToken(t)] + b
    ensures s == t && a == b
  {
    assert ([StreetToken(s)] + a)[0] == StreetToken(s) && ([StreetToken(t)] + b)[0] == StreetToken(t);
    assert ([StreetToken(s)] + a)[1..] == a && ([StreetToken(t)] + b)[1..] == b;
  }

  /**
   Two validated encodings have the same text key if and only if they hold the same private cards, the
   same board cards, the same street and the same sequence of non-empty history segments.
   */
  lemma SameKeyExactly(a: Encoding, b: Encoding)
    requires ValidEncoding(a) && ValidEncoding(b)
    ensures KeyText(a) == KeyText(b) <==>
            multiset(a.hole) == multiset(b.hole) && multiset(BoardOf(a)) == multiset(BoardOf(b)) &&
            a.street == b.street && SegmentsOf(a) == SegmentsOf(b)
  {
    SortedSameExactly(a.hole, b.hole);
    SortedSameExactly(BoardOf(a), BoardOf(b));
    if KeyText(a) == KeyText(b) {
      KeyPartsInjective(Sorted(a.hole), Sorted(BoardOf(a)), a.street, SegmentsOf(a),
                        Sorted(b.hole), Sorted(BoardOf(b)), b.street, SegmentsOf(b));
    }
  }

  // ---------------------------------------------------------------- keys with a suffix

  /** A key followed by a bar and more text. */
  function KeyThen(hole: seq<nat>, board: seq<nat>, street: Street, segments: seq<seq<int>>, tail: string): string
    requires AllValid(hole) && AllValid(board) && ValidSegments(segments)
  {
    CardsText(hole)
    + ("|" + (CardsText(board) + ("|" + ([StreetToken(street)] + ("|" + (Printed(segments) + ("|" + tail)))))))
  }

  lemma KeyThenIsKey(hole: seq<nat>, board: seq<nat>, street: Street, segments: seq<seq<int>>, tail: string)
    requires AllValid(hole) && AllValid(board) && ValidSegments(segments)
    ensures KeyFrom(hole, board, street, segments) + ("|" + tail) == KeyThen(hole, board, street, segments, tail)
  {
    hide CardsText, Printed, StreetToken;
    var end, history, token := "|" + tail, Printed(segments), [StreetToken(street)];
    var a3, a2 := "|" + history, token + ("|" + history);
    var a1 := CardsText(board) + ("|" + a2);
    TextAssociates("|", history, end);
    TextAssociates(token, a3, end);
    TextAssociates("|", a2, end);
    TextAssociates(CardsText(board), "|" + a2, end);
    TextAssociates("|", a1, end);
    TextAssociates(CardsText(hole), "|" + a1, end);
  }

  /** The key before the suffix can be read back: nothing in a key can be taken for the suffix. */
  lemma KeyThenInjective(a: Encoding, b: Encoding, tail: string, tail': string)
    requires ValidEncoding(a) && ValidEncoding(b)
    requires KeyText(a) + ("|" + tail) == KeyText(b) + ("|" + tail')
    ensures KeyText(a) == KeyText(b) && tail == tail'
  {
    hide ValidEncoding, SegmentsOf, BoardOf, Sorted, CardsText, Printed, StreetToken;
    var hole, board, segments := Sorted(a.hole), Sorted(BoardOf(a)), SegmentsOf(a);
    var hole', board', segments' := Sorted(b.hole), Sorted(BoardOf(b)), SegmentsOf(b);
    KeyCardsValid(a);
    KeyCardsValid(b);
    KeyThenIsKey(hole, board, a.street, segments, tail);
    KeyThenIsKey(hole', board', b.street, segments', tail');
    var p, p' := Printed(segments) + ("|" + tail), Printed(segments') + ("|" + tail');
    var a2, b2 := [StreetToken(a.street)] + ("|" + p), [StreetToken(b.street)] + ("|" + p');
    CardsTextHasNoBar(hole);
    CardsTextHasNoBar(hole');
    SeparatorSplits(CardsText(hole), CardsText(hole'), CardsText(board) + ("|" + a2), CardsText(board') + ("|" + b2),
                    '|');
    CardsTextInjective(hole, hole');
    CardsTextHasNoBar(board);
    CardsTextHasNoBar(board');
    SeparatorSplits(CardsText(board), CardsText(board'), a2, b2, '|');
    CardsTextInjective(board, board');
    StreetTokenReads(a.street, b.street, "|" + p, "|" + p');
    assert ("|" + p)[1..] == p && ("|" + p')[1..] == p';
    PrintedHasNoBar(segments);
    PrintedHasNoBar(segments');
    SeparatorSplits(Printed(segments), Printed(segments'), tail, tail', '|');
    PrintedInjective(segments, segments');
  }

  lemma KeyCardsValid(e: Encoding)
    requires ValidEncoding(e)
    ensures AllValid(Sorted(e.hole)) && AllValid(Sorted(BoardOf(e)))
  {
  }

  // ---------------------------------------------------------------- canonical encodings

  predicate TrailingZeros(lengths: seq<nat>) {
    forall i, j :: 0 <= i < j < |lengths| && lengths[i] == 0 ==> lengths[j] == 0
  }

  /** Cards in order, and empty streets only after the last street with actions. */
  predicate Canonical(e: Encoding) {
    ValidEncoding(e) && Ascending(e.hole) && Ascending(e.board[..e.boardCount]) && TrailingZeros(e.streetLengths)
  }

  lemma {:induction false} SegmentsInjective(lengths: seq<nat>, codes: seq<int>, lengths': seq<nat>, codes': seq<int>)
    requires Total(lengths) == |codes| && Total(lengths') == |codes'| && |lengths| == |lengths'|
    requires TrailingZeros(lengths) && TrailingZeros(lengths')
    requires Segments(lengths, codes) == Segments(lengths', codes')
    ensures lengths == lengths' && codes == codes'
  {
    if lengths != [] {
      NoSegmentsExactly(lengths, codes);
      NoSegmentsExactly(lengths', codes');
      var rest, rest' := Segments(lengths[1..], codes[lengths[0]..]), Segments(lengths'[1..], codes'[lengths'[0]..]);
      assert lengths[0] == 0 <==> lengths'[0] == 0;
      if lengths[0] != 0 {
        assert codes[..lengths[0]] == Segments(lengths, codes)[0];
        assert codes'[..lengths'[0]] == Segments(lengths', codes')[0];
        assert rest == Segments(lengths, codes)[1..] && rest' == Segments(lengths', codes')[1..];
      }
      SegmentsInjective(lengths[1..], codes[lengths[0]..], lengths'[1..], codes'[lengths'[0]..]);
      assert lengths == [lengths[0]] + lengths[1..] && lengths' == [lengths'[0]] + lengths'[1..];
      assert codes == codes[..lengths[0]] + codes[lengths[0]..];
      assert codes' == codes'[..lengths'[0]] + codes'[lengths'[0]..];
    }
  }

  lemma {:induction false} NoSegmentsExactly(lengths: seq<nat>, codes: seq<int>)
    requires Total(lengths) == |codes| && TrailingZeros(lengths) && lengths != []
    ensures Segments(lengths, codes) == [] <==> lengths[0] == 0
  {
    if |lengths| > 1 && lengths[0] == 0 {
      NoSegmentsExactly(lengths[1..], codes);
      assert codes[0..] == codes;
    }
  }

  /** Among canonical encodings the text key is injective. */
  lemma CanonicalKeyInjective(a: Encoding, b: Encoding)
    requires Canonical(a) && Canonical(b)
    ensures KeyText(a) == KeyText(b) <==> a == b
  {
    if KeyText(a) == KeyText(b) {
      SameKeyExactly(a, b);
      SortedIsUnique(a.hole, b.hole);
      SortedIsUnique(BoardOf(a), BoardOf(b));
      PaddedSame(a.board, b.board, a.boardCount, b.boardCount);
      SegmentsInjective(a.streetLengths, a.historyCodes[..a.historyCount],
                        b.streetLengths, b.historyCodes[..b.historyCount]);
      PaddedSame(a.historyCodes, b.historyCodes, a.historyCount, b.historyCount);
    }
  }

  lemma PaddedSame(a: seq<int>, b: seq<int>, m: nat, n: nat)
    requires |a| == |b| && m <= |a| && n <= |b| && a[..m] == b[..n]
    requires forall i :: m <= i < |a| ==> a[i] == 0
    requires forall i :: n <= i < |b| ==> b[i] == 0
    ensures m == n && a == b
  {
    assert |a[..m]| == m && |b[..n]| == n;
    forall i | 0 <= i < |a| ensures a[i] == b[i] {
      if i < m {
        assert a[i] == a[..m][i] && b[i] == b[..n][i];
      }
    }
  }

  // ---------------------------------------------------------------- printing

  /** hunl_infoset_key: sorts both card lists and prints the segments one by one. */
  method BuildKey(e: Encoding) returns (r: Result<string, string>)
    requires Shaped(e)
    ensures r.Success? <==> ValidEncoding(e)
    ensures r.Success? ==> r.value == KeyText(e)
  {
    var ok := Validate(e);
    if !ok {
      return Failure("invalid HUNL infoset encoding");
    }
    var history := PrintSegments(e);
    var out := CardsText(Sorted(e.hole)) +
    ("|" + (CardsText(Sorted(e.board[..e.boardCount])) + ("|" + ([StreetToken(e.street)] + ("|" + history)))));
    return Success(out);
  }

  method PrintSegments(e: Encoding) returns (out: string)
    requires ValidEncoding(e)
    ensures out == Printed(SegmentsOf(e))
  {
    hide Joined, Printed;
    ghost var codes := e.historyCodes[..e.historyCount];
    out := "";
    var offset := 0;
    var wroteSegment := false;
    assert codes[0..] == codes && e.streetLengths[0..] == e.streetLengths;
    for k := 0 to STREET_SLOTS
      invariant offset <= e.historyCount && Total(e.streetLengths[k..]) == |codes[offset..]|
      invariant ValidCodes(codes[offset..])
      invariant Printed(SegmentsOf(e)) == out + Continued(wroteSegment, Segments(e.streetLengths[k..], codes[offset..]))
    {
      var length := e.streetLengths[k];
      assert e.streetLengths[k..][1..] == e.streetLengths[k + 1..];
      assert codes[offset..][length..] == codes[offset + length..];
      if length != 0 {
        var segment := e.historyCodes[offset..offset + length];
        assert codes[offset..][..length] == segment;
        PrintedStep(out, wroteSegment, segment, Segments(e.streetLengths[k + 1..], codes[offset + length..]));
        if wroteSegment {
          out := out + "/";
        }
        out := AppendTokens(out, segment);
        offset := offset + length;
        wroteSegment := true;
      }
    }
  }

  method AppendTokens(before: string, segment: seq<int>) returns (out: string)
    requires ValidCodes(segment)
    ensures out == before + Joined(segment)
  {
    out := before;
    assert segment[0..] == segment;
    for i := 0 to |segment|
      invariant ValidCodes(segment[i..]) && before + Joined(segment) == out + Joined(segment[i..])
    {
      assert segment[i..][0] == segment[i] && segment[i..][1..] == segment[i + 1..];
      TextAssociates(out, Token(segment[i]), Joined(segment[i + 1..]));
      out := out + Token(segment[i]);
    }
    assert segment[|segment|..] == [];
  }

  lemma TextAssociates(a: string, b: string, c: string)
    ensures a + (b + c) == (a + b) + c
  {
  }

  /** What is still to be printed: a slash comes first once a segment has been written. */
  ghost function Continued(wrote: bool, rest: seq<seq<int>>): string
    requires ValidSegments(rest)
  {
    if rest == [] then "" else if wrote then "/" + Printed(rest) else Printed(rest)
  }

  lemma PrintedCons(segment: seq<int>, rest: seq<seq<int>>)
    requires ValidSegments([segment] + rest) && ValidSegments(rest) && ValidCodes(segment)
    ensures Printed([segment] + rest) == Joined(segment) + Continued(true, rest)
  {
    hide Joined;
    assert ([segment] + rest)[1..] == rest;
    assert ([segment] + rest)[0] == segment;
  }

  lemma PrintedStep(out: string, wrote: bool, segment: seq<int>, rest: seq<seq<int>>)
    requires ValidSegments([segment] + rest) && ValidSegments(rest) && ValidCodes(segment)
    ensures out + Continued(wrote, [segment] + rest) ==
            (if wrote then out + "/" else out) + Joined(segment) + Continued(true, rest)
  {
    hide Joined, Printed;
    PrintedCons(segment, rest);
    var text, tail := Joined(segment), Continued(true, rest);
    if wrote {
      assert out + ("/" + (text + tail)) == ((out + "/") + text) + tail;
    } else {
      assert out + (text + tail) == (out + text) + tail;
    }
  }
}
