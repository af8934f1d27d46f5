/**
 The two memo keys of the graph builders, on heads-up states: on reachable states either key determines
 the whole state, so sharing nodes by key never merges two different situations.
 */
module HeadsUpMemo {
  import opened Arithmetic
  import opened Wrappers
  import opened CommonTypes
  import opened SeqFolds
  import opened Poker
  import opened HistoryText
  import opened InfosetKey
  import opened HeadsUpConfig
  import opened HeadsUpState
  import opened HeadsUpRuns
  import opened HeadsUpInfoset

  // ---------------------------------------------------------------- the recursive builder's key

  datatype TreeKey = TreeKey(
    player: int,
    contributions: Pair<int>,
    stacks: Pair<int>,
    street: Street,
    history: seq<int>,
    completed: seq<string>,
    tokens: seq<string>,
    folded: Pair<bool>,
    allIn: Pair<bool>,
    board: seq<nat>,
    hole: Option<Hole>,
    pendingDeals: nat,
    toCall: int,
    raises: nat,
    aggressor: int)

  function JoinText(tokens: seq<string>): string {
    if tokens == [] then [] else tokens[0] + JoinText(tokens[1..])
  }

  /** MemoKey::from_state: completed streets are kept only as their joined text. */
  function TreeKeyOf(s: State): TreeKey {
    TreeKey(
      s.player, s.contributions, s.stacks, s.street, s.history,
      seq(|s.pastTokens|, i requires 0 <= i < |s.pastTokens| => JoinText(s.pastTokens[i])),
      s.tokens, s.folded, s.allIn, s.board, s.hole, s.pendingDeals, s.toCall, s.raises, s.aggressor)
  }

  // ---------------------------------------------------------------- the flat builder's key

  datatype FlatKey = FlatKey(
    player: int,
    contributions: Pair<int>,
    stacks: Pair<int>,
    history: seq<int>,
    folded: Pair<bool>,
    allIn: Pair<bool>,
    board: seq<nat>,
    hole: Hole,
    streetLengths: seq<nat>,
    historyCodes: seq<int>,
    street: Street,
    boardCount: nat,
    historyCount: nat,
    streetHistoryCount: nat,
    pendingDeals: nat,
    raises: nat,
    hasHole: bool,
    toCall: int,
    aggressor: int)

  const NO_HOLE: Hole := Pair(Hand(0, 0), Hand(0, 0))

  function Kept(past: seq<seq<int>>): (r: seq<seq<int>>)
    ensures |r| <= STREET_SLOTS
  {
    if |past| <= STREET_SLOTS then past else past[..STREET_SLOTS]
  }

  /** Lengths per street slot; the open street is written after the filed ones, at the last slot if all are taken. */
  function SlotLengths(s: State): (r: seq<nat>)
    ensures |r| == STREET_SLOTS
  {
    var filed := LengthsOf(Kept(s.pastCodes)) + Zeros(STREET_SLOTS - |Kept(s.pastCodes)|);
    if s.codes == [] then filed else filed[Min(|s.pastCodes|, STREET_SLOTS - 1) := |s.codes|]
  }

  /** HUNLFlatBuilderMemoKey::from_state; None where a fixed array is too small. */
  function FlatKeyOf(s: State): Option<FlatKey> {
    var codes := Flat(Kept(s.pastCodes)) + s.codes;
    if |s.history| > MAX_HISTORY_CODES || |s.board| > BOARD_SLOTS || |codes| > MAX_HISTORY_CODES then None
    else
      Some(FlatKey(
             s.player, s.contributions, s.stacks, s.history + Zeros(MAX_HISTORY_CODES - |s.history|),
             s.folded, s.allIn, s.board + Zeros(BOARD_SLOTS - |s.board|),
             if s.hole.Some? then s.hole.value else NO_HOLE,
             SlotLengths(s), codes + Zeros(MAX_HISTORY_CODES - |codes|), s.street, |s.board|, |codes|, |s.history|,
             s.pendingDeals, s.raises, s.hole.Some?, s.toCall, s.aggressor))
  }

  // ---------------------------------------------------------------- codes and tokens carry the same history

  lemma {:induction false} JoinTextSnoc(tokens: seq<string>, token: string)
    ensures JoinText(tokens + [token]) == JoinText(tokens) + token
  {
    if tokens == [] {
      assert tokens + [token] == [token];
      assert JoinText([token]) == token + JoinText([]);
    } else {
      assert (tokens + [token])[1..] == tokens[1..] + [token];
      JoinTextSnoc(tokens[1..], token);
    }
  }

  lemma {:induction false} JoinedSnoc(codes: seq<int>, code: int)
    requires ValidCodes(codes) && ValidCode(code)
    ensures Joined(codes + [code]) == Joined(codes) + Token(code)
  {
    hide Token;
    if codes == [] {
      assert codes + [code] == [code];
      assert Joined([code]) == Token(code) + Joined([]);
    } else {
      assert (codes + [code])[1..] == codes[1..] + [code];
      JoinedSnoc(codes[1..], code);
    }
  }

  lemma {:induction false} TokensJoin(codes: seq<int>)
    requires ValidCodes(codes)
    ensures JoinText(TokensOf(codes)) == Joined(codes)
  {
    hide Token, Joined, JoinText;
    if codes == [] {
      assert JoinText([]) == [] == Joined([]) by {
        NothingJoins();
      }
    } else {
      var front, last := codes[..|codes| - 1], codes[|codes| - 1];
      TokensJoin(front);
      JoinTextSnoc(TokensOf(front), Token(last));
      JoinedSnoc(front, last);
      assert codes == front + [last];
    }
  }

  lemma NothingJoins()
    ensures JoinText([]) == [] && Joined([]) == []
  {
  }

  /** Streets with the same joined text hold the same codes and the same tokens. */
  lemma SameTextSameStreet(codes: seq<int>, tokens: seq<string>, codes': seq<int>, tokens': seq<string>)
    requires StreetOk(codes, tokens) && StreetOk(codes', tokens') && JoinText(tokens) == JoinText(tokens')
    ensures codes == codes' && tokens == tokens'
  {
    TokensJoin(codes);
    TokensJoin(codes');
    JoinedInjective(codes, codes');
  }

  // ---------------------------------------------------------------- both keys are injective

  lemma TreeKeyInjective(cfg: Config, s: State, t: State)
    requires Reachable(cfg, s) && Reachable(cfg, t) && TreeKeyOf(s) == TreeKeyOf(t)
    ensures s == t
  {
    var a, b := TreeKeyOf(s), TreeKeyOf(t);
    hide Phase, ChipsOk, CardsOk, JoinText, StreetOk;
    SameTextSameStreet(s.codes, s.tokens, t.codes, t.tokens);
    assert |a.completed| == |s.pastTokens| && |b.completed| == |t.pastTokens|;
    forall i | 0 <= i < |s.pastCodes| ensures s.pastCodes[i] == t.pastCodes[i] && s.pastTokens[i] == t.pastTokens[i] {
      assert a.completed[i] == JoinText(s.pastTokens[i]) && b.completed[i] == JoinText(t.pastTokens[i]);
      SameTextSameStreet(s.pastCodes[i], s.pastTokens[i], t.pastCodes[i], t.pastTokens[i]);
    }
    assert s.pastCodes == t.pastCodes && s.pastTokens == t.pastTokens;
  }

  lemma SlotsHoldStreets(s: State)
    requires |s.pastCodes| <= 4 && (s.codes != [] ==> |s.pastCodes| <= 3)
    ensures Kept(s.pastCodes) == s.pastCodes
    ensures SlotLengths(s) == LengthsOf(Streets(s)) + Zeros(STREET_SLOTS - |Streets(s)|)
  {
  }

  /** No reachable state overflows the key's arrays, and the slots hold exactly its streets. */
  lemma FlatKeyHolds(cfg: Config, s: State)
    requires ValidConfig(cfg) && Reachable(cfg, s)
    ensures FlatKeyOf(s).Some?
    ensures var k := FlatKeyOf(s).value;
            && k.historyCount <= MAX_HISTORY_CODES && k.historyCodes[..k.historyCount] == Flat(Streets(s))
            && Total(k.streetLengths) == k.historyCount
            && Segments(k.streetLengths, k.historyCodes[..k.historyCount]) == Streets(s)
            && k.streetHistoryCount <= MAX_HISTORY_CODES && k.history[..k.streetHistoryCount] == s.history
            && k.boardCount <= BOARD_SLOTS && k.board[..k.boardCount] == s.board
  {
    hide ValidConfig, Reachable, Flat, Segments, Total, Streets, SlotLengths, LengthsOf, Kept;
    ReachableStreets(cfg, s);
    HistoryFits(cfg, s);
    FlatStreets(s);
    assert Encodable(s, 0);
    SegmentsOfPadded(Streets(s), STREET_SLOTS - |Streets(s)|);
    HistoryShort(cfg, s);
    SlotsHoldStreets(s);
    PaddingIsZero(Flat(Streets(s)), MAX_HISTORY_CODES);
    PaddingIsZero(s.history, MAX_HISTORY_CODES);
    PaddingIsZero(s.board, BOARD_SLOTS);
  }

  lemma HistoryShort(cfg: Config, s: State)
    requires Reachable(cfg, s)
    ensures s.street != Showdown ==> |s.history| == |s.codes|
    ensures s.street == Showdown ==> s.codes == []
    ensures |s.history| <= STREET_LIMIT
  {
    hide ChipsOk, CardsOk;
  }

  /** Which streets are filed and which one is open can be read off the street and its action list. */
  lemma SameStreetsSameHistory(cfg: Config, s: State, t: State)
    requires Reachable(cfg, s) && Reachable(cfg, t) && Streets(s) == Streets(t)
    requires s.street == t.street && |s.history| == |t.history|
    ensures s.pastCodes == t.pastCodes && s.codes == t.codes && s.pastTokens == t.pastTokens && s.tokens == t.tokens
  {
    HistoryShort(cfg, s);
    HistoryShort(cfg, t);
    hide ChipsOk, CardsOk, Phase, ValidCodes;
    assert s.codes == [] <==> t.codes == [];
    if s.codes != [] {
      assert Streets(s)[|Streets(s)| - 1] == s.codes && Streets(t)[|Streets(t)| - 1] == t.codes;
      assert Streets(s)[..|Streets(s)| - 1] == s.pastCodes && Streets(t)[..|Streets(t)| - 1] == t.pastCodes;
    }
    forall i | 0 <= i < |s.pastCodes| ensures s.pastTokens[i] == t.pastTokens[i] {
      assert StreetOk(s.pastCodes[i], s.pastTokens[i]) && StreetOk(t.pastCodes[i], t.pastTokens[i]);
    }
    assert s.pastTokens == t.pastTokens;
  }

  lemma FlatKeyInjective(cfg: Config, s: State, t: State)
    requires ValidConfig(cfg) && Reachable(cfg, s) && Reachable(cfg, t) && FlatKeyOf(s) == FlatKeyOf(t)
    ensures s == t
  {
    FlatKeyHolds(cfg, s);
    FlatKeyHolds(cfg, t);
    hide ValidConfig, ChipsOk, HistoryOk, Phase, Segments, Total, Flat, Streets, SlotLengths;
    assert s.street == t.street && s.history == t.history && s.board == t.board;
    assert s.hole == t.hole;
    SameStreetsSameHistory(cfg, s, t);
  }
}
