/** The heads-up operations as the original carries them out, step by step on local copies. */
module HeadsUpMachine {
  import opened Arithmetic
  import opened Wrappers
  import opened CommonTypes
  import opened SeqFolds
  import opened Poker
  import opened HistoryText
  import opened InfosetKey
  import opened HeadsUpConfig
  import opened HeadsUpMenu
  import opened HeadsUpState
  import opened HeadsUpRuns
  import opened HeadsUpInfoset

  // ---------------------------------------------------------------- moves

  /** legal_actions. */
  method ListLegalActions(cfg: Config, s: State) returns (r: Result<seq<int>, string>)
    ensures r.Success? ==> r.value == Legal(cfg, s)
    ensures r.Failure? <==> !IsTerminal(s) && s.player != -1 && !MenuFits(ContextOf(cfg, s))
  {
    hide LegalActions, MayAggress, RaisesFit, BetsFit;
    if IsTerminal(s) || s.player == -1 {
      return Success([]);
    }
    var ctx := ContextOf(cfg, s);
    if !(0 <= ctx.pot <= INT_MAX) {
      return Failure(OVERFLOW);
    }
    r := EnumerateLegalActions(ctx);
  }

  /** apply_player: branch by branch on copies of the fields, then the street logic. */
  method ApplyPlayer(cfg: Config, s: State, action: int) returns (next: State)
    requires Sized(cfg, s, action) && s.street != Showdown && 0 <= s.player <= 1
    ensures next == AfterPlayer(cfg, s, action)
  {
    hide BetOf, RaiseOf, StreetComplete, Decimal, Transition, Refunded, BetFractions, RaiseMultipliers;
    var player, opponent := s.player, 1 - s.player;
    var contributions, stacks, folded, allIn := s.contributions, s.stacks, s.folded, s.allIn;
    var aggressor, raises, toCall := s.aggressor, s.raises, s.toCall;
    var token, code := "", 0;
    if action == FOLD {
      folded := folded.With(player, true);
      token, code := "f", FOLD_CODE;
    } else if action == CHECK {
      token, code := "x", CHECK_CODE;
    } else if action == CALL {
      var pay := Min(toCall, stacks.At(player));
      contributions := contributions.With(player, contributions.At(player) + pay);
      stacks := stacks.With(player, stacks.At(player) - pay);
      if stacks.At(player) == 0 {
        allIn := allIn.With(player, true);
      }
      toCall := 0;
      token, code := "c", CALL_CODE;
    } else if action == ALL_IN {
      var pay := stacks.At(player);
      contributions := contributions.With(player, contributions.At(player) + pay);
      stacks := stacks.With(player, 0);
      allIn := allIn.With(player, true);
      toCall := Max(contributions.At(player) - contributions.At(opponent), 0);
      aggressor, raises := player, raises + 1;
      token, code := "A", ALL_IN_CODE;
    } else if IsBet(action) {
      var amount := BetOf(ContextOf(cfg, s), action);
      contributions := contributions.With(player, contributions.At(player) + amount);
      stacks := stacks.With(player, stacks.At(player) - amount);
      if stacks.At(player) == 0 {
        allIn := allIn.With(player, true);
      }
      toCall := contributions.At(player) - contributions.At(opponent);
      aggressor, raises := player, raises + 1;
      token, code := "b" + IntText(amount), -amount;
    } else {
      var target := RaiseOf(ContextOf(cfg, s), action);
      var pay := target - contributions.At(player);
      contributions := contributions.With(player, target);
      stacks := stacks.With(player, stacks.At(player) - pay);
      if stacks.At(player) == 0 {
        allIn := allIn.With(player, true);
      }
      toCall := contributions.At(player) - contributions.At(opponent);
      aggressor, raises := player, raises + 1;
      token, code := "r" + IntText(target), target + ALL_IN_CODE;
    }
    next := s.(contributions := contributions, stacks := stacks, history := s.history + [action],
    tokens := s.tokens + [token], codes := s.codes + [code],
    aggressor := aggressor, raises := raises, toCall := toCall, folded := folded, allIn := allIn);
    assert next == Acted(cfg, s, action);
    hide Acted;
    next := ResolveStreet(s, action, next);
  }

  /** The second half of apply_player: who acts next, or how the street ends. */
  method ResolveStreet(s: State, action: int, after: State) returns (next: State)
    requires after.street != Showdown && 0 <= s.player <= 1
    ensures next == Resolved(s, action, after)
  {
    hide StreetComplete, Transition;
    next := after;
    if next.folded.zero || next.folded.one {
      next := next.(player := -1);
      return;
    }
    if StreetComplete(s, action, next) {
      next := BeginStreetTransition(next);
      return;
    }
    var player, opponent := s.player, 1 - s.player;
    if next.allIn.At(opponent) {
      var refund := Max(next.contributions.At(player) - next.contributions.At(opponent), 0);
      if refund > 0 {
        next := next.(contributions := next.contributions.With(player, next.contributions.At(player) - refund));
        next := next.(stacks := next.stacks.With(player, next.stacks.At(player) + refund));
        next := next.(allIn := next.allIn.With(player, next.stacks.At(player) == 0));
      }
      next := next.(toCall := 0);
      assert next == Refunded(after, player);
      next := BeginStreetTransition(next);
      return;
    }
    next := next.(player := opponent);
  }

  /** begin_street_transition. */
  method BeginStreetTransition(s: State) returns (next: State)
    requires s.street != Showdown
    ensures next == Transition(s)
  {
    next := s;
    next := next.(pastTokens := next.pastTokens + [next.tokens], tokens := []);
    next := next.(pastCodes := next.pastCodes + [next.codes], codes := []);
    if next.street == River {
      next := next.(street := Showdown, player := -1);
      return;
    }
    if next.allIn.zero || next.allIn.one {
      next := next.(player := -1, pendingDeals := 1, history := [], aggressor := -1, raises := 0, toCall := 0);
      return;
    }
    var street := StreetFromIndex(StreetIndex(next.street) + 1);
    next := next.(street := street.value, player := -1, pendingDeals := CardsToDeal(street.value));
    next := next.(history := [], aggressor := -1, raises := 0, toCall := 0);
  }

  /** apply. */
  method ApplyMove(cfg: Config, s: State, action: int) returns (r: Result<State, string>)
    requires -1 <= s.player <= 1
    ensures r.Success? <==> Apply(cfg, s, action).Success?
    ensures r.Success? ==> r == Apply(cfg, s, action)
  {
    hide Legal, AfterPlayer, MenuFits, Sized;
    if IsTerminal(s) {
      return Failure("terminal state");
    }
    if s.player == -1 {
      if !Dealable(s, action) {
        return Failure("illegal chance action");
      }
      var next := s.(board := s.board + [action]);
      next := next.(pendingDeals := next.pendingDeals - 1);
      if next.pendingDeals > 0 {
        return Success(next);
      }
      return Success(AfterBoardDealt(next));
    }
    var actions := ListLegalActions(cfg, s);
    NoMenuNoMove(cfg, s);
    if actions.Failure? || action !in actions.value {
      return Failure("illegal player action");
    }
    LegalIsSized(cfg, s, action);
    var next := ApplyPlayer(cfg, s, action);
    return Success(next);
  }

  lemma NoMenuNoMove(cfg: Config, s: State)
    ensures !MenuFits(ContextOf(cfg, s)) ==> Legal(cfg, s) == []
  {
  }

  lemma LegalIsSized(cfg: Config, s: State, action: int)
    requires action in Legal(cfg, s)
    ensures Sized(cfg, s, action)
  {
    ListedIsSized(cfg, s, action);
  }

  // ---------------------------------------------------------------- chance

  /** chance_outcomes: the cards of the deck nobody holds, each with the same probability. */
  method ChanceOutcomes(s: State) returns (out: seq<(nat, real)>)
    requires s.hole.Some? ==> CardsOk(s)
    ensures s.player != -1 || IsTerminal(s) || s.hole.None? ==> out == []
    ensures s.player == -1 && !IsTerminal(s) && s.hole.Some? ==>
              var cards := RemainingCards(Held(s), DECK);
              |out| == |cards| && forall i :: 0 <= i < |out| ==> out[i] == (cards[i], 1.0 / |cards| as real)
  {
    out := [];
    if s.player != -1 || IsTerminal(s) || s.hole.None? {
      return;
    }
    HeldCardsAreValid(s);
    var remaining := UnheldCards(Held(s));
    if remaining == [] {
      return;
    }
    var p := 1.0 / |remaining| as real;
    for i := 0 to |remaining|
      invariant |out| == i && forall j :: 0 <= j < i ==> out[j] == (remaining[j], p)
    {
      out := out + [(remaining[i], p)];
    }
  }

  /** The deck in order, without the cards marked as held. */
  method UnheldCards(all: seq<nat>) returns (remaining: seq<nat>)
    requires AllValid(all)
    ensures remaining == RemainingCards(all, DECK)
  {
    var held := new bool[64](_ => false);
    for i := 0 to |all|
      invariant forall c: nat :: c < 64 ==> (held[c] <==> c in all[..i])
    {
      assert all[..i + 1] == all[..i] + [all[i]];
      held[all[i]] := true;
    }
    assert all[..|all|] == all;
    remaining := [];
    for rank := 2 to 15
      invariant remaining == RemainingCards(all, 4 * (rank - 2))
    {
      for suit := 0 to 4
        invariant remaining == RemainingCards(all, 4 * (rank - 2) + suit)
      {
        var card := (rank - 2) * 4 + suit;
        if !held[card] {
          remaining := remaining + [card];
        }
      }
    }
  }

  lemma HeldCardsAreValid(s: State)
    requires s.hole.Some? && CardsOk(s)
    ensures AllValid(Held(s))
  {
  }

  // ---------------------------------------------------------------- infoset encoding

  /** infoset_encoding: fills the fixed arrays street by street. */
  method InfosetEncoding(s: State, player: int) returns (r: Result<Encoding, string>)
    ensures r == Encode(s, player)
  {
    FlatStreets(s);
    if player < 0 || player > 1 || s.hole.None? || |s.board| > BOARD_SLOTS || |s.pastCodes| > STREET_SLOTS {
      return Failure("HUNL state exceeds infoset encoding capacity");
    }
    var total := |s.codes|;
    ghost var past := s.pastCodes;
    assert past[0..] == past;
    for k := 0 to |s.pastCodes|
      invariant total + |Flat(past[k..])| == |s.codes| + |Flat(past)|
    {
      assert past[k..][0] == past[k] && past[k..][1..] == past[k + 1..];
      if |s.pastCodes[k]| > MAX_HISTORY_CODES - Min(total, MAX_HISTORY_CODES) {
        return Failure("HUNL state exceeds infoset encoding capacity");
      }
      total := total + |s.pastCodes[k]|;
    }
    assert past[|past|..] == [];
    if total > MAX_HISTORY_CODES || (s.codes != [] && |s.pastCodes| >= STREET_SLOTS) {
      return Failure("HUNL state exceeds infoset encoding capacity");
    }
    var e := FillEncoding(s, player);
    var ok := Validate(e);
    if !ok {
      return Failure("invalid HUNL infoset encoding");
    }
    return Success(e);
  }

  method FillEncoding(s: State, player: int) returns (e: Encoding)
    requires Encodable(s, player)
    ensures e == EncodingOf(s, player)
  {
    hide Sorted, Flat, Zeros, LengthsOf, Streets;
    var board := PackBoard(s.board);
    var hole := s.hole.value.At(player);
    var cards := [hole.first, hole.second];
    if hole.second < hole.first {
      cards := [hole.second, hole.first];
    }
    var lengths := StreetLengths(s);
    var codes, count := PackCodes(s);
    e := Encoding(cards, board, lengths, codes, |s.board|, s.street, count);
  }

  method PackBoard(cards: seq<nat>) returns (board: seq<nat>)
    requires |cards| <= BOARD_SLOTS
    ensures board == Sorted(cards) + Zeros(BOARD_SLOTS - |cards|)
  {
    var slots := new nat[BOARD_SLOTS](_ => 0);
    var sorted := Sorted(cards);
    for i := 0 to |sorted|
      invariant slots[..] == sorted[..i] + Zeros(BOARD_SLOTS - i)
    {
      slots[i] := sorted[i];
      assert slots[..] == sorted[..i + 1] + Zeros(BOARD_SLOTS - (i + 1));
    }
    assert sorted[..|sorted|] == sorted;
    board := slots[..];
  }

  method StreetLengths(s: State) returns (lengths: seq<nat>)
    requires |Streets(s)| <= STREET_SLOTS
    ensures lengths == LengthsOf(Streets(s)) + Zeros(STREET_SLOTS - |Streets(s)|)
  {
    var slots := new nat[STREET_SLOTS](_ => 0);
    for k := 0 to |s.pastCodes|
      invariant slots[..] == LengthsOf(s.pastCodes[..k]) + Zeros(STREET_SLOTS - k)
    {
      slots[k] := |s.pastCodes[k]|;
      assert slots[..] == LengthsOf(s.pastCodes[..k + 1]) + Zeros(STREET_SLOTS - (k + 1));
    }
    assert s.pastCodes[..|s.pastCodes|] == s.pastCodes;
    if s.codes != [] {
      slots[|s.pastCodes|] := |s.codes|;
      assert slots[..] == LengthsOf(Streets(s)) + Zeros(STREET_SLOTS - |Streets(s)|);
    }
    lengths := slots[..];
  }

  method PackCodes(s: State) returns (codes: seq<int>, count: nat)
    requires |Flat(Streets(s))| <= MAX_HISTORY_CODES
    ensures count == |Flat(Streets(s))| && codes == Flat(Streets(s)) + Zeros(MAX_HISTORY_CODES - count)
  {
    FlatStreets(s);
    var slots := new int[MAX_HISTORY_CODES](_ => 0);
    var offset := 0;
    ghost var past := s.pastCodes;
    assert past[..0] == [];
    for k := 0 to |s.pastCodes|
      invariant offset == |Flat(past[..k])| && |Flat(past[..k])| + |Flat(past[k..])| == |Flat(past)|
      invariant slots[..] == Flat(past[..k]) + Zeros(MAX_HISTORY_CODES - offset)
    {
      FlatNext(past, k);
      offset := CopyCodes(slots, offset, s.pastCodes[k], Flat(past[..k]));
    }
    assert past[..|past|] == past;
    offset := CopyCodes(slots, offset, s.codes, Flat(past));
    codes, count := slots[..], offset;
  }

  lemma FlatNext(past: seq<seq<int>>, k: nat)
    requires k < |past|
    ensures Flat(past[..k + 1]) == Flat(past[..k]) + past[k]
    ensures |Flat(past[k..])| == |past[k]| + |Flat(past[k + 1..])|
  {
    assert past[..k + 1] == past[..k] + [past[k]];
    FlatConcat(past[..k], [past[k]]);
    assert Flat([past[k]]) == past[k] + Flat([]);
    assert past[k..][1..] == past[k + 1..];
  }

  method CopyCodes(slots: array<int>, offset: nat, street: seq<int>, ghost before: seq<int>) returns (end: nat)
    requires slots.Length == MAX_HISTORY_CODES && offset == |before| && offset + |street| <= MAX_HISTORY_CODES
    requires slots[..] == before + Zeros(MAX_HISTORY_CODES - offset)
    modifies slots
    ensures end == offset + |street|
    ensures slots[..] == before + street + Zeros(MAX_HISTORY_CODES - end)
  {
    end := offset;
    for i := 0 to |street|
      invariant end == offset + i
      invariant slots[..] == before + street[..i] + Zeros(MAX_HISTORY_CODES - end)
    {
      slots[end] := street[i];
      end := end + 1;
      assert slots[..] == before + street[..i + 1] + Zeros(MAX_HISTORY_CODES - end);
    }
    assert street[..|street|] == street;
  }
}
