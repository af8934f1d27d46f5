/**
 The heads-up state machine: the root, player actions, street transitions, dealing, terminal values.
 States are values, as in the original, where every step copies the state it is asked about.
 */
module HeadsUpState {
  import opened Arithmetic
  import opened Wrappers
  import opened CommonTypes
  import opened Poker
  import opened HistoryText
  import opened HeadsUpConfig
  import opened HeadsUpMenu

  datatype State = State(
    hole: Option<Hole>,
    board: seq<nat>,
    street: Street,
    contributions: Pair<int>,
    stacks: Pair<int>,
    history: seq<int>,
    aggressor: int,
    raises: nat,
    toCall: int,
    player: int,
    folded: Pair<bool>,
    allIn: Pair<bool>,
    pastTokens: seq<seq<string>>,
    tokens: seq<string>,
    pastCodes: seq<seq<int>>,
    codes: seq<int>,
    pendingDeals: nat)

  // ---------------------------------------------------------------- the root

  /** HUNLState::initial on a validated configuration. */
  function Initial(cfg: Config): State {
    if cfg.startingStreet == Preflop then InitialPreflop(cfg)
    else
      var c := cfg.initialContributions;
      var toCall := if c.zero < c.one then c.one - c.zero else c.zero - c.one;
      var stacks := Pair(cfg.startingStack, cfg.startingStack);
      State(
        hole := cfg.initialHoleCards, board := cfg.initialBoard, street := cfg.startingStreet,
        contributions := c, stacks := stacks, history := [],
        aggressor := if c.zero < c.one then 1 else if c.one < c.zero then 0 else -1,
        raises := if toCall > 0 then 1 else 0, toCall := toCall,
        player := if stacks.zero == 0 || stacks.one == 0 || cfg.initialHoleCards.None? then -1
        else if c.zero < c.one then 0 else 1,
        folded := Pair(false, false), allIn := Pair(stacks.zero == 0, stacks.one == 0),
        pastTokens := [], tokens := [], pastCodes := [], codes := [], pendingDeals := 0)
  }

  function InitialPreflop(cfg: Config): State {
    var small := Max(cfg.smallBlind + cfg.ante, cfg.initialContributions.zero);
    var big := Max(cfg.bigBlind + cfg.ante, cfg.initialContributions.one);
    var stacks := Pair(cfg.startingStack - small, cfg.startingStack - big);
    State(
      hole := cfg.initialHoleCards, board := [], street := Preflop,
      contributions := Pair(small, big), stacks := stacks, history := [],
      aggressor := 1, raises := 1, toCall := big - small,
      player := if cfg.initialHoleCards.Some? then 0 else -1,
      folded := Pair(false, false), allIn := Pair(stacks.zero == 0, stacks.one == 0),
      pastTokens := [], tokens := [], pastCodes := [], codes := [], pendingDeals := 0)
  }

  /** clone_with_hole_cards. */
  function WithHoleCards(s: State, hole: Hole): Result<State, string> {
    if !ValidAndDistinct(s.board) || !ValidDeal(hole, s.board) then Failure("invalid deal")
    else
      Success(s.(hole := Some(hole),
              player := if s.player >= 0 then s.player
              else if s.street == Preflop || s.contributions.zero < s.contributions.one then 0 else 1))
  }

  // ---------------------------------------------------------------- queries

  predicate IsTerminal(s: State) {
    s.folded.zero || s.folded.one || s.street == Showdown
  }

  predicate SomeoneAllIn(s: State) {
    s.allIn.zero || s.allIn.one
  }

  function ContextOf(cfg: Config, s: State): Context {
    Context(cfg, Sum(s.contributions) + cfg.initialPot - Sum(cfg.initialContributions), s.toCall, s.stacks,
            s.contributions, Max(s.player, 0), s.street, s.raises, s.aggressor, |s.tokens|)
  }

  /** legal_actions; where its arithmetic guards throw there is nothing to play. */
  function Legal(cfg: Config, s: State): seq<int> {
    if IsTerminal(s) || s.player == -1 || !MenuFits(ContextOf(cfg, s)) then [] else LegalActions(ContextOf(cfg, s))
  }

  // ---------------------------------------------------------------- one player action

  predicate Aggressive(action: int) {
    action == ALL_IN || IsBet(action) || IsRaise(action)
  }

  /** The action is one the state's menus have a size for. */
  predicate Sized(cfg: Config, s: State, action: int) {
    var ctx := ContextOf(cfg, s);
    || action == FOLD || action == CHECK || action == CALL || action == ALL_IN
    || (IsBet(action) && action - FIRST_BET < |BetFractions(ctx)|)
    || (IsRaise(action) && action - FIRST_RAISE < |RaiseMultipliers(ctx)|)
  }

  /** Chips the action moves from the stack to the pot. */
  function Paid(cfg: Config, s: State, action: int): int
    requires Sized(cfg, s, action)
  {
    if action == CALL then Min(s.toCall, s.stacks.At(s.player))
    else if action == ALL_IN then s.stacks.At(s.player)
    else if IsBet(action) then BetOf(ContextOf(cfg, s), action)
    else if IsRaise(action) then RaiseOf(ContextOf(cfg, s), action) - s.contributions.At(s.player)
    else 0
  }

  /** The number recorded for the action: small for unsized ones, negative bet sizes, shifted raise targets. */
  function CodeOf(cfg: Config, s: State, action: int): int
    requires Sized(cfg, s, action)
  {
    if action == FOLD then FOLD_CODE
    else if action == CHECK then CHECK_CODE
    else if action == CALL then CALL_CODE
    else if action == ALL_IN then ALL_IN_CODE
    else if IsBet(action) then -BetOf(ContextOf(cfg, s), action)
    else RaiseOf(ContextOf(cfg, s), action) + ALL_IN_CODE
  }

  /** std::to_string of any integer. */
  function IntText(n: int): string {
    if n < 0 then "-" + Decimal(-n) else Decimal(n)
  }

  function TextOf(cfg: Config, s: State, action: int): string
    requires Sized(cfg, s, action)
  {
    if action == FOLD then "f"
    else if action == CHECK then "x"
    else if action == CALL then "c"
    else if action == ALL_IN then "A"
    else if IsBet(action) then "b" + IntText(BetOf(ContextOf(cfg, s), action))
    else "r" + IntText(RaiseOf(ContextOf(cfg, s), action))
  }

  /** Chips moved and the action recorded, before the street is looked at. */
  function Acted(cfg: Config, s: State, action: int): State
    requires Sized(cfg, s, action)
  {
    var p, paid := s.player, Paid(cfg, s, action);
    var contributions := s.contributions.With(p, s.contributions.At(p) + paid);
    var stacks := s.stacks.With(p, s.stacks.At(p) - paid);
    var ahead := contributions.At(p) - contributions.At(1 - p);
    s.(contributions := contributions, stacks := stacks,
    history := s.history + [action], tokens := s.tokens + [TextOf(cfg, s, action)],
    codes := s.codes + [CodeOf(cfg, s, action)],
    aggressor := if Aggressive(action) then p else s.aggressor,
    raises := if Aggressive(action) then s.raises + 1 else s.raises,
    toCall := if action == ALL_IN then Max(ahead, 0) else if Aggressive(action) then ahead
    else if action == CALL then 0 else s.toCall,
    folded := if action == FOLD then s.folded.With(p, true) else s.folded,
    allIn := if action == ALL_IN || ((action == CALL || Aggressive(action)) && stacks.At(p) == 0)
    then s.allIn.With(p, true) else s.allIn)
  }

  /** street_complete: `s` before the action, `after` with the action recorded. */
  predicate StreetComplete(s: State, action: int, after: State) {
    if action == FOLD || after.toCall > 0 then false
    else if action == ALL_IN then s.toCall > 0
    else if action == CHECK then
      || (s.aggressor == -1 && |after.history| >= 2)
      || (s.street == Preflop && s.player == 1 && s.aggressor == 1 && s.raises == 1)
    else if action == CALL then
      !(s.street == Preflop && s.aggressor == 1 - s.player && s.raises == 1 && s.player == 0)
    else false
  }

  function NextStreet(street: Street): (r: Street)
    requires street != Showdown
    ensures StreetIndex(r) == StreetIndex(street) + 1
  {
    match street
    case Preflop => Flop
    case Flop => Turn
    case Turn => River
    case River => Showdown
  }

  /** begin_street_transition: files the street's history and waits for cards, or goes to showdown. */
  function Transition(s: State): State
    requires s.street != Showdown
  {
    var filed := s.(pastTokens := s.pastTokens + [s.tokens], tokens := [],
    pastCodes := s.pastCodes + [s.codes], codes := [], player := -1);
    if s.street == River then filed.(street := Showdown)
    else
      var cleared := filed.(history := [], aggressor := -1, raises := 0, toCall := 0);
      if SomeoneAllIn(s) then cleared.(pendingDeals := 1)
      else cleared.(street := NextStreet(s.street), pendingDeals := CardsToDeal(NextStreet(s.street)))
  }

  /** What the opponent cannot match goes back to the player who put it in. */
  function Refunded(s: State, p: int): State {
    var refund := Max(s.contributions.At(p) - s.contributions.At(1 - p), 0);
    var stack := s.stacks.At(p) + refund;
    (if refund > 0 then
       s.(contributions := s.contributions.With(p, s.contributions.At(p) - refund),
       stacks := s.stacks.With(p, stack), allIn := s.allIn.With(p, stack == 0))
     else s).(toCall := 0)
  }

  /** Whose turn it is, or what happens to the street, once the action is recorded. */
  function Resolved(s: State, action: int, after: State): State
    requires after.street != Showdown
  {
    var p := s.player;
    if after.folded.zero || after.folded.one then after.(player := -1)
    else if StreetComplete(s, action, after) then Transition(after)
    else if after.allIn.At(1 - p) then Transition(Refunded(after, p))
    else after.(player := 1 - p)
  }

  function AfterPlayer(cfg: Config, s: State, action: int): State
    requires Sized(cfg, s, action) && s.street != Showdown
  {
    Resolved(s, action, Acted(cfg, s, action))
  }

  // ---------------------------------------------------------------- dealing

  /** after_board_dealt: betting resumes, or the run-out continues to showdown. */
  function AfterBoardDealt(s: State): State {
    if SomeoneAllIn(s) then
      if |s.board| >= 5 then s.(street := Showdown, player := -1) else s.(player := -1, pendingDeals := 1)
    else s.(player := 1)
  }

  function AfterChance(s: State, card: nat): State {
    var next := s.(board := s.board + [card], pendingDeals := if s.pendingDeals > 0 then s.pendingDeals - 1 else 0);
    if next.pendingDeals > 0 then next else AfterBoardDealt(next)
  }

  predicate Dealable(s: State, card: int) {
    && s.pendingDeals > 0 && s.hole.Some? && 0 <= card < DECK
    && card !in s.board && card !in HoleCards(s.hole.value)
  }

  /** HUNLState::apply: refuses terminal states, cards that cannot come and actions not on the menu. */
  function Apply(cfg: Config, s: State, action: int): Result<State, string> {
    if IsTerminal(s) then Failure("terminal state")
    else if s.player == -1 then
      if Dealable(s, action) then Success(AfterChance(s, action)) else Failure("illegal chance action")
    else if action in Legal(cfg, s) then
      ListedIsSized(cfg, s, action);
      Success(AfterPlayer(cfg, s, action))
    else Failure("illegal player action")
  }

  lemma ListedIsSized(cfg: Config, s: State, action: int)
    requires action in LegalActions(ContextOf(cfg, s))
    ensures Sized(cfg, s, action)
  {
    hide Offered, AllInWanted, MayAggress;
    var ctx := ContextOf(cfg, s);
    if action in Bets(ctx) || action in Raises(ctx) {
    } else {
      assert action == FOLD || action == CHECK || action == CALL || action == ALL_IN;
    }
  }

  /** The cards of the deck below `k` that are not held, in order. */
  function RemainingCards(held: seq<nat>, k: nat): (r: seq<nat>)
    ensures |r| <= k
  {
    if k == 0 then []
    else RemainingCards(held, k - 1) + (if k - 1 in held then [] else [k - 1])
  }

  lemma {:induction false} RemainingAreUnheld(held: seq<nat>, k: nat, c: nat)
    ensures c in RemainingCards(held, k) <==> c < k && c !in held
  {
    if k > 0 {
      RemainingAreUnheld(held, k - 1, c);
    }
  }

  function Held(s: State): seq<nat>
    requires s.hole.Some?
  {
    HoleCards(s.hole.value) + s.board
  }

  // ---------------------------------------------------------------- terminal values

  /** HUNLState::utility, with hand strength a parameter. */
  function Utility(cfg: Config, s: State, strength: seq<nat> -> int): Result<(real, real), string>
    requires cfg.bigBlind > 0
  {
    var bb := cfg.bigBlind as real;
    var put0 := (s.contributions.zero - cfg.initialContributions.zero) as real;
    var put1 := (s.contributions.one - cfg.initialContributions.one) as real;
    var pot := cfg.initialPot as real + put0 + put1;
    if s.folded.zero then Success((-put0 / bb, (pot - put1) / bb))
    else if s.folded.one then Success(((pot - put0) / bb, -put1 / bb))
    else if s.hole.None? || |s.board| < 5 then Failure("showdown requires dealt hole cards and 5-card board")
    else
      var hole := s.hole.value;
      var s0 := strength([hole.zero.first, hole.zero.second] + s.board[..5]);
      var s1 := strength([hole.one.first, hole.one.second] + s.board[..5]);
      if s0 > s1 then Success(((pot - put0) / bb, -put1 / bb))
      else if s1 > s0 then Success((-put0 / bb, (pot - put1) / bb))
      else Success(((pot / 2.0 - put0) / bb, (pot / 2.0 - put1) / bb))
  }

  /** Whatever the result, the two players share exactly the pot the hand started with. */
  lemma UtilitiesShareThePot(cfg: Config, s: State, strength: seq<nat> -> int)
    requires cfg.bigBlind > 0 && Utility(cfg, s, strength).Success?
    ensures var u := Utility(cfg, s, strength).value; u.0 + u.1 == cfg.initialPot as real / cfg.bigBlind as real
  {
    var bb := cfg.bigBlind as real;
    var put0 := (s.contributions.zero - cfg.initialContributions.zero) as real;
    var put1 := (s.contributions.one - cfg.initialContributions.one) as real;
    var pot := cfg.initialPot as real + put0 + put1;
    AddOverCommon(-put0, pot - put1, bb);
    AddOverCommon(pot - put0, -put1, bb);
    AddOverCommon(pot / 2.0 - put0, pot / 2.0 - put1, bb);
  }

  lemma AddOverCommon(a: real, b: real, d: real)
    requires d > 0.0
    ensures a / d + b / d == (a + b) / d
  {
  }
}
