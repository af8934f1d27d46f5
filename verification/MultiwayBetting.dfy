/**
 The multiway betting table as a value, and what each operation of the fixed-capacity
 machine makes of it.  The imperative machine is MultiwayFixedState.dfy; it is proved
 against the functions below.
 */
module MultiwayBetting {
  import opened Arithmetic
  import opened Wrappers
  import opened CommonTypes

  datatype Action = Fold | Check | Call | Bet | Raise | AllIn

  datatype NodeKind = BettingDecision | StreetTransition | BoardRunout | FoldTerminal | ShowdownTerminal

  datatype BettingError =
    | InvalidConfig
    | InvalidState
    | IllegalAction
    | InvalidRaiseTarget
    | BelowMinimumRaise
    | ExceedsStack
    | InvalidTransition
    | InvalidSnapshot
    | RoundComplete
    | WrongActor

  /** Everything the machine stores about one seat. */
  datatype Seat = Seat(
    stack: int,
    total: int,
    street: int,
    folded: bool,
    allIn: bool,
    mayRaise: bool,
    pending: bool,
    hasActed: bool,
    betFaced: int)
  {
    predicate Actionable() {
      !folded && !allIn
    }

    predicate OwesResponse() {
      pending && Actionable()
    }
  }

  datatype Table = Table(
    seats: seq<Seat>,
    current: int,
    aggressor: int,
    bet: int,
    minRaise: int,
    bigBlind: int,
    street: Street)

  // ---------------------------------------------------------------- counting seats

  function CountLive(seats: seq<Seat>): (count: nat)
    ensures count <= |seats|
  {
    if seats == [] then 0
    else CountLive(seats[..|seats| - 1]) + if seats[|seats| - 1].folded then 0 else 1
  }

  function CountActionable(seats: seq<Seat>): (count: nat)
    ensures count <= |seats|
  {
    if seats == [] then 0
    else CountActionable(seats[..|seats| - 1]) + if seats[|seats| - 1].Actionable() then 1 else 0
  }

  function CountPending(seats: seq<Seat>): (count: nat)
    ensures count <= |seats|
  {
    if seats == [] then 0
    else CountPending(seats[..|seats| - 1]) + if seats[|seats| - 1].pending then 1 else 0
  }

  predicate AtMostOneLive(seats: seq<Seat>) {
    forall i, j :: 0 <= i < j < |seats| ==> seats[i].folded || seats[j].folded
  }

  predicate AtMostOneActionable(seats: seq<Seat>) {
    forall i, j :: 0 <= i < j < |seats| ==> !seats[i].Actionable() || !seats[j].Actionable()
  }

  lemma {:induction false} NoLiveSeatCounted(seats: seq<Seat>)
    ensures CountLive(seats) == 0 <==> forall i :: 0 <= i < |seats| ==> seats[i].folded
  {
    if seats != [] {
      NoLiveSeatCounted(seats[..|seats| - 1]);
    }
  }

  /** The counter used by the code is at most one exactly when no two seats are live. */
  lemma {:induction false} LiveCountMeaning(seats: seq<Seat>)
    ensures CountLive(seats) <= 1 <==> AtMostOneLive(seats)
  {
    if seats != [] {
      var front := seats[..|seats| - 1];
      LiveCountMeaning(front);
      NoLiveSeatCounted(front);
      if !seats[|seats| - 1].folded && CountLive(front) > 0 {
        var i :| 0 <= i < |front| && !front[i].folded;
        assert !seats[i].folded;
      }
      if !AtMostOneLive(front) {
        var i, j :| 0 <= i < j < |front| && !front[i].folded && !front[j].folded;
        assert !seats[i].folded && !seats[j].folded;
      }
    }
  }

  lemma {:induction false} NoActionableSeatCounted(seats: seq<Seat>)
    ensures CountActionable(seats) == 0 <==> forall i :: 0 <= i < |seats| ==> !seats[i].Actionable()
  {
    if seats != [] {
      NoActionableSeatCounted(seats[..|seats| - 1]);
    }
  }

  lemma {:induction false} ActionableCountMeaning(seats: seq<Seat>)
    ensures CountActionable(seats) <= 1 <==> AtMostOneActionable(seats)
  {
    if seats != [] {
      var front := seats[..|seats| - 1];
      ActionableCountMeaning(front);
      NoActionableSeatCounted(front);
      if seats[|seats| - 1].Actionable() && CountActionable(front) > 0 {
        var i :| 0 <= i < |front| && front[i].Actionable();
        assert seats[i].Actionable();
      }
      if !AtMostOneActionable(front) {
        var i, j :| 0 <= i < j < |front| && front[i].Actionable() && front[j].Actionable();
        assert seats[i].Actionable() && seats[j].Actionable();
      }
    }
  }

  // ---------------------------------------------------------------- selecting a seat

  /** The lowest seat from `from` on that satisfies `p`, or -1. */
  function FirstSeat(seats: seq<Seat>, p: Seat -> bool, from: nat): (r: int)
    requires from <= |seats|
    ensures r == -1 || from <= r < |seats|
    ensures r == -1 <==> forall i :: from <= i < |seats| ==> !p(seats[i])
    ensures r >= 0 ==> p(seats[r]) && forall i :: from <= i < r ==> !p(seats[i])
    decreases |seats| - from
  {
    if from == |seats| then -1
    else if p(seats[from]) then from
    else FirstSeat(seats, p, from + 1)
  }

  /** The seat `offset` places clockwise of `player`, where -1 stands before seat 0. */
  function SeatAfter(player: int, offset: nat, n: nat): (seat: nat)
    requires n > 0 && -1 <= player < n && 1 <= offset <= n
    ensures seat < n
  {
    if player + offset >= n then player + offset - n else player + offset
  }

  /** The first seat clockwise of `player` that still owes a response, or -1. */
  function NextPendingFrom(seats: seq<Seat>, player: int, offset: nat): (r: int)
    requires |seats| > 0 && -1 <= player < |seats| && 1 <= offset <= |seats| + 1
    ensures -1 <= r < |seats|
    ensures r >= 0 ==> seats[r].OwesResponse()
    ensures r == -1 ==>
              forall o :: offset <= o <= |seats| ==> !seats[SeatAfter(player, o, |seats|)].OwesResponse()
    decreases |seats| + 1 - offset
  {
    if offset > |seats| then -1
    else if seats[SeatAfter(player, offset, |seats|)].OwesResponse() then SeatAfter(player, offset, |seats|)
    else NextPendingFrom(seats, player, offset + 1)
  }

  /** Going round the ring once passes every seat. */
  lemma RingCoversSeat(player: int, i: nat, n: nat) returns (offset: nat)
    requires -1 <= player < n && i < n
    ensures 1 <= offset <= n && SeatAfter(player, offset, n) == i
  {
    offset := if i > player then i - player else i - player + n;
  }

  lemma NobodyFoundMeansNobodyOwes(seats: seq<Seat>, player: int)
    requires |seats| > 0 && -1 <= player < |seats|
    requires NextPendingFrom(seats, player, 1) == -1
    ensures forall i :: 0 <= i < |seats| ==> !seats[i].OwesResponse()
  {
    forall i | 0 <= i < |seats|
      ensures !seats[i].OwesResponse()
    {
      var offset := RingCoversSeat(player, i, |seats|);
    }
  }

  function NextPendingAfter(seats: seq<Seat>, player: int): (r: int)
    requires |seats| > 0 && -1 <= player < |seats|
    ensures -1 <= r < |seats|
    ensures r >= 0 ==> seats[r].OwesResponse()
    ensures r == -1 <==> forall i :: 0 <= i < |seats| ==> !seats[i].OwesResponse()
  {
    var r := NextPendingFrom(seats, player, 1);
    if r == -1 then
      NobodyFoundMeansNobodyOwes(seats, player);
      r
    else r
  }

  // ---------------------------------------------------------------- closing a round

  function Clear(s: Seat): Seat {
    s.(pending := false, mayRaise := false)
  }

  /** What refresh_round_completion leaves: who acts next once the flags are set. */
  function Refresh(t: Table): Table {
    if AtMostOneLive(t.seats) then
      t.(current := -1, seats := seq(|t.seats|, i requires 0 <= i < |t.seats| => Clear(t.seats[i])))
    else if AtMostOneActionable(t.seats) then
      t.(current := FirstSeat(t.seats, (s: Seat) => s.OwesResponse() && s.street < t.bet, 0))
    else
      var first := FirstSeat(t.seats, (s: Seat) => s.OwesResponse(), 0);
      if first == -1 then t.(current := -1)
      else if t.current < 0 then t.(current := first)
      else t
  }

  function ReopenedBy(seats: seq<Seat>, aggressor: int): seq<Seat> {
    seq(|seats|, i requires 0 <= i < |seats| =>
      var owes := i != aggressor && seats[i].Actionable();
      seats[i].(pending := owes, mayRaise := owes))
  }

  function RaiseRight(s: Seat, bet: int, minRaise: int): bool {
    !s.hasActed || bet - s.betFaced >= minRaise
  }

  function ShortRaiseSeat(s: Seat, bet: int, minRaise: int): Seat {
    if !s.Actionable() then s
    else s.(pending := s.pending || s.street < bet, mayRaise := RaiseRight(s, bet, minRaise))
  }

  function ReopenedByShort(seats: seq<Seat>, aggressor: int, bet: int, minRaise: int): seq<Seat> {
    seq(|seats|, i requires 0 <= i < |seats| =>
      if i == aggressor then seats[i] else ShortRaiseSeat(seats[i], bet, minRaise))
  }

  // ---------------------------------------------------------------- the operations

  predicate BettingStreet(street: Street) {
    !street.Showdown?
  }

  predicate FixedSeatValid(s: Seat) {
    && s.stack >= 0 && s.total >= 0 && 0 <= s.street <= s.total
    && s.allIn == (s.stack == 0)
    && (s.folded || s.allIn ==> !s.mayRaise && !s.pending)
  }

  /** MultiwayFixedState::validate. */
  predicate FixedValid(t: Table) {
    && 2 <= |t.seats| <= MAX_SEATS
    && t.bigBlind > 0 && t.minRaise > 0 && t.bet >= 0
    && BettingStreet(t.street)
    && -1 <= t.current < |t.seats| && -1 <= t.aggressor < |t.seats|
    && forall i :: 0 <= i < |t.seats| ==> FixedSeatValid(t.seats[i])
  }

  function NextNodeKind(t: Table): NodeKind {
    if AtMostOneLive(t.seats) then FoldTerminal
    else if t.current >= 0 then BettingDecision
    else if AtMostOneActionable(t.seats) && t.street != River then BoardRunout
    else if t.street == River then ShowdownTerminal
    else StreetTransition
  }

  predicate NobodyActed(seats: seq<Seat>) {
    forall i :: 0 <= i < |seats| ==> !seats[i].hasActed
  }

  function LegalActions(t: Table): seq<Action>
    requires t.current < |t.seats|
  {
    if t.current < 0 then []
    else
      var s := t.seats[t.current];
      var facing := t.bet - s.street > 0;
      var allInTarget := s.street + s.stack;
      var mayReopen := !AtMostOneActionable(t.seats) && s.mayRaise;
      (if facing then [Fold, Call] else [Check])
      + (if mayReopen && allInTarget > t.bet + t.minRaise
         then [if facing && !(t.street == Preflop && NobodyActed(t.seats)) then Raise else Bet]
         else [])
      + (if mayReopen && allInTarget > t.bet then [AllIn] else [])
  }

  function Pay(s: Seat, amount: int): Seat {
    s.(stack := s.stack - amount, total := s.total + amount, street := s.street + amount,
       allIn := s.stack == amount)
  }

  function Acted(s: Seat, bet: int): Seat {
    s.(pending := false, mayRaise := false, hasActed := true, betFaced := bet)
  }

  /** The table after `t.current` has moved its street total to `target`, above the current bet. */
  function Raised(t: Table, target: int): Table
    requires 0 <= t.current < |t.seats|
  {
    var s := t.seats[t.current];
    var raiseSize := target - t.bet;
    var paid := Pay(s, target - s.street).(hasActed := true, betFaced := target);
    if raiseSize >= t.minRaise then
      t.(seats := ReopenedBy(t.seats[t.current := paid], t.current),
         bet := target, aggressor := t.current, minRaise := raiseSize)
    else
      t.(seats := ReopenedByShort(t.seats[t.current := Clear(paid)], t.current, target, t.minRaise),
         bet := target, aggressor := t.current)
  }

  function PassTurn(t: Table): Table
    requires 0 <= t.current < |t.seats|
  {
    Refresh(t.(current := NextPendingAfter(t.seats, t.current)))
  }

  /** The table once the acting seat's chips and flags are updated, before the turn passes. */
  function Moved(t: Table, action: Action, target: int): Table
    requires 0 <= t.current < |t.seats|
  {
    var s := t.seats[t.current];
    match action
    case Fold => t.(seats := t.seats[t.current := Acted(s.(folded := true), t.bet)])
    case Check => t.(seats := t.seats[t.current := Acted(s, t.bet)])
    case Call => t.(seats := t.seats[t.current := Acted(Pay(s, Min(t.bet - s.street, s.stack)), t.bet)])
    case AllIn => Raised(t, s.street + s.stack)
    case _ => Raised(t, target)
  }

  /** Why the chips of a listed action cannot be moved, if they cannot. */
  function TargetRefusal(t: Table, action: Action, target: int): Option<BettingError>
    requires 0 <= t.current < |t.seats|
  {
    if !(action.Bet? || action.Raise?) then None
    else if target <= t.bet || target >= t.seats[t.current].street + t.seats[t.current].stack then
      Some(InvalidRaiseTarget)
    else if target < t.seats[t.current].street then Some(ExceedsStack)
    else if target - t.bet < t.minRaise then Some(BelowMinimumRaise)
    else None
  }

  /** Why an action is refused, if it is. */
  function Refusal(t: Table, action: Action, target: int): Option<BettingError> {
    if !FixedValid(t) then Some(InvalidState)
    else if t.current < 0 || action !in LegalActions(t) then Some(IllegalAction)
    else TargetRefusal(t, action, target)
  }

  /** MultiwayFixedState::apply. */
  function Apply(t: Table, action: Action, target: int): Result<Table, BettingError> {
    match Refusal(t, action, target)
    case Some(e) => Failure(e)
    case None => Success(PassTurn(Moved(t, action, target)))
  }

  function FreshSeat(s: Seat): Seat {
    s.(street := 0, pending := s.Actionable(), mayRaise := s.Actionable(), hasActed := false, betFaced := 0)
  }

  function FreshSeats(seats: seq<Seat>): (r: seq<Seat>)
    ensures |r| == |seats|
    ensures forall i :: 0 <= i < |seats| ==> r[i] == FreshSeat(seats[i])
  {
    seq(|seats|, i requires 0 <= i < |seats| => FreshSeat(seats[i]))
  }

  function StreetOpened(t: Table, next: Street, first: int): Table
    requires 0 <= first < |t.seats|
  {
    var seats := FreshSeats(t.seats);
    t.(seats := seats, street := next, bet := 0, minRaise := t.bigBlind, aggressor := -1,
       current := NextPendingAfter(seats, first - 1))
  }

  /** MultiwayFixedState::begin_next_street. */
  function BeginNextStreet(t: Table, next: Street, first: int): Result<Table, BettingError> {
    if !FixedValid(t) then Failure(InvalidState)
    else if NextNodeKind(t) != StreetTransition || !BettingStreet(next)
            || StreetIndex(next) != StreetIndex(t.street) + 1 || first < 0 || first >= |t.seats| then
      Failure(InvalidTransition)
    else
      Success(Refresh(StreetOpened(t, next, first)))
  }

  // ---------------------------------------------------------------- roots and runs

  datatype GameConfig = GameConfig(
    startingStacks: seq<int>,
    initialContributions: seq<int>,
    initialStreetContributions: seq<int>,
    firstPlayer: int,
    bigBlind: int,
    street: Street)
  {
    function StreetContribution(i: nat): int
      requires initialStreetContributions == [] || i < |initialStreetContributions|
    {
      if initialStreetContributions == [] then 0 else initialStreetContributions[i]
    }

    /** MultiwayGameConfig::validate; the rake policy is validated at settlement. */
    predicate Valid() {
      && 2 <= |startingStacks| <= MAX_SEATS
      && |initialContributions| == |startingStacks|
      && (initialStreetContributions == [] || |initialStreetContributions| == |startingStacks|)
      && 0 <= firstPlayer < |startingStacks|
      && bigBlind > 0 && BettingStreet(street)
      && forall i :: 0 <= i < |startingStacks| ==>
                       && 0 <= startingStacks[i]
                       && 0 <= StreetContribution(i) <= initialContributions[i] <= startingStacks[i]
    }
  }

  function RootSeat(config: GameConfig, i: nat): Seat
    requires config.Valid() && i < |config.startingStacks|
  {
    var stack := config.startingStacks[i] - config.initialContributions[i];
    Seat(stack, config.initialContributions[i], config.StreetContribution(i), false, stack == 0,
         stack != 0, stack != 0, false, 0)
  }

  function HighestStreet(seats: seq<Seat>): (bet: int)
    ensures bet >= 0
    ensures forall i :: 0 <= i < |seats| ==> seats[i].street <= bet
    ensures bet == 0 || exists i :: 0 <= i < |seats| && seats[i].street == bet
  {
    if seats == [] then 0
    else Max(HighestStreet(seats[..|seats| - 1]), seats[|seats| - 1].street)
  }

  function RootSeats(config: GameConfig): (seats: seq<Seat>)
    requires config.Valid()
    ensures |seats| == |config.startingStacks|
    ensures forall i :: 0 <= i < |seats| ==> seats[i] == RootSeat(config, i)
  {
    seq(|config.startingStacks|, i requires 0 <= i < |config.startingStacks| => RootSeat(config, i))
  }

  function Dealt(config: GameConfig): Table
    requires config.Valid()
  {
    var seats := RootSeats(config);
    Table(seats, NextPendingAfter(seats, config.firstPlayer - 1), -1, HighestStreet(seats),
          config.bigBlind, config.bigBlind, config.street)
  }

  /** make_multiway_fixed_state(config). */
  function Root(config: GameConfig): Result<Table, BettingError> {
    if config.Valid() then Success(Refresh(Dealt(config))) else Failure(InvalidConfig)
  }

  datatype Rules = Rules(playerCount: int, initialStack: int, smallBlind: int, bigBlind: int) {
    /** MultiwayGameRules::validate without the version, ante, straddle and rebuy switches. */
    predicate Valid() {
      && 2 <= playerCount <= MAX_SEATS
      && 0 < smallBlind <= bigBlind <= initialStack
    }

    /** The seat `back` places before `first` in the table ring. */
    function SeatBefore(first: int, back: nat): int
      requires Valid()
    {
      if first >= back then first - back else first + playerCount - back
    }

    function SmallBlindSeat(first: int): int
      requires Valid()
    {
      SeatBefore(first, 2)
    }

    function BigBlindSeat(first: int): int
      requires Valid()
    {
      SeatBefore(first, 1)
    }

    function Posted(first: int, i: int): int
      requires Valid()
    {
      if i == BigBlindSeat(first) then bigBlind else if i == SmallBlindSeat(first) then smallBlind else 0
    }
  }

  /** The blinds sit where the source's ring arithmetic puts them, on two different seats. */
  lemma BlindSeats(rules: Rules, first: int)
    requires rules.Valid() && 0 <= first < rules.playerCount
    ensures rules.SmallBlindSeat(first) == (first + rules.playerCount - 2) % rules.playerCount
    ensures rules.BigBlindSeat(first) == (first + rules.playerCount - 1) % rules.playerCount
    ensures rules.SmallBlindSeat(first) != rules.BigBlindSeat(first)
  {
    RingWrap(first + rules.playerCount - 2, rules.playerCount);
    RingWrap(first + rules.playerCount - 1, rules.playerCount);
  }

  /** MultiwayGameRules::make_initial_game_config. */
  function BlindConfig(rules: Rules, first: int): Result<GameConfig, BettingError> {
    if !rules.Valid() || first < 0 || first >= rules.playerCount then Failure(InvalidConfig)
    else
      var posted := seq(rules.playerCount, i requires 0 <= i < rules.playerCount => rules.Posted(first, i));
      Success(GameConfig(seq(rules.playerCount, i => rules.initialStack), posted, posted, first,
                         rules.bigBlind, Preflop))
  }

  function RulesRoot(rules: Rules, first: int): Result<Table, BettingError> {
    match BlindConfig(rules, first)
    case Failure(e) => Failure(e)
    case Success(config) => Root(config)
  }

  datatype Event =
    | Decision(seat: int, action: Action, target: int)
    | StreetStart(next: Street, first: int)

  /** One event of a replayed hand, on the fixed machine. */
  function Step(t: Table, event: Event): Result<Table, BettingError> {
    match event
    case Decision(seat, action, target) =>
      if NextNodeKind(t) != BettingDecision || seat != t.current then Failure(WrongActor)
      else Apply(t, action, target)
    case StreetStart(next, first) =>
      BeginNextStreet(t, next, first)
  }

  function Run(root: Table, events: seq<Event>): Result<Table, BettingError> {
    if events == [] then Success(root)
    else
      match Run(root, events[..|events| - 1])
      case Failure(e) => Failure(e)
      case Success(t) => Step(t, events[|events| - 1])
  }
}
