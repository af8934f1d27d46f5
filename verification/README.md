# A verified model of the poker solver's core

This project models the integer, graph and allocation core of the solver in Dafny and proves what that core
promises. It covers six connected parts.

* **Multiway betting and settlement.** An n-seat no-limit betting machine with pending flags, raise rights, short
  all-ins and street transitions; the validated snapshots of its vector twin; the side-pot settlement that follows.
  The two halves meet in one theorem: what betting maintains is what makes settlement total
  (`MultiwayHand.RunsAlwaysSettle`).
* **Solve-graph construction.** A memoised recursive builder, an explicit-stack builder of the same graph, the
  flattening pass, the infoset records, the topological sort with longest-path depths, and the slices and worker
  ranges. They are proved for any finite game, joined (a graph that can be laid out is never refused by the sort, and
  its depth slices are the plies of the game), and then instantiated for heads-up play.
* **Heads-up betting.** The state machine, its menus and rounding, whole-run bounds, the two memo keys, infoset
  encodings, and the claim that information sets never conflict.
* **Printed histories and the infoset registry.** The text key of an encoding says exactly what the encoding holds;
  ids and keys stay in bijection through one entry point.
* **Private ranges.** The backtracking feasibility search with its node budget, the sequential sampler over exact
  reals, and the compiled ranges.
* **The arena.** Alignment, overflow checks, the retry loop, and stack-like mark and release.

The state-changing code is written as it is in the original: classes whose methods update fields, arrays worked on in
place, loops with invariants. Each such method is proved equal to a function, and the theorems are about that function.
What the functions themselves mean is stated apart from their bodies, from seats, chips, cards and events alone:
`MultiwayDecisions` and `MultiwayHistory` for betting, `MultiwayPayouts` for settlement, `GraphRecords` and
`HeadsUpRecords` for the arrays of the solve graph, `HeadsUpTurns` and `HeadsUpOutcomes` for heads-up play.
C++ exceptions are `Failure` values, so an error path is part of each contract. A boundary on chips or indices is
modelled where the code checks one.

## How to read the modules

| modules | source |
|---|---|
| MultiwayBetting, MultiwayInvariant, MultiwayProgress, MultiwayRuns, MultiwaySnapshot, MultiwayReplay, MultiwayFixedState, MultiwayVectorState, MultiwayStranding, MultiwayDecisions, MultiwayHistory | multiway_fixed.cpp, multiway_state.cpp, multiway_rules.cpp, multiway_replay.cpp |
| MultiwayPots, MultiwaySettlement, MultiwayTerminal, MultiwayHand, MultiwayPayouts | multiway_fixed.cpp, multiway_terminal.cpp |
| GraphPaths, TopologicalSort, FlatSlices, GameTree, GraphEquality, GraphBuilders, FlatBuilder, GraphTheorems, GraphPlacement, GraphRecords, GraphFinish | hunl_tree.cpp, hunl_flat_builder.cpp, hunl_flat_graph.cpp |
| HeadsUpConfig, HeadsUpMenu, HeadsUpState, HeadsUpMachine, HeadsUpRuns, HeadsUpInfoset, HeadsUpHistories, HeadsUpMemo, HeadsUpGame, HeadsUpTurns, HeadsUpOutcomes, HeadsUpRecords | hunl.cpp, hunl_tree.cpp, hunl_flat_builder.cpp |
| Poker, HistoryText, InfosetKey, InfosetRegistry | poker.cpp, hunl.cpp, infoset_registry.cpp |
| PrivateRanges, PrivateSearch, PrivateVisits, PrivateSampler, PrivateReach, PrivateCompile | multiway_private.cpp |
| Arena, ArenaMachine | arena.hpp, arena.cpp |
| Arithmetic, CommonTypes, SeqFolds, Wrappers | shared helpers |

## Where a plausible claim is false

Each has a lemma with a concrete input and a lemma with the exact condition.

* The vector machine does not always accept what the fixed machine does: with unequal stacks a short all-in call can
  leave the big blind pending with nobody selected, which snapshot validation rejects
  (`MultiwayRuns.ShortCallStrandsTheBigBlind`). It accepts exactly the runs on which no state is stranded so
  (`MultiwaySnapshot.RunMirrorsExactly`), and it mirrors the fixed machine on all runs exactly from the roots where no
  seat can be stranded, a test on the root alone (`MultiwayStranding.MachinesAgreeExactly`).
* Contributions need not match when a heads-up street closes: a call for less is not refunded
  (`HeadsUpRuns.ShortCallIsNotRefunded`). At a root facing a bet they match exactly when the stack covers the call
  (`HeadsUpRuns.RootCallMatchesExactly`).
* A validated heads-up configuration need not be playable: with one-sided initial contributions near the int range the
  smallest raise overflows and the menu throws (`HeadsUpRuns.ValidatedRootCanOverflow`, and
  `HeadsUpRuns.RootOverflowsExactly` for when). Its graph is built exactly when no hand can come to such a decision
  (`HeadsUpGame.GraphIsBuiltExactly`).
* Flattening a tree is not always the directly built graph: it takes a chance node without children for a decision and
  refuses it (`GraphTheorems.FlatteningRefusesEmptyChance`, `GraphTheorems.FlattenExactly`). A validated heads-up
  configuration without private cards has such a node at its root (`HeadsUpGame.BareConfigSplitsBuilders`); explicit-hand
  heads-up trees have none. The two graphs agree exactly when the private cards are given or the hand starts at showdown
  (`HeadsUpGame.HeadsUpBuildersAgree`).
* The registry can hold a key twice when its two entry points are mixed (`InfosetRegistry.MixedUseDuplicates`, and
  `InfosetRegistry.DuplicatesExactly` for when).

## Model

| member | source | states |
|---|---|---|
| MultiwayHand.RunsAlwaysSettle | src/games/multiway_fixed.cpp:187-475 | However a hand is played from a root whose seats had put in equally before, some live seat holds the largest total; settling the table reached is refused exactly when the contributions do not fit an int, so never where the chips dealt fit; and chips behind, payouts, refunds and rake add up to the chips dealt |
| MultiwayHand.LiveSeatHoldsLargestTotal | src/games/multiway_fixed.cpp:443-475 | The betting invariant names a live seat whose total is the largest, so no side-pot layer belongs to folded seats alone |
| MultiwayInvariant.RunKeeps | src/games/multiway_fixed.cpp:187-310 | Every run of decisions and street starts keeps the cross-street invariant: seats that can act share one prior-street total, a live seat has matched the bet, flags and rights are consistent |
| MultiwayInvariant.StepKeeps | src/games/multiway_fixed.cpp:187-310 | One accepted event keeps the invariant; a decision leaves the level alone |
| MultiwayInvariant.ApplyKeeps | src/games/multiway_fixed.cpp:187-285 | Every accepted action, including short all-ins and calls for less, keeps the invariant |
| MultiwayInvariant.BeginNextStreetKeeps | src/games/multiway_fixed.cpp:287-310 | A street transition raises the level by exactly the bet every remaining seat matched |
| MultiwayInvariant.RefreshKeeps | src/games/multiway_fixed.cpp:56-97 | Refreshing a table in mid-update closes the round or keeps a seat that still owes a response |
| MultiwayInvariant.RootKeeps | src/games/multiway_fixed.cpp:312-335 | A root whose seats had put in equally before satisfies the invariant |
| MultiwayProgress.MenuIsExact | src/games/multiway_fixed.cpp:160-285 | At a decision the menu is not empty, and an action is accepted if and only if it is listed and, when sized, names a target from a full raise to just under all-in; what is listed is stated from the seats by MultiwayDecisions.AcceptedExactly |
| MultiwayDecisions.AcceptedExactly | src/games/multiway_fixed.cpp:160-285 | By the seats alone: Fold and Call go exactly when the bet is above the seat, Check exactly when it is not; AllIn exactly when the seat has not spoken since the last full raise, another seat can act and the stack reaches over the bet; Bet and Raise under the same rights for targets from a full raise to just under all-in, Raise as opposed to Bet exactly when facing a bet that is not the opening preflop action; and an action is listed exactly when the rules allow it at some target |
| MultiwayDecisions.MenuInOrder | src/games/multiway_fixed.cpp:160-185 | The menu names each action once, in the order fold, check, call, bet, raise, all-in |
| MultiwayDecisions.RefusedWhy | src/games/multiway_fixed.cpp:187-281 | Which error an action that is not accepted meets: illegal, target out of reach, or below the minimum raise |
| MultiwayDecisions.BrokenIsRefused | src/games/multiway_fixed.cpp:134-147 | A table is refused as invalid by either operation exactly when a count, bet, street or index is out of range or some seat has negative chips, a street above its total, or flags that contradict its chips |
| MultiwayDecisions.ActionMoves | src/games/multiway_fixed.cpp:195-281 | An accepted action moves exactly the acting seat's chips by what it names; the bet, last full raise and aggressor change exactly when it puts in more than the bet |
| MultiwayDecisions.FlagsExactly | src/games/multiway_fixed.cpp:56-120 | A seat is pending exactly when two seats are live and it can act and has not spoken or faces the bet; it may raise exactly when, besides, it has not spoken or the bet grew by a full raise since |
| MultiwayDecisions.SelectedExactly | src/games/multiway_fixed.cpp:56-97 | A seat is selected exactly when one has to speak: it owes a response and faces the bet or has an opponent who can act |
| MultiwayDecisions.NextSpeaker | src/games/multiway_fixed.cpp:43-54 | After an action the first seat clockwise that has to speak is selected |
| MultiwayDecisions.KindExactly | src/games/multiway_fixed.cpp:149-158 | Each kind of next node from who is live, who has to speak, how many can act and the street |
| MultiwayDecisions.OverIsFinal | src/games/multiway_replay.cpp:64-98 | After a fold, a showdown or a run-out no event is accepted |
| MultiwayDecisions.DecisionAcceptedExactly | src/games/multiway_replay.cpp:64-98 | A recorded decision is accepted exactly when it names the seat to act and an allowed action; another seat is refused as the wrong actor |
| MultiwayDecisions.StreetOpensExactly | src/games/multiway_fixed.cpp:287-310 | A street opens exactly when two live seats can act, nobody has to speak and the next betting street is named; then nothing is bet, the minimum raise is the big blind, all who can act are pending, and the first of them clockwise speaks |
| MultiwayDecisions.RootExactly | src/games/multiway_fixed.cpp:312-335 | The root seat by seat: chips, flags, the bet as the highest street contribution, the minimum raise as the big blind, and the first seat clockwise that has to speak |
| MultiwayDecisions.RootRefusedWhy | src/games/multiway_state.cpp:26-54 | Exactly which configurations are refused |
| MultiwayDecisions.BlindsArePosted | src/games/multiway_rules.cpp:43-71 | In the root made from rules the seat before the first to speak has posted the big blind, the one before it the small blind, nobody else anything, and the bet is the big blind |
| MultiwayDecisions.RulesRefusedWhy | src/games/multiway_rules.cpp:17-71 | Exactly which rules and first seats make no root |
| MultiwayHistory.RaisesOverRuns | src/games/multiway_fixed.cpp:231-310 | On every run the minimum raise is the last full raise told from the events alone, the big blind again after each street start, and the aggressor is the seat that last raised the bet on the street |
| MultiwayHistory.FirstBetExactly | src/games/multiway_fixed.cpp:160-310 | The first bet of a street is accepted exactly when its target is at least the big blind and below all-in |
| MultiwayProgress.SizedListedIffTargetExists | src/games/multiway_fixed.cpp:160-185 | Bet or Raise is listed exactly when the seat has raise rights, an opponent can act and the target interval is not empty; never both; and then AllIn is listed too |
| MultiwayProgress.NeverStuck | src/games/multiway_fixed.cpp:149-310 | Every decision and every street transition has an event the machine accepts |
| MultiwayProgress.RunsAreFinite | src/games/multiway_fixed.cpp:187-310 | No run is longer than the measure of its root: streets left, chips behind and seats pending |
| MultiwayProgress.ApplyDecreases | src/games/multiway_fixed.cpp:187-285 | Every accepted action lowers the measure |
| MultiwayProgress.StreetDecreases | src/games/multiway_fixed.cpp:287-310 | Every accepted street transition lowers the measure |
| MultiwayProgress.RunKeepsChips | src/games/multiway_fixed.cpp:187-310 | No run creates or destroys chips: every seat keeps its stack plus total |
| MultiwayRuns.RaiseRightsOverRuns | src/games/multiway_fixed.cpp:56-120 | On every run a pending seat may raise exactly when it has not acted this street or the bet has grown by a full raise since it acted, counted over the events themselves; and when no seat is selected every seat that can act has matched the bet |
| MultiwayRuns.RunRemembers | src/games/multiway_fixed.cpp:99-120 | The recorded bet faced is the bet on the table when the seat last acted on the street |
| MultiwayRuns.VectorMirrorsFromRules | src/games/multiway_state.cpp:149-368 | From an equal-stack rules root with bounded chips the vector machine accepts and refuses exactly what the fixed machine does, ends in the same state, and every state reached is a valid snapshot that restores unchanged |
| MultiwayRuns.EqualStacksNeverStranded | src/games/multiway_fixed.cpp:68-97 | From equal stacks no run leaves a matched seat pending while nobody is selected |
| MultiwayRuns.ShortCallStrandsTheBigBlind | src/games/multiway_state.cpp:133-136 | With unequal stacks a short all-in call does: the fixed machine accepts it, the vector machine refuses its snapshot |
| MultiwayRuns.RulesRootInvariant | src/games/multiway_rules.cpp:43-71 | The blind-posted root made from rules satisfies the betting invariant at level zero |
| MultiwaySnapshot.SnapshotFitsExactly | src/games/multiway_state.cpp:56-137 | A table that betting leaves is a valid snapshot exactly when nobody is stranded, every stack and total, the table total and the smallest raise fit a 32-bit integer |
| MultiwaySnapshot.SnapshotValidExactly | src/games/multiway_state.cpp:56-137 | Of all the clauses of the snapshot check a reachable bounded state can break only one: it is valid if and only if it is not stranded |
| MultiwaySnapshot.ValidSnapshotKeeps | src/games/multiway_state.cpp:56-170 | Any snapshot that passes the check, wherever it comes from, restores to a table that satisfies the betting invariant, given only what the check does not look at: equal totals before the street and a live seat holding the bet |
| MultiwaySnapshot.ValidSnapshotFits | src/games/multiway_state.cpp:56-137 | In a valid snapshot every stack, total, table total and smallest raise fits a 32-bit integer and the selected seat owes a response |
| MultiwaySnapshot.OpenWithoutActorIsStranded | src/games/multiway_state.cpp:133-136 | Somebody pending with nobody selected is exactly the stranded case |
| MultiwaySnapshot.RefreshIsNoOp | src/games/multiway_state.cpp:149-170 | Restoring a valid snapshot of a reachable state changes nothing |
| MultiwaySnapshot.StepMirrors | src/games/multiway_state.cpp:352-368 | One vector step is the fixed step, refused additionally exactly when the result is stranded |
| MultiwaySnapshot.RunMirrorsExactly | src/games/multiway_state.cpp:352-368 | A whole vector run equals the fixed run if and only if no state on the way is stranded |
| MultiwayStranding.MachinesAgreeExactly | src/games/multiway_state.cpp:352-368 | From a bounded root whose seats had put in equally before the vector machine gives the outcome of the fixed one on every list of events if and only if the root cannot strand a seat, a test on the seats, the bet and the order of speaking |
| MultiwayStranding.StrandsExactly | src/games/multiway_fixed.cpp:56-97 | Some run strands a seat exactly when a seat at the bet speaks last, every other seat that can act faces the bet before it, and another seat is or can go all in without raising |
| MultiwayStranding.PlayToStranding | src/games/multiway_fixed.cpp:187-229 | From such a root calling all in where that is no raise and folding otherwise strands the seat |
| MultiwayStranding.RunIsCalmOrSafe | src/games/multiway_fixed.cpp:187-310 | At every state of a run either nobody has raised since the root and seats have spoken in ring order, or every seat at the bet has acted, or two seats can still bet on an unopened street |
| MultiwayReplay.ReplayHand | src/games/multiway_replay.cpp:33-98 | A replay succeeds exactly when the run from its root does and returns its last state; the range check made up front refuses nothing the machine would accept |
| MultiwayReplay.ValidateSnapshot | src/games/multiway_state.cpp:56-137 | The accumulating validation loop decides exactly the snapshot predicate |
| MultiwayReplay.ScanSeats | src/games/multiway_state.cpp:68-118 | The seat loop finds the totals, the highest bet and the flags the snapshot check compares |
| MultiwayReplay.OutOfRangeEventIsRefused | src/games/multiway_replay.cpp:40-62 | An event that names no seat of the table makes the run fail anyway |
| MultiwayBetting.LiveCountMeaning | src/games/multiway_fixed.cpp:25-31 | At most one counted live seat is the same as no two different live seats |
| MultiwayBetting.ActionableCountMeaning | src/games/multiway_fixed.cpp:33-41 | The same for seats that can act |
| MultiwayBetting.NextPendingAfter | src/games/multiway_fixed.cpp:43-54 | The seat returned owes a response, nobody between does, and -1 means nobody at all does |
| MultiwayBetting.BlindSeats | src/games/multiway_rules.cpp:43-71 | Small and big blind seats are two different seats of the table and only they post |
| MultiwayFixedState.FixedState.Apply | src/games/multiway_fixed.cpp:187-285 | The in-place machine returns exactly the specified next state, or exactly the specified error, and leaves its own state alone |
| MultiwayFixedState.FixedState.BeginNextStreet | src/games/multiway_fixed.cpp:287-310 | The in-place transition returns exactly the specified street or refusal, whose fields MultiwayDecisions.StreetOpensExactly gives, and leaves its own state alone |
| MultiwayFixedState.FixedState.RaiseTo | src/games/multiway_fixed.cpp:231-279 | Paying up, setting the bet and reopening the betting, full or short, in place |
| MultiwayFixedState.FixedState.RefreshRoundCompletion | src/games/multiway_fixed.cpp:56-97 | Three nested cases and their loops leave exactly the specified table |
| MultiwayFixedState.FixedState.ResetPendingAfterFullRaise | src/games/multiway_fixed.cpp:99-107 | Every other seat that can act owes a response and may raise again |
| MultiwayFixedState.FixedState.RefreshRaiseRightsAfterShortRaise | src/games/multiway_fixed.cpp:109-120 | Seats below the bet owe a response and may raise only if the bet grew by a full raise since they acted |
| MultiwayFixedState.FixedState.NextPending | src/games/multiway_fixed.cpp:43-54 | The ring walk finds the next seat that owes a response |
| MultiwayFixedState.FixedState.Menu | src/games/multiway_fixed.cpp:160-185 | The menu built step by step is the specified one, which lists exactly the actions that MultiwayDecisions.AcceptedExactly allows |
| MultiwayFixedState.FixedState.NextKind | src/games/multiway_fixed.cpp:149-158 | The kind of the next node |
| MultiwayFixedState.FixedState.CheckValid | src/games/multiway_fixed.cpp:134-147 | The validity loop decides exactly the validity predicate |
| MultiwayFixedState.FixedState.Move | src/games/multiway_fixed.cpp:195-281 | Chips and flags of one listed action, or the refusal of its target |
| MultiwayFixedState.FixedState.OpenStreet | src/games/multiway_fixed.cpp:291-309 | The loop leaves the specified street, seat by seat, as MultiwayDecisions.StreetOpensExactly describes it |
| MultiwayFixedState.MakeFixedState | src/games/multiway_fixed.cpp:312-335 | The root the fixed machine starts from |
| MultiwayVectorState.VectorState.RefreshRoundCompletion | src/games/multiway_state.cpp:276-317 | The second copy of the closing loops, over vectors, leaves the same table as the copy over fixed arrays |
| MultiwayVectorState.VectorState.Apply | src/games/multiway_state.cpp:352-359 | Snapshot, fixed machine, snapshot and restore give exactly the specified vector step or its refusal |
| MultiwayVectorState.VectorState.BeginNextStreet | src/games/multiway_state.cpp:361-366 | The same for a street transition |
| MultiwayVectorState.FromSnapshot | src/games/multiway_state.cpp:149-170 | A snapshot is restored exactly when it is valid, to its refreshed table |
| MultiwaySettlement.SettlementConserves | src/games/multiway_fixed.cpp:424-526 | Payouts, refunds and rake are exactly the contributions, rake comes from contested chips only, utilities sum to minus the rake, and each payout, refund and their sum stay within the validated total |
| MultiwaySettlement.RunningPayoutsFit | src/games/multiway_fixed.cpp:474-521 | While a pot is dealt out, after any number of seats of the lap, every running payout is between zero and the validated total, and so are the pots left after rake added up to any pot |
| MultiwayPots.LayerAmountFits | src/games/multiway_fixed.cpp:443-460 | Level width times contributors is between zero and the total contributed for every layer, even when a later layer is refused |
| MultiwayPots.PartialLayoutFits | src/games/multiway_fixed.cpp:443-480 | After any number of layers every refund and every running contested total is between zero and the total contributed |
| MultiwaySettlement.ReceiptIsCapped | src/games/multiway_fixed.cpp:443-521 | No seat gets back more than all contributions counted up to its own |
| MultiwaySettlement.StrongestReceivesAll | src/games/multiway_fixed.cpp:487-521 | A strictly strongest live seat receives every pot it reached in full, and without rake all it matched |
| MultiwaySettlement.SettlementRefusedExactly | src/games/multiway_fixed.cpp:443-475 | Valid input is refused if and only if folded seats alone reached some layer |
| MultiwaySettlement.PotPaidInFull | src/games/multiway_fixed.cpp:504-520 | A pot is paid out to the last chip |
| MultiwaySettlement.PotShareOfSeat | src/games/multiway_fixed.cpp:504-520 | A pot gives each winner an even share and one odd chip to the first winners in cyclic order, and other seats nothing |
| MultiwaySettlement.AwardWithin | src/games/multiway_fixed.cpp:504-520 | No award exceeds its pot |
| MultiwaySettlement.TakeRakeRemovesAll | src/games/multiway_fixed.cpp:480-486 | Rake is removed in full, first pot first, and only shrinks pots |
| MultiwaySettlement.RakeWithinPot | src/games/multiway_terminal.cpp:31-40 | Rake is never negative and never exceeds the contested total; its exact amount is MultiwayPayouts.RakeExactly |
| MultiwayPayouts.RakeExactly | src/games/multiway_fixed.cpp:476-480 | With contested chips being contributions less refunds, the rake taken is zero under the zero policy or when no flop was seen and none is due then; otherwise it is the largest number within both the cap and the percentage of the contested chips |
| MultiwayPayouts.RakeEmptiesEarlierPots | src/games/multiway_fixed.cpp:480-486 | Rake comes from a pot only once every earlier pot is empty |
| MultiwayPayouts.PotsInOrder | src/games/multiway_fixed.cpp:443-475 | Before rake the pots ascend by contribution level and each holds what all seats put in between the level before and its own |
| MultiwayPayouts.RefundExactly | src/games/multiway_fixed.cpp:460-468 | A seat is refunded exactly what it put in beyond the most any other seat, folded or not, put in |
| MultiwayPayouts.PotsArePaidOut | src/games/multiway_fixed.cpp:487-526 | Every pot is shared to the last chip by the best live seats that matched it, equally but for an odd chip to the first of them clockwise from the odd-chip seat; a payout is the sum of a seat's shares and its utility that and its refund less what it put in |
| MultiwayPayouts.RefusedWhy | src/games/multiway_fixed.cpp:393-475 | Exactly which input is invalid, and that valid input fails exactly for a layer nobody live reached |
| MultiwayPots.PotLayoutConserves | src/games/multiway_fixed.cpp:424-475 | Pots and refunds re-sum to the contributions, and what a seat can reach is what all put in up to its own total |
| MultiwayPots.LayoutConserves | src/games/multiway_fixed.cpp:443-475 | The same after any number of layers |
| MultiwayPots.LayoutRefusedExactly | src/games/multiway_fixed.cpp:469-472 | Layering fails if and only if some layer has contributors but nobody live |
| MultiwayPots.LayerHolds | src/games/multiway_fixed.cpp:443-475 | A layer holds what the contributions capped at its top exceed those capped at its bottom |
| MultiwayPots.SameIncreasing | src/games/multiway_terminal.cpp:91-93 | Two strictly increasing lists with the same members are the same list |
| MultiwayTerminal.SettleFixed | src/games/multiway_fixed.cpp:417-526 | The fixed settlement, loops over scratch arrays and all, returns exactly the specified settlement, the one MultiwayPayouts describes, or its refusal |
| MultiwayTerminal.BuildPotLayout | src/games/multiway_terminal.cpp:74-127 | The vector layering gives the same pots, eligible seats and refunds as the fixed one and refuses exactly the same input |
| MultiwayTerminal.SettleWithLayout | src/games/multiway_terminal.cpp:166-217 | A supplied layout is accepted exactly when it is the one the hand implies; the checks made after the match never fire |
| MultiwayTerminal.CollectLevels | src/games/multiway_fixed.cpp:425-442 | The in-place insertion collects the distinct positive contributions in increasing order |
| MultiwayTerminal.PlaceLevel | src/games/multiway_fixed.cpp:426-442 | One insertion keeps the levels sorted and distinct |
| MultiwayTerminal.BuildLayers | src/games/multiway_fixed.cpp:443-475 | The layering loop gives the specified pots and refunds, or fails where they do not exist |
| MultiwayTerminal.RefundReachers | src/games/multiway_fixed.cpp:460-468 | A layer with one contributor goes back to that seat |
| MultiwayTerminal.RemoveRake | src/games/multiway_fixed.cpp:480-486 | The rake loop takes the specified amounts |
| MultiwayTerminal.BestStrength | src/games/multiway_fixed.cpp:492-496 | The largest strength among the eligible seats, which one of them has |
| MultiwayTerminal.CollectWinners | src/games/multiway_fixed.cpp:497-503 | The winner buffer holds exactly the eligible seats of best strength |
| MultiwayTerminal.PayPot | src/games/multiway_fixed.cpp:487-521 | Paying one pot gives the specified payouts |
| MultiwayTerminal.Deal | src/games/multiway_fixed.cpp:504-520 | Even shares plus odd chips, one lap around the table |
| MultiwayTerminal.CheckInput | src/games/multiway_fixed.cpp:393-415 | The validation loop decides exactly the input predicate |
| MultiwayTerminal.SortUnique | src/games/multiway_terminal.cpp:91-93 | Sorting and removing repeats leaves the distinct contributions in increasing order |
| TopologicalSort.Sort | src/games/hunl_flat_builder.cpp:89-142 | The queue-driven sort accepts exactly the acyclic graphs; its order has every node once and every edge forward, and each depth is the length of a longest path into the node, parallel edges included |
| TopologicalSort.VisitChildren | src/games/hunl_flat_builder.cpp:122-133 | Draining one node lowers the in-degree of each child once per edge and queues it at zero |
| TopologicalSort.CountIndegrees | src/games/hunl_flat_builder.cpp:91-107 | In-degrees count edges, repeated ones as often as they occur |
| TopologicalSort.StuckNodesBlockRanks | src/games/hunl_flat_builder.cpp:136-139 | Nodes left unsorted rule out every rank function |
| FlatSlices.FinalizeGraph | src/games/hunl_flat_builder.cpp:89-172 | Refuses exactly graphs with a stray child or a cycle; otherwise depth slices, street slices and worker ranges are as they should be |
| FlatSlices.SliceBy | src/games/hunl_flat_builder.cpp:150-172 | Slices lie end to end, hold exactly the nodes of their key in order, and together are a permutation of the nodes |
| FlatSlices.MakeRanges | src/games/hunl_flat_builder.cpp:63-87 | Worker ranges tile a slice in order, none empty, widths at most one apart, at most the fixed number |
| FlatSlices.CutSlices | src/games/hunl_flat_builder.cpp:144-172 | Depth and street slices each partition the nodes and the ranges tile each depth slice |
| FlatSlices.EdgesCrossSlices | src/games/hunl_flat_builder.cpp:144-172 | Every edge leads to a later depth slice |
| FlatSlices.SliceIsIndependent | src/games/hunl_flat_builder.cpp:144-172 | No path joins two nodes of one depth slice, so a slice can be processed in parallel |
| GraphPaths.SameDepthIndependent | src/games/hunl_flat_graph.cpp:285-340 | Nodes of equal depth depend on each other in no number of steps |
| GraphTheorems.BuildersAgree | src/games/hunl_flat_builder.cpp:304-577 | Explicit-stack and recursive builder make the same nodes in the same order; the flattened tree is the directly built graph array for array if and only if the latter is refused too or no chance node is empty |
| GraphTheorems.FlatteningRefusesEmptyChance | src/games/hunl_flat_graph.cpp:18-39 | In every game whose root is a chance node without an outcome the tree is that one node, which the direct builder lays out and the flattening pass refuses |
| GraphTheorems.FlattenExactly | src/games/hunl_flat_graph.cpp:126-283 | Flattening refuses exactly lists with an empty chance node and lays all others out like the direct builder |
| GraphTheorems.GraphUnfoldsToPlay | src/games/hunl_tree.cpp:136-215 | From any node, following child indices shows exactly the tree of play of the state the node was made for |
| GraphTheorems.EqualKeysExpandAlike | src/games/hunl_tree.cpp:73-106 | States with equal memo keys have equal depth and equal trees of play |
| GraphTheorems.BuildUnfolds | src/games/hunl_tree.cpp:136-215 | The same at every moment of the recursion, while some nodes are still pending |
| GraphEquality.SameVisit | src/games/hunl_tree.cpp:136-215 | Writing a node back whole after its children equals writing its slots one by one before them |
| GraphEquality.SameBuild | src/games/hunl_flat_builder.cpp:332-356 | Two memo keys that tell the same states apart give the same build |
| GraphEquality.SlotWrite | src/games/hunl_flat_builder.cpp:510-546 | Writing one slot of an already placed node commutes with the layout of all later nodes |
| GraphBuilders.TreeBuilder.BuildNode | src/games/hunl_tree.cpp:136-215 | The recursive builder with its memo map makes exactly the specified nodes and maxima |
| GraphBuilders.TreeBuilder.BuildAll | src/games/hunl_tree.cpp:173-210 | Its loop over outcomes or actions collects exactly the specified children |
| GraphBuilders.FlattenTree | src/games/hunl_flat_graph.cpp:126-261 | The flattening loop lays out exactly the specified graph, whose records GraphRecords.RecordsExactly reads off the nodes, or refuses |
| GraphFinish.BuildFromTree | src/games/hunl_flat_graph.cpp:96-369 | Flattening the recursive tree to the end: a finished graph exactly when no chance node is empty, the nodes can be laid out and the result is in bounds and acyclic; its infoset records lie end to end and its order, depths and slices are right |
| GraphFinish.BuildSolveGraph | src/games/hunl_flat_builder.cpp:304-581 | The explicit-stack build to the end: a finished graph exactly when the visited nodes can be laid out and the result is in bounds and acyclic, with the same promises |
| GraphFinish.FinishGraph | src/games/hunl_flat_graph.cpp:263-369 | Infoset records, sort and slices refuse exactly an empty set, a stray child or a cycle |
| GraphFinish.AssembleInfosets | src/games/hunl_flat_builder.cpp:556-577 | The infoset records slice the node order into the sets, end to end, refused exactly when some set is empty |
| GraphFinish.LaidOutIsSolvable | src/games/hunl_flat_builder.cpp:89-125 | When equal memo keys mean equal futures no graph that can be laid out is refused afterwards: slots are in range, children are nodes, plies rank the graph, and every set lists exactly its decision nodes |
| GraphFinish.DepthsArePlies | src/games/hunl_flat_builder.cpp:115-130 | The longest path into a node is exactly as long as its state is deep in the game |
| GraphFinish.SlicesArePlies | src/games/hunl_flat_builder.cpp:144-172 | Depth slice d holds nodes whose states are d plies into the game |
| GraphFinish.BuildLinks | src/games/hunl_tree.cpp:136-215 | Building links every node to the nodes of its successors and leaves no new node without a parent but the one asked for |
| GraphFinish.OutgoingIsChildren | src/games/hunl_flat_builder.cpp:93-108 | The graph the sort reads from the slot arrays is the graph of the inner nodes and their children |
| GraphFinish.PlacedSetsListed | src/games/hunl_flat_builder.cpp:463-489 | Each information set lists exactly the decision nodes with its key, each once, in index order |
| FlatBuilder.BuildFlat | src/games/hunl_flat_builder.cpp:304-554 | The loop over the frame stack, writing into growing arrays, returns exactly the layout of the nodes the memoised visit makes, whose records GraphRecords.RecordsExactly reads off the nodes, and their maxima |
| FlatBuilder.StepSlot | src/games/hunl_flat_builder.cpp:497-552 | One child is found or created, written into its slot and pushed if new, without disturbing any other node |
| FlatBuilder.OpenFrame | src/games/hunl_flat_builder.cpp:361-489 | Opening a frame turns its raw record into the leaf, chance or decision record that placing the node makes; GraphRecords.RecordsExactly says which |
| FlatBuilder.SlotStep | src/games/hunl_flat_builder.cpp:497-552 | What a stack still has to visit does not change when a slot is written and its child pushed |
| GraphPlacement.PlaceAllExactly | src/games/hunl_flat_graph.cpp:126-261 | Nodes can be laid out if and only if none is refused and nodes of one information set agree on player, street, board cards and number of actions |
| GraphRecords.RecordsExactly | src/games/hunl_flat_graph.cpp:126-261 | By index over any laid-out list of nodes: each record has its node's player, street, board, contributions, kind and value; each child slot holds the node's k-th child, each chance entry its k-th card, probability and child, each action slot its k-th action; and its information set is the one with its key and shows its player, street, board cards and action count |
| GraphRecords.TerminalsExactly | src/games/hunl_flat_builder.cpp:361-400 | The fold, showdown and terminal lists name exactly the nodes of those kinds, in index order, each with its node's value |
| GraphRecords.ArraysHoldNoMore | src/games/hunl_flat_builder.cpp:402-489 | The slot arrays hold the slots of the nodes one after another and nothing else |
| GraphRecords.MaximaExactly | src/games/hunl_flat_builder.cpp:304-400 | The reported maxima are the greatest depth of any node and the greatest number of actions of any decision |
| HeadsUpRecords.NodesShowStates | src/games/hunl_tree.cpp:136-215 | Every node of a heads-up graph shows the state it was made for: player, street, board, chips; fold leaf exactly after a fold, showdown leaf exactly at showdown, limit leaf exactly at the depth limit, chance and decision exactly by whose move it is; its value is player 0's utility at the end and zero before; its moves are exactly the accepted ones, ascending, cards equally likely; and slot by slot its children are the nodes of the states those moves lead to |
| HeadsUpRecords.MenuAscends | src/games/hunl.cpp:1536-1578 | A menu lists its actions in ascending order, each once |
| HeadsUpConfig.ConfigValidExactly | src/games/hunl.cpp:477-647 | Exactly which configurations validation lets through: chips, blinds and antes, the largest pot, menus, caps, cards known at the root, contributions and pot |
| HeadsUpRuns.RunsAreBounded | src/games/hunl.cpp:530-534 | On every heads-up run with validated caps no street has more than 12 actions, no history more than 48 codes and no run more than 53 moves, while stacks stay non-negative and each stack plus contribution keeps its total |
| HeadsUpRuns.StepKeeps | src/games/hunl.cpp:917-944 | Every accepted move keeps the run invariant and costs exactly one ply |
| HeadsUpRuns.RootReachable | src/games/hunl.cpp:649-729 | Every validated root with hands satisfies the run invariant |
| HeadsUpRuns.LateDealIsRoot | src/games/hunl.cpp:731-750 | Dealing hands into a root that had none gives the root of the configuration that had them; without hands no move is accepted |
| HeadsUpRuns.HistoryFits | include/games/hunl.hpp:30 | Every state met on a run fits the 48-code encoding |
| HeadsUpRuns.AggressionPhase | src/games/hunl.cpp:1147-1234 | A bet, raise or all-in never completes a street; it leaves the opponent facing it, or, all in, the excess refunded and the street closed |
| HeadsUpRuns.CallPhase | src/games/hunl.cpp:1134-1146 | A call facing a bet closes the street, and contributions match exactly when the stack covered the call |
| HeadsUpRuns.LimpPhase | src/games/hunl.cpp:1238-1269 | A small blind's limp leaves the big blind its option, unless that is all in |
| HeadsUpRuns.CheckPhase | src/games/hunl.cpp:1238-1269 | A check closes the street exactly as the second action or as the big blind's option |
| HeadsUpRuns.ChanceKeeps | src/games/hunl.cpp:1079-1107 | Dealing keeps the invariant: betting resumes when nobody is all in, else cards run out to five |
| HeadsUpRuns.ChanceNeverStuck | src/games/hunl.cpp:855-906 | A chance state of a run has at least 44 cards to deal and accepts exactly those |
| HeadsUpRuns.DecisionNeverStuck | src/games/hunl.cpp:1536-1578 | A decision has no action if and only if blind and ante took the whole stack or the smallest raise is no int; everything listed is accepted and nothing else |
| HeadsUpRuns.MenuFitsExactly | src/games/hunl.cpp:1395-1534 | On a run the pot and all menu sizes fit an int, and the only arithmetic guard that can throw is the smallest raise, never with equal totals |
| HeadsUpRuns.RootOverflowsExactly | src/games/hunl.cpp:1432-1446 | A validated root facing a bet throws there exactly when twice the larger less the smaller contribution exceeds the int range while a raise may be offered |
| HeadsUpRuns.ValidatedRootCanOverflow | src/games/hunl.cpp:477-647 | Validation lets such a root through |
| HeadsUpRuns.RootCallMatchesExactly | src/games/hunl.cpp:1134-1146 | A call at such a root pays the gap or the stack, whichever is less, matches the pot exactly when the stack covers it, and what is not matched is not refunded |
| HeadsUpRuns.ShortCallIsNotRefunded | src/games/hunl.cpp:1134-1146 | A concrete validated river root where 100 chips call 500: the call is listed and accepted and the contributions stay 100 and 500 |
| HeadsUpRuns.TerminalsPayOut | src/games/hunl.cpp:797-848 | Every finished run has utilities summing to the initial pot over the big blind; a showdown has five cards and, with equal totals, equal contributions; who gets what is HeadsUpOutcomes.LoserPaysExactly |
| HeadsUpOutcomes.LoserPaysExactly | src/games/hunl.cpp:797-848 | On every finished run the player who folded, or whose hand is strictly weaker, loses exactly what it put in since the root, in big blinds, and the other wins that and the pot the hand started with |
| HeadsUpOutcomes.TieSplitsExactly | src/games/hunl.cpp:797-848 | On equal strengths each player gets half of the whole pot, whatever each put in |
| HeadsUpOutcomes.HandsExchange | src/games/hunl.cpp:797-848 | Where both put in the same, exchanging the hands of a showdown exchanges the utilities |
| HeadsUpTurns.RootExactly | src/games/hunl.cpp:649-729 | The root holds blinds and antes before the flop and the given contributions after it; the small blind speaks first, later whoever put in less, player 1 when nobody did |
| HeadsUpTurns.HandsGivenExactly | src/games/hunl.cpp:731-750 | Hands can be given exactly when they and the board are valid and do not meet; the player to speak stays, and where there was none the small blind or whoever put in less speaks |
| HeadsUpTurns.PlayableExactly | src/games/hunl.cpp:908-1578 | On every run an action is accepted exactly when the rules allow it, told from the stack, the call, the raises against the cap of the street, the flop-lead rule, the bet sizes of the street, the raise totals, the all-in reserve and the stack-to-pot ratio, and no raise overflows |
| HeadsUpTurns.SizeExactly | src/games/hunl.cpp:1400-1446 | A size is the multiple of its base to the nearest chip, halves to even, or the least allowed |
| HeadsUpTurns.ActionPays | src/games/hunl.cpp:1109-1236 | An accepted action moves exactly the acting player's chips, to the total it names, or back down to an all-in opponent's total where a raise goes over it; cards stay, and only a fold folds |
| HeadsUpTurns.StreetAfter | src/games/hunl.cpp:1109-1306 | A fold ends the hand where it stood; the street goes on with the opponent to speak exactly after an aggressive action, a first check or a limp that the opponent can answer; otherwise it is filed, and cards are due or hands are shown; raises, aggressor, call and the written action are exact |
| HeadsUpTurns.DealtExactly | src/games/hunl.cpp:917-944 | A card is accepted exactly when neither player nor the board holds it |
| HeadsUpTurns.DealLeads | src/games/hunl.cpp:1079-1107 | A dealt card joins the board and moves no chips; after the last card due player 1 opens with nothing to call, unless somebody is all in, when cards come one by one and the fifth leads to showdown |
| HeadsUpState.UtilitiesShareThePot | src/games/hunl.cpp:797-848 | At any state with utilities the two sum to the initial pot in big blinds |
| HeadsUpMenu.MenuIsExact | src/games/hunl.cpp:1536-1578 | An action is listed if and only if the stack is positive and its rule allows it; sizes repeat no earlier size |
| HeadsUpMenu.RoundingIsDetermined | src/games/hunl.cpp:1400-1419 | Being within one half, ties to even, determines the rounded value, and rounding keeps order |
| HeadsUpMenu.MenuThrowsExactly | src/games/hunl.cpp:1395-1534 | In any context the menu throws exactly when the pot is no int, or sizes are asked for and the reserve, the least bet, the chips of the player, the total faced, the smallest raise or one of the multiples is out of range |
| HeadsUpMenu.SelectSizes | src/games/hunl.cpp:1484-1534 | The enumeration loop lists exactly sizes under the ceiling that no smaller index has, or throws when a product is out of range |
| HeadsUpMenu.EnumerateLegalActions | src/games/hunl.cpp:1536-1578 | The whole menu, or the overflow its guards report |
| HeadsUpMachine.ApplyPlayer | src/games/hunl.cpp:1109-1236 | Branch by branch on copied fields, then the street logic: exactly the specified next state |
| HeadsUpMachine.ResolveStreet | src/games/hunl.cpp:1210-1236 | Fold, street completion, refund to an all-in opponent's match, or the turn passing |
| HeadsUpMachine.BeginStreetTransition | src/games/hunl.cpp:1271-1306 | Filing the street and waiting for cards, or showdown |
| HeadsUpMachine.ApplyMove | src/games/hunl.cpp:917-944 | Accepts exactly legal actions and cards that can come |
| HeadsUpMachine.ChanceOutcomes | src/games/hunl.cpp:855-906 | The cards nobody holds, in order, each with the same probability |
| HeadsUpMachine.InfosetEncoding | src/games/hunl.cpp:956-1024 | The fixed arrays are filled as specified, or the state is refused |
| HeadsUpInfoset.ReachableEncodesCanonically | src/games/hunl.cpp:956-1024 | Every state of a run encodes for either player, canonically, its segments being the streets played |
| HeadsUpInfoset.KeysSeparateExactly | src/games/hunl.cpp:308-344 | Two states of a run share the keys of two players if and only if these players hold the same two cards, the same cards lie on the board, and street and actions are the same |
| HeadsUpRecords.SetsShareExactly | src/games/hunl_flat_builder.cpp:46-54 | Two decisions of a run lie in one information set of the graph exactly when the players to act hold the same cards, the board cards are the same, and the same actions were taken street by street |
| HeadsUpMemo.TreeKeyInjective | src/games/hunl_tree.cpp:73-106 | On reachable states the recursive builder's memo key, which joins completed streets into text, determines the whole state |
| HeadsUpMemo.FlatKeyInjective | src/games/hunl_flat_builder.cpp:196-276 | So does the flat builder's fixed-array key, which does not mark where the open street begins |
| HeadsUpMemo.FlatKeyHolds | src/games/hunl_flat_builder.cpp:211-270 | No reachable state overflows that key's arrays |
| HeadsUpHistories.SameKeySameMenu | src/games/hunl.cpp:956-1024 | Two runs of one hand whose states print the same key are in the same betting state with the same menu |
| HeadsUpHistories.Lockstep | src/games/hunl.cpp:1109-1236 | Two runs of equal length that recorded the same codes stay in the same betting state whatever cards came |
| HeadsUpHistories.CodeDeterminesAction | src/games/hunl.cpp:1484-1534 | Of the actions on a menu no two record the same code |
| HeadsUpGame.HeadsUpBuildersAgree | src/games/hunl_flat_builder.cpp:304-577 | For every valid configuration both builders make the same nodes, and the flattened tree is the directly built graph array for array if and only if the private cards are given or the hand starts at showdown; otherwise flattening refuses the one chance node the direct builder lays out |
| HeadsUpGame.BareConfigSplitsBuilders | src/games/hunl_flat_graph.cpp:18-39 | A concrete validated preflop configuration without private cards on which the direct builder succeeds and flattening refuses |
| HeadsUpGame.BareRunStays | src/games/hunl.cpp:855-860 | Without private cards no run leaves the root |
| HeadsUpGame.HeadsUpGraphUnfolds | src/games/hunl_tree.cpp:136-215 | Every node unfolds to the tree of play of its state, at the depth that state always has |
| InfosetKey.KeyThenInjective | src/games/hunl_flat_builder.cpp:46-54 | Followed by the board and street suffix the flat graph adds, a key can still be read back |
| HeadsUpGame.KeysDetermineStates | src/games/hunl_tree.cpp:73-106 | Both memo keys tell the same reachable states apart and mean equal depth and future, so sharing cannot mix depth limits |
| HeadsUpGame.GameIsFinite | src/games/hunl.cpp:855-944 | For every valid configuration each move leads one ply deeper to a state some run reaches; every chance node has an outcome if and only if the private cards are given or the hand starts at showdown |
| HeadsUpGame.GraphIsBuiltExactly | src/games/hunl_flat_builder.cpp:304-581 | Information sets never conflict and the sort never refuses: the graph is laid out, sorted and sliced if and only if no hand can come, before the depth limit, to a decision whose player is blinded out or whose smallest raise overflows |
| HeadsUpGame.PlayHasNode | src/games/hunl_tree.cpp:136-215 | Every state played within the depth limit has a node, at the depth of the run |
| HeadsUpGame.EqualTotalsBuild | src/games/hunl_flat_builder.cpp:304-581 | With equal totals the build succeeds to the last slice on exactly the valid explicit-hand configurations whose small blind can act |
| HeadsUpGame.HeadsUpSlicesArePlies | src/games/hunl_flat_builder.cpp:144-172 | Depth slice d of a heads-up graph holds states of runs of exactly d moves, and no node lies deeper than 53 |
| HistoryText.PrintedInjective | src/games/hunl.cpp:31-50 | A printed history determines its streets and their codes |
| HistoryText.JoinedInjective | src/games/hunl.cpp:31-50 | The tokens of a street can be read back from their concatenation |
| HistoryText.TokenSplits | src/games/hunl.cpp:31-50 | A token ends where the next one begins |
| HistoryText.DecimalInjective | src/games/hunl.cpp:41-47 | Different amounts print differently |
| HistoryText.DecimalReads | src/games/hunl.cpp:41-47 | A printed amount stands for itself in decimal digits, without leading zeros |
| InfosetKey.SameKeyExactly | src/games/hunl.cpp:308-344 | Two validated encodings have the same key if and only if they hold the same private cards, board cards, street and non-empty segments |
| InfosetKey.CanonicalKeyInjective | src/games/hunl.cpp:308-344 | Among canonical encodings the key is injective |
| InfosetKey.SampleKey | src/games/hunl.cpp:308-344 | A concrete key, character by character, as the source prints it |
| InfosetKey.ValidHoldsDistinctCards | src/games/hunl.cpp:226-281 | An encoding is valid exactly when its two private and its board cards are all valid and different, its four street lengths add up to its codes, each code is neither zero nor the least int, and unused slots are zero |
| InfosetKey.Validate | src/games/hunl.cpp:226-281 | The checks decide exactly the validity predicate |
| InfosetKey.BuildKey | src/games/hunl.cpp:308-344 | The key is printed exactly for valid encodings and is the specified text |
| InfosetKey.PrintSegments | src/games/hunl.cpp:324-343 | The loop over street lengths prints the non-empty segments joined by slashes |
| Poker.AreValidAndDistinct | src/core/poker.cpp:75-88 | The table of seen cards decides exactly valid and pairwise different |
| Poker.CardsTextInjective | src/core/poker.cpp:90-112 | A card list can be read back from its text |
| Poker.SortedSameExactly | src/core/poker.cpp:103-112 | Two lists sort alike if and only if they hold the same cards |
| InfosetRegistry.RunIsStable | src/util/infoset_registry.cpp:10-61 | Over any calls to either entry point no id, key or action count ever changes once given |
| InfosetRegistry.AnswersRepeat | src/util/infoset_registry.cpp:17-25 | Asking again, however much later, gives the same id, and another action count is refused |
| InfosetRegistry.KeysAloneStayOneToOne | src/util/infoset_registry.cpp:10-33 | The text entry point alone keeps ids and keys one to one |
| InfosetRegistry.EncodingsAloneStayOneToOne | src/util/infoset_registry.cpp:35-61 | The encoding entry point alone, on canonical encodings, does too |
| InfosetRegistry.IdsNameEncodings | src/util/infoset_registry.cpp:35-61 | Then two encodings share an id if and only if they are equal |
| InfosetRegistry.DuplicatesExactly | src/util/infoset_registry.cpp:35-61 | A call stores a key twice exactly when it has actions, its encoding is valid and new, an id is left, and the encoding prints to a key already stored |
| InfosetRegistry.MixedUseDuplicates | src/util/infoset_registry.cpp:53-59 | Mixing the entry points does store a key twice |
| InfosetRegistry.AnsweredExactly | src/util/infoset_registry.cpp:10-61 | For either entry point: a call is refused exactly without actions, on an invalid encoding, with a count that differs from the known one, or when new and all 32-bit ids are given out, and then changes nothing; a new call gets the next id, under which its key and count are stored |
| InfosetRegistry.Registry.Intern | src/util/infoset_registry.cpp:10-33 | The tables and the answer after interning a key |
| InfosetRegistry.Registry.InternEncoding | src/util/infoset_registry.cpp:35-61 | The tables and the answer after interning an encoding |
| InfosetRegistry.Registry.Find | src/util/infoset_registry.cpp:63-70 | Finds an id holding the key exactly when the key is stored |
| InfosetRegistry.KeyRoundTrip | src/util/infoset_registry.cpp:63-79 | However much later, the key under an answered id is the key the call named; and while no key is stored twice, finding that key gives the id back |
| InfosetRegistry.Registry.KeyFor | src/util/infoset_registry.cpp:72-79 | Refuses exactly ids not handed out; otherwise the stored key, which can be found, under the same id while no key is stored twice |
| PrivateSearch.Preflight | src/games/multiway_private.cpp:142-183 | Feasible means a compatible deal exists, Infeasible that none does, exhausted exactly when the whole search needs more nodes than the budget, and then visited equals the budget |
| PrivateSearch.FindCompatibleDeal | src/games/multiway_private.cpp:49-75 | The in-place backtracking answers what the unbounded search would, counts its nodes, and on Infeasible leaves the used table as it was |
| PrivateSearch.ExploreFindsDeals | src/games/multiway_private.cpp:49-75 | The unbounded search succeeds if and only if a compatible deal exists |
| PrivateVisits.NodesExactly | src/games/multiway_private.cpp:49-75 | The node count of the unbounded search is the number of compatible choices of hands for the first few seats before which, in depth-first order, there is no complete deal; each is visited once, in that order |
| PrivateSearch.OrderDoesNotMatter | src/games/multiway_private.cpp:148-162 | Any two seat orders come to the same verdict |
| PrivateSearch.SortSeats | src/games/multiway_private.cpp:148-162 | The insertion sort orders the seats, each once, by the size of their ranges |
| PrivateSearch.ConfigValidExactly | src/games/multiway_private.cpp:79-108 | A configuration is valid exactly when two to six seats have ranges of allowed hands off a board of at most five different cards, each with some hand of positive weight |
| PrivateSearch.ValidateConfig | src/games/multiway_private.cpp:79-108 | The validation loops decide exactly the configuration predicate |
| PrivateRanges.DealExistsInAnyOrder | src/games/multiway_private.cpp:148-162 | Whether a deal exists does not depend on the order of the seats |
| PrivateRanges.DealStep | src/games/multiway_private.cpp:63-73 | A deal is a hand for the first seat and a deal of the rest that avoids it |
| PrivateSampler.Scratch.TrySampleInto | src/games/multiway_private.cpp:230-283 | Success records pairwise disjoint hands off the board and the product of their conditional probabilities; failure means the next seat had no compatible weight left |
| PrivateSampler.SampleCompatible | src/games/multiway_private.cpp:27-47 | The selected entry is compatible and its cumulative interval contains the draw |
| PrivateSampler.IntervalsAreWeights | src/games/multiway_private.cpp:27-47 | Each entry's interval is as long as its weight and no draw lies in two of them |
| PrivateSampler.EveryDrawPicks | src/games/multiway_private.cpp:27-47 | Where a range has mass, every draw from zero up to one picks one entry and only one, the one whose cumulative interval, as long as its weight, holds the scaled draw |
| PrivateSampler.DrawsDetermineChoice | src/games/multiway_private.cpp:230-283 | Of two choices that follow the same draws one continues the other |
| PrivateReach.ReachesSumToOne | src/games/multiway_private.cpp:230-283 | Over exact reals the recorded reaches of all acceptable deals plus those of all dead ends equal one |
| PrivateReach.DealsAreListed | src/games/multiway_private.cpp:230-283 | The deals summed over are exactly the compatible positive-weight deals |
| PrivateReach.DealsListedOnce | src/games/multiway_private.cpp:230-283 | No deal is counted twice |
| PrivateReach.DeadEndsAreListed | src/games/multiway_private.cpp:252-263 | The dead ends summed over are exactly the choices at which a draw gives up |
| PrivateReach.DrawsEndInTheLists | src/games/multiway_private.cpp:230-283 | Every sequential draw ends in a listed deal or a listed dead end |
| PrivateCompile.CompileRanges | src/games/multiway_private.cpp:185-228 | Refuses exactly invalid input, searches that need more nodes than the budget, and ranges without a joint deal; a compiled range set always has a joint deal |
| PrivateCompile.CompileKeepsWeights | src/games/multiway_private.cpp:198-226 | Compiling leaves each hand once, with weight, and keeps the total weight of every selection of hands |
| PrivateCompile.CompileKeepsMass | src/games/multiway_private.cpp:198-226 | Whatever is blocked, a compiled range offers the same mass |
| PrivateCompile.CompileKeepsDeals | src/games/multiway_private.cpp:185-228 | The compiled ranges can make exactly the joint deals the ranges can, hand for hand |
| Arena.ReleaseRestoresMark | src/core/arena.cpp:16-44 | Under stack discipline releasing a mark restores every block's usage and the current block at that mark |
| Arena.ReleaseKeeps | src/core/arena.cpp:16-44 | For any release value the arena stays sound and the total equals the sum of block usage |
| Arena.AllocateKeeps | include/core/arena.hpp:62-101 | An allocation keeps the arena sound and adds its bytes and padding to the total |
| Arena.AcquireKeeps | src/core/arena.cpp:46-68 | Acquiring only appends, keeps all usage, and ends at a block with room |
| Arena.AcquireExactly | src/core/arena.cpp:46-68 | The block acquired is the first from the current one on with room; when none has, a new empty one of the default size or of the bytes needed if that is more |
| Arena.FirstPassFits | include/core/arena.hpp:88-98 | A block with room for bytes plus padding takes them without wrapping |
| Arena.ProductCheckExact | include/core/arena.hpp:73-77 | The division test after the wrapped product notices exactly the products that do not fit a word |
| Arena.MarkBlockExact | src/core/arena.cpp:23-34 | The walk stops at the first block whose running total reaches the mark |
| ArenaMachine.LiveAddressesApart | include/core/arena.hpp:62-101 | Live allocations are disjoint in memory |
| ArenaMachine.StillUsedExactly | src/core/arena.cpp:16-44 | A rewind keeps exactly the storage below the new usage of its block |
| ArenaMachine.ArenaObject.AllocateStorage | include/core/arena.hpp:62-101 | Refuses exactly requests that overflow a word; otherwise the storage is aligned, in bounds and apart from everything live |
| ArenaMachine.ArenaObject.Place | include/core/arena.hpp:85-100 | The retry loop returns on its first pass |
| ArenaMachine.ArenaObject.AcquireBlock | src/core/arena.cpp:46-68 | The block loop acquires the specified block |
| ArenaMachine.ArenaObject.ReleaseTo | src/core/arena.cpp:16-44 | The release loops leave the specified blocks and total |
| ArenaMachine.ArenaObject.Reset | src/core/arena.cpp:6-9 | After a reset nothing is in use and the blocks are those of a release to zero |
| ArenaMachine.ArenaObject.Mark | src/core/arena.cpp:11-14 | A mark is the sum of block usage |

## Left out

- Floating point: weights, probabilities, bet fractions, multipliers and utilities are reals; finiteness checks are not modelled.
- Hash functions and hash tables: memo tables and registries are mathematical maps, and a memo lookup finds the first node with an equal key.
- Hand evaluation: strengths are an opaque total order, and a parameter of the heads-up utility.
- The random generator: the sampler's draws are parameters in [0, 1).
- MultiwayFixedState.FixedState: the parallel arrays of the state are one sequence of seat records, updated in place seat by seat.
- MultiwaySnapshot.SnapshotValid: a snapshot is one sequence of seat records too, so the check that its vectors have equal lengths is not modelled.
- GraphBuilders.FlattenTree: the check that a node's street is one of the five is not modelled, because the type of a view's street rules it out; likewise the size checks between a node's children and its actions.
- Node, slot and set indices of the graphs are 32-bit in the original, by silent casts from sizes; in the model they are unbounded.
- Seat counts stored in bytes: the model keeps the bound of six seats where the code checks it and otherwise uses unbounded numbers.
- MultiwayFixedState.FixedState.Move: the all-in branch for a target at or below the bet is not modelled, because the menu never lists AllIn there.
- The schema version, ante, straddle and rebuy switches of rules and histories, the identity hashes, and the boards carried by replay events.
- MultiwayTerminal: the overload of settlement that overrides the rake policy by rules, and utilities as floating point.
- FlatBuilder: public-chance collapsing in bucketed mode, packed boards, and the debug-key index of infoset records.
- Terminal-kind payloads (winner, contribution loss, board completeness) recorded beside a node's utility.
- HeadsUpConfig: range inputs, range policies, bucket counts, abstraction paths and the rake fields of the configuration.
- HeadsUpState: infoset keys through abstraction tables and the display form of the history with empty streets.
- HeadsUpGame.TerminalTagOf: a finished hand whose utility throws, for want of private cards, is a leaf of no kind that laying out refuses; the original throws while visiting it.
- HeadsUpState.Legal: a menu whose arithmetic throws is modelled as an empty one. The model's recursive builder then ends in a tree that the flattening pass refuses, where the original throws one step earlier; neither makes a graph, and HeadsUpRuns.MenuFitsExactly says when.
- HeadsUpState.Apply: an action is a number; the check that a chance action fits a byte is subsumed by the card check.
- Joint two-player ranges and their normalisation: a finite double loop next to the multiway sampler.
- PrivateCompile.CompileRanges: the refusal of a seat left without positive mass is not modelled, because validation rules it out.
- The order std::sort gives equal hands: compiling adds their weights, so any order gives the same ranges.
- Arena.AlignUp: clearing the low bits of a power-of-two alignment is written as subtracting the remainder, for any positive alignment.
- ArenaMachine.ArenaObject.AllocateStorage: where the allocator of the host puts a new block is a parameter required to lie apart from the others; a failing host allocator is not modelled.
- Examples, scripts, logging, file publishing, Kuhn and Leduc poker, and the solver headers themselves.
