/**
 The two loops around the vector machine: the snapshot check that accumulates over the seats,
 and the replay of a recorded hand.
 */
module MultiwayReplay {
  import opened Arithmetic
  import opened Wrappers
  import opened CommonTypes
  import opened MultiwayBetting
  import opened MultiwayProgress
  import opened MultiwaySnapshot

  lemma {:induction false} SumTotalsGrows(seats: seq<Seat>, k: nat)
    requires k <= |seats|
    requires forall i :: k <= i < |seats| ==> seats[i].total >= 0
    ensures SumTotals(seats[..k]) <= SumTotals(seats)
  {
    if k == |seats| {
      assert seats[..k] == seats;
    } else {
      var front := seats[..|seats| - 1];
      SumTotalsGrows(front, k);
      assert front[..k] == seats[..k];
    }
  }

  lemma TotalsOnlyGrow(seats: seq<Seat>, bet: int, minRaise: int, k: nat)
    requires k <= |seats|
    ensures (forall i :: 0 <= i < |seats| ==> SnapshotSeatValid(seats[i], bet, minRaise)) ==>
              SumTotals(seats[..k]) <= SumTotals(seats)
  {
    if forall i :: 0 <= i < |seats| ==> SnapshotSeatValid(seats[i], bet, minRaise) {
      SumTotalsGrows(seats, k);
    }
  }

  /** What the accumulators gain from one seat. */
  lemma OneMoreSeat(seats: seq<Seat>, k: nat)
    requires k < |seats|
    ensures SumTotals(seats[..k + 1]) == SumTotals(seats[..k]) + seats[k].total
    ensures HighestStreet(seats[..k + 1]) == Max(HighestStreet(seats[..k]), seats[k].street)
    ensures CountActionable(seats[..k + 1]) == CountActionable(seats[..k]) + if seats[k].Actionable() then 1 else 0
  {
    assert seats[..k + 1][..k] == seats[..k];
  }

  method CheckSeat(s: Seat, bet: int, minRaise: int) returns (valid: bool)
    ensures valid <==> SnapshotSeatValid(s, bet, minRaise)
  {
    if !FixedSeatValid(s) || s.betFaced < 0 || s.betFaced > bet || s.stack + s.total > INT_MAX {
      return false;
    }
    if s.Actionable() {
      if s.street < bet && !s.pending {
        return false;
      }
      if s.pending {
        return !(s.hasActed && s.street == bet) && s.mayRaise == RaiseRight(s, bet, minRaise);
      }
      return !s.mayRaise;
    }
    return true;
  }

  /** The accumulators of the snapshot check: highest street total, open responses, table total. */
  method ScanSeats(seats: seq<Seat>, bet: int, minRaise: int)
    returns (valid: bool, maxStreet: int, owing: nat, actionable: nat)
    ensures valid <==>
              && (forall i :: 0 <= i < |seats| ==> SnapshotSeatValid(seats[i], bet, minRaise))
              && (seats == [] || SumTotals(seats) <= INT_MAX)
    ensures valid ==> maxStreet == HighestStreet(seats) && actionable == CountActionable(seats)
    ensures valid ==> (owing == 0 <==> forall i :: 0 <= i < |seats| ==> !seats[i].OwesResponse())
  {
    assert SumTotals(seats[..0]) == 0 && HighestStreet(seats[..0]) == 0 && CountActionable(seats[..0]) == 0;
    hide SnapshotSeatValid, SumTotals, HighestStreet, CountActionable;
    maxStreet, owing, actionable := 0, 0, 0;
    var tableTotal := 0;
    for seat := 0 to |seats|
      invariant forall i :: 0 <= i < seat ==> SnapshotSeatValid(seats[i], bet, minRaise)
      invariant maxStreet == HighestStreet(seats[..seat])
      invariant tableTotal == SumTotals(seats[..seat]) && (seat > 0 ==> tableTotal <= INT_MAX)
      invariant actionable == CountActionable(seats[..seat])
      invariant owing == 0 <==> forall i :: 0 <= i < seat ==> !seats[i].OwesResponse()
    {
      OneMoreSeat(seats, seat);
      valid := CheckSeat(seats[seat], bet, minRaise);
      tableTotal := tableTotal + seats[seat].total;
      if !valid || tableTotal > INT_MAX {
        TotalsOnlyGrow(seats, bet, minRaise, seat + 1);
        return false, maxStreet, owing, actionable;
      }
      var owes := seats[seat].OwesResponse();
      actionable := actionable + if seats[seat].Actionable() then 1 else 0;
      owing := owing + if owes then 1 else 0;
      maxStreet := Max(maxStreet, seats[seat].street);
    }
    assert seats[..|seats|] == seats;
    valid := true;
  }

  method EverybodyAsked(seats: seq<Seat>) returns (valid: bool)
    ensures valid <==> forall i :: 0 <= i < |seats| && seats[i].Actionable() ==> seats[i].hasActed || seats[i].pending
  {
    for seat := 0 to |seats|
      invariant forall i :: 0 <= i < seat && seats[i].Actionable() ==> seats[i].hasActed || seats[i].pending
    {
      if seats[seat].Actionable() && !seats[seat].hasActed && !seats[seat].pending {
        return false;
      }
    }
    return true;
  }

  /** MultiwayBettingSnapshot::validate as the source runs it, seat loop by seat loop. */
  method ValidateSnapshot(t: Table) returns (valid: bool)
    ensures valid <==> SnapshotValid(t)
  {
    var n := |t.seats|;
    if !(2 <= n <= MAX_SEATS) || t.bigBlind <= 0 || t.minRaise <= 0 || t.bet < 0 || !BettingStreet(t.street)
       || !(-1 <= t.current < n) || !(-1 <= t.aggressor < n) {
      return false;
    }
    var maxStreet, owing, actionable;
    valid, maxStreet, owing, actionable := ScanSeats(t.seats, t.bet, t.minRaise);
    if !valid || maxStreet != t.bet || t.bet + t.minRaise > INT_MAX {
      return false;
    }
    ActionableCountMeaning(t.seats);
    if actionable > 1 {
      var asked := EverybodyAsked(t.seats);
      if !asked {
        return false;
      }
    }
    return if t.current >= 0 then t.seats[t.current].OwesResponse() else owing == 0;
  }

  /** MultiwayHandHistory::validate for one event; its board is not part of this model. */
  predicate EventInRange(event: Event, n: nat) {
    match event
    case Decision(seat, _, _) => 0 <= seat < n
    case StreetStart(_, first) => 0 <= first < n
  }

  predicate Shaped(t: Table, n: nat) {
    |t.seats| == n && t.current < n
  }

  lemma RestoreKeepsShape(r: Result<Table, BettingError>, n: nat)
    requires r.Success? ==> |r.value.seats| == n
    requires Rethrow(r).Success?
    ensures Shaped(Rethrow(r).value, n)
  {
  }

  lemma StepKeepsShape(t: Table, event: Event, n: nat)
    requires Shaped(t, n)
    requires VectorStep(t, event).Success?
    ensures Shaped(VectorStep(t, event).value, n) && EventInRange(event, n)
  {
    match event
    case Decision(seat, action, target) =>
      MovedFrame(t, action, target);
      PassTurnFrame(Moved(t, action, target));
      RestoreKeepsShape(Apply(t, action, target), n);
    case StreetStart(next, first) =>
      StreetFrame(t, next, first);
      RestoreKeepsShape(BeginNextStreet(t, next, first), n);
  }

  lemma {:induction false} AcceptedRunKeepsShape(root: Table, events: seq<Event>, n: nat)
    requires Shaped(root, n)
    requires VectorRun(root, events).Success?
    ensures Shaped(VectorRun(root, events).value, n)
    ensures events != [] ==> EventInRange(events[|events| - 1], n)
  {
    if events != [] {
      AcceptedRunKeepsShape(root, events[..|events| - 1], n);
      StepKeepsShape(VectorRun(root, events[..|events| - 1]).value, events[|events| - 1], n);
    }
  }

  lemma {:induction false} RejectedPrefix(root: Table, events: seq<Event>, k: nat)
    requires k <= |events| && VectorRun(root, events[..k]).Failure?
    ensures VectorRun(root, events).Failure?
  {
    if k == |events| {
      assert events[..k] == events;
    } else {
      var front := events[..|events| - 1];
      assert front[..k] == events[..k];
      RejectedPrefix(root, front, k);
    }
  }

  /** An event outside the table is never part of an accepted run. */
  lemma OutOfRangeEventIsRefused(root: Table, events: seq<Event>, k: nat, n: nat)
    requires Shaped(root, n)
    requires k < |events| && !EventInRange(events[k], n)
    ensures VectorRun(root, events).Failure?
  {
    var prefix := events[..k + 1];
    assert prefix[|prefix| - 1] == events[k];
    if VectorRun(root, prefix).Success? {
      AcceptedRunKeepsShape(root, prefix, n);
    }
    RejectedPrefix(root, events, k + 1);
  }

  lemma RootIsShaped(config: GameConfig)
    requires VectorRoot(config).Success?
    ensures Shaped(VectorRoot(config).value, |config.startingStacks|)
  {
    assert |Refresh(Dealt(config)).seats| == |config.startingStacks|;
    RestoreKeepsShape(Root(config), |config.startingStacks|);
  }

  /**
   replay_multiway_hand: the range check made up front refuses nothing that the machine would have
   accepted, so a replay succeeds exactly when the run does.
   */
  method ReplayHand(config: GameConfig, events: seq<Event>) returns (r: Result<Table, BettingError>)
    ensures r.Success? <==> VectorRoot(config).Success? && VectorRun(VectorRoot(config).value, events).Success?
    ensures r.Success? ==> r == VectorRun(VectorRoot(config).value, events)
  {
    if !config.Valid() {
      return Failure(InvalidConfig);
    }
    var n := |config.startingStacks|;
    for k := 0 to |events|
      invariant forall j :: 0 <= j < k ==> EventInRange(events[j], n)
    {
      if !EventInRange(events[k], n) {
        if VectorRoot(config).Success? {
          RootIsShaped(config);
          OutOfRangeEventIsRefused(VectorRoot(config).value, events, k, n);
        }
        return Failure(InvalidConfig);
      }
    }
    hide VectorRoot, VectorRun, EventInRange;
    r := VectorRoot(config);
    if r.Failure? {
      return;
    }
    r := PlayEvents(r.value, events);
  }

  /** The loop over the events, each applied to the state the one before left. */
  method PlayEvents(root: Table, events: seq<Event>) returns (r: Result<Table, BettingError>)
    ensures r.Success? <==> VectorRun(root, events).Success?
    ensures r.Success? ==> r == VectorRun(root, events)
  {
    hide VectorStep;
    r := Success(root);
    for k := 0 to |events|
      invariant r == VectorRun(root, events[..k]) && r.Success?
    {
      assert events[..k + 1][..k] == events[..k];
      r := VectorStep(r.value, events[k]);
      if r.Failure? {
        RejectedPrefix(root, events, k + 1);
        return;
      }
    }
    assert events[..|events|] == events;
  }
}
