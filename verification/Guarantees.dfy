/** What passengers and operators can rely on, over every run of both services. */
module Guarantees {
  import opened Prelude
  import opened Inventory
  import opened Allocations
  import opened BookingLifecycle
  import Seats = SeatTransactions
  import Bookings = BookingRuns
  import HoldRuns
  import opened EndToEnd

  ghost predicate IsLive(s: System, b: Id) {
    b in s.bookings.rows && s.bookings.rows[b].status.Live()
  }

  /** The seat and leg are part of what the booking asked for. */
  ghost predicate Covers(inventory: Inventory, request: HoldRequest, schedule: Id, seat: Id, leg: int) {
    && Resolve(inventory, request).Some?
    && request.schedule == schedule && seat in request.seats
    && Resolve(inventory, request).value.from <= leg < Resolve(inventory, request).value.to
  }

  /** Row i is active and is the booking's row for its j-th seat. */
  ghost predicate OwnsBy(inventory: Inventory, s: System, b: Id, j: nat, i: nat) {
    && b in s.requests && j < |s.requests[b].seats| && i < |s.seats.allocs|
    && Resolve(inventory, s.requests[b]).Some?
    && var hold, a := Resolve(inventory, s.requests[b]).value, s.seats.allocs[i];
       && a.booking == b && a.Active()
       && a.schedule == s.requests[b].schedule && a.seat == s.requests[b].seats[j]
       && a.from == hold.from && a.to == hold.to
  }

  /** The j-th seat has exactly one such row. */
  ghost predicate OwnedOnce(inventory: Inventory, s: System, b: Id, j: nat) {
    exists i: nat :: OwnsBy(inventory, s, b, j, i) && forall i': nat :: OwnsBy(inventory, s, b, j, i') ==> i' == i
  }

  /** A live booking has exactly one active row per requested seat, with its segment, and no other row. */
  ghost predicate OwnsExactly(inventory: Inventory, s: System, b: Id) {
    && b in s.requests
    && (forall j: nat :: j < |s.requests[b].seats| ==> OwnedOnce(inventory, s, b, j))
    && (forall i: nat :: i < |s.seats.allocs| && s.seats.allocs[i].booking == b ==>
          exists j: nat :: OwnsBy(inventory, s, b, j, i))
  }

  lemma LiveRowIsActive(inventory: Inventory, s: System, b: Id, i: nat)
    requires Invariant(inventory, s) && b in s.bookings.rows
    requires s.bookings.rows[b].status != BookingStatus.CANCELLED
    requires i < |s.seats.allocs| && s.seats.allocs[i].booking == b
    ensures s.seats.allocs[i].Active()
  {
    assert StatusTracksBooking(s.seats.allocs[i], s.bookings.rows);
  }

  /** Two active rows of one seat on one segment are the same row. */
  lemma OneActiveRow(allocs: seq<Allocation>, i: nat, i': nat)
    requires NoDoubleBooking(allocs) && i < |allocs| && i' < |allocs| && allocs[i].Active() && allocs[i'].Active()
    requires allocs[i].schedule == allocs[i'].schedule && allocs[i].seat == allocs[i'].seat
    requires allocs[i].from == allocs[i'].from && allocs[i].to == allocs[i'].to
    ensures i == i'
  {
    assert allocs[i].from < allocs[i].to && allocs[i'].from < allocs[i'].to;
  }

  lemma OwnedSeat(inventory: Inventory, s: System, b: Id, j: nat) returns (i: nat)
    requires Invariant(inventory, s) && UniqueSeats(inventory.seats)
    requires b in s.requests && j < |s.requests[b].seats|
    requires Held(s.seats.replies, b) && s.bookings.rows[b].status != BookingStatus.CANCELLED
    ensures OwnsBy(inventory, s, b, j, i)
    ensures forall i': nat :: OwnsBy(inventory, s, b, j, i') ==> i' == i
  {
    i := HeldRow(inventory, s, b, j);
    LiveRowIsActive(inventory, s, b, i);
    forall i': nat | OwnsBy(inventory, s, b, j, i') ensures i' == i {
      OneActiveRow(s.seats.allocs, i, i');
    }
  }

  lemma LiveOwnsExactly(inventory: Inventory, s: System, b: Id)
    requires Invariant(inventory, s) && UniqueSeats(inventory.seats) && IsLive(s, b)
    ensures OwnsExactly(inventory, s, b)
  {
    forall j: nat | j < |s.requests[b].seats| ensures OwnedOnce(inventory, s, b, j) {
      var i := OwnedSeat(inventory, s, b, j);
    }
    forall i: nat | i < |s.seats.allocs| && s.seats.allocs[i].booking == b
      ensures exists j: nat :: OwnsBy(inventory, s, b, j, i)
    {
      RowIsRequested(inventory, s, i);
      LiveRowIsActive(inventory, s, b, i);
      var j :| 0 <= j < |s.requests[b].seats| && s.requests[b].seats[j] == s.seats.allocs[i].seat;
      assert OwnsBy(inventory, s, b, j, i);
    }
  }

  /** In every reachable state each live booking still has active allocations for exactly its seats. */
  lemma LiveBookingsOwnTheirSeats(inventory: Inventory, actions: seq<Action>, b: Id)
    requires UniqueSeats(inventory.seats) && IsLive(Run(inventory, actions), b)
    ensures OwnsExactly(inventory, Run(inventory, actions), b)
  {
    RunsKeepInvariant(inventory, actions);
    LiveOwnsExactly(inventory, Run(inventory, actions), b);
  }

  lemma OwnersApart(inventory: Inventory, s: System, b1: Id, j1: nat, i1: nat, b2: Id, j2: nat, i2: nat)
    requires NoDoubleBooking(s.seats.allocs) && b1 != b2
    requires OwnsBy(inventory, s, b1, j1, i1) && OwnsBy(inventory, s, b2, j2, i2)
    requires s.requests[b1].schedule == s.requests[b2].schedule
    requires s.requests[b1].seats[j1] == s.requests[b2].seats[j2]
    ensures var h1, h2 := Resolve(inventory, s.requests[b1]).value, Resolve(inventory, s.requests[b2]).value;
            h1.to <= h2.from || h2.to <= h1.from
  {
    assert i1 < i2 ==> Disjoint(s.seats.allocs[i1], s.seats.allocs[i2]);
    assert i2 < i1 ==> Disjoint(s.seats.allocs[i2], s.seats.allocs[i1]);
  }

  /** No double booking, end to end: two live bookings never own the same seat on the same leg. */
  lemma NoSharedLeg(inventory: Inventory, actions: seq<Action>, b1: Id, b2: Id, schedule: Id, seat: Id, leg: int)
    requires UniqueSeats(inventory.seats) && b1 != b2
    requires IsLive(Run(inventory, actions), b1) && IsLive(Run(inventory, actions), b2)
    ensures var s := Run(inventory, actions);
            && b1 in s.requests && b2 in s.requests
            && !(Covers(inventory, s.requests[b1], schedule, seat, leg)
                 && Covers(inventory, s.requests[b2], schedule, seat, leg))
  {
    RunsKeepInvariant(inventory, actions);
    var s := Run(inventory, actions);
    if Covers(inventory, s.requests[b1], schedule, seat, leg)
       && Covers(inventory, s.requests[b2], schedule, seat, leg) {
      var j1 :| 0 <= j1 < |s.requests[b1].seats| && s.requests[b1].seats[j1] == seat;
      var j2 :| 0 <= j2 < |s.requests[b2].seats| && s.requests[b2].seats[j2] == seat;
      var i1 := OwnedSeat(inventory, s, b1, j1);
      var i2 := OwnedSeat(inventory, s, b2, j2);
      OwnersApart(inventory, s, b1, j1, i1, b2, j2, i2);
    }
  }

  // ---- Agreement once events are handled ----

  /** Every seat change the outbox asks for on this booking has been handled at least once. */
  ghost predicate AllHandled(s: System, b: Id) {
    forall c: Seats.Change, k: Id :: Notifies(s.bookings.outbox, c, k, b) ==> c.Key(k) in s.seats.keys
  }

  ghost predicate AllRows(s: System, b: Id, status: AllocationStatus) {
    forall i :: 0 <= i < |s.seats.allocs| && s.seats.allocs[i].booking == b ==> s.seats.allocs[i].status == status
  }

  lemma AnnouncedStatusNotifies(s: System, b: Id) returns (k: Id)
    requires Bookings.Invariant(s.bookings) && b in s.bookings.rows
    requires s.bookings.rows[b].status == BookingStatus.CONFIRMED
             || s.bookings.rows[b].status == BookingStatus.CANCELLED
    ensures Notifies(s.bookings.outbox,
                     if s.bookings.rows[b].status == BookingStatus.CONFIRMED then Seats.Confirm else Seats.Cancel, k, b)
  {
    var trail := s.bookings.trails[b];
    assert Bookings.RowMatchesTrail(s.bookings.rows[b], trail);
    assert Bookings.HasEvent(s.bookings.outbox, b, |trail|);
    k :| 0 <= k < |s.bookings.outbox| && s.bookings.outbox[k].booking == b && s.bookings.outbox[k].version == |trail|;
    assert Bookings.EventIsTrue(s.bookings.outbox[k], s.bookings.trails);
  }

  lemma SettledAgree(inventory: Inventory, s: System, b: Id)
    requires Invariant(inventory, s) && b in s.bookings.rows && AllHandled(s, b)
    ensures s.bookings.rows[b].status == BookingStatus.CONFIRMED ==> AllRows(s, b, AllocationStatus.CONFIRMED)
    ensures s.bookings.rows[b].status == BookingStatus.CANCELLED ==> AllRows(s, b, AllocationStatus.CANCELLED)
  {
    if s.bookings.rows[b].status == BookingStatus.CONFIRMED || s.bookings.rows[b].status == BookingStatus.CANCELLED {
      var k := AnnouncedStatusNotifies(s, b);
      var c := if s.bookings.rows[b].status == BookingStatus.CONFIRMED then Seats.Confirm else Seats.Cancel;
      assert c.Key(k) in s.seats.keys;
      SettledRows(s, b, c);
    }
  }

  /** Rows with nothing left to do for a change already have its status. */
  lemma SettledRows(s: System, b: Id, c: Seats.Change)
    requires RowsTrackBookings(s) && Seats.MatchingRows(s.seats.allocs, b, c.From()) == {}
    requires b in s.bookings.rows && (c.Confirm? ==> s.bookings.rows[b].status != BookingStatus.CANCELLED)
    ensures AllRows(s, b, c.To())
  {
    forall i: nat | i < |s.seats.allocs| && s.seats.allocs[i].booking == b
      ensures s.seats.allocs[i].status == c.To()
    {
      assert StatusTracksBooking(s.seats.allocs[i], s.bookings.rows);
      assert i !in Seats.MatchingRows(s.seats.allocs, b, c.From());
    }
  }

  /**
   * Agreement: whatever the order and the repetitions in which events were handled, once all of a booking's
   * events have been, a CONFIRMED booking has only CONFIRMED rows and a CANCELLED one only CANCELLED rows.
   */
  lemma AgreementWhenHandled(inventory: Inventory, actions: seq<Action>, b: Id)
    requires UniqueSeats(inventory.seats)
    requires b in Run(inventory, actions).bookings.rows && AllHandled(Run(inventory, actions), b)
    ensures var s := Run(inventory, actions);
            && (s.bookings.rows[b].status == BookingStatus.CONFIRMED ==> AllRows(s, b, AllocationStatus.CONFIRMED))
            && (s.bookings.rows[b].status == BookingStatus.CANCELLED ==> AllRows(s, b, AllocationStatus.CANCELLED))
  {
    RunsKeepInvariant(inventory, actions);
    SettledAgree(inventory, Run(inventory, actions), b);
  }

  // ---- Which finished bookings give their seats back ----

  ghost predicate HasActiveRow(s: System, b: Id) {
    exists i :: 0 <= i < |s.seats.allocs| && s.seats.allocs[i].booking == b && s.seats.allocs[i].Active()
  }

  lemma SettledKeepsSeats(inventory: Inventory, s: System, b: Id)
    requires Invariant(inventory, s) && UniqueSeats(inventory.seats)
    requires b in s.bookings.rows && s.bookings.rows[b].status.Final() && AllHandled(s, b)
    ensures b in s.requests
    ensures !HasActiveRow(s, b) <==>
              || s.bookings.rows[b].status == BookingStatus.CANCELLED
              || Seats.HoldKey(s.requests[b].event) !in s.seats.keys
              || s.requests[b].seats == []
  {
    TracesMeanHeld(inventory, s, b);
    if s.bookings.rows[b].status == BookingStatus.CANCELLED {
      SettledAgree(inventory, s, b);
    } else if Held(s.seats.replies, b) {
      HeldKeepsSeats(inventory, s, b);
    }
  }

  /**
   * A finished booking with all its events handled keeps no seat exactly when it was CANCELLED, or its hold
   * was never committed, or asked for no seat. FAILED and EXPIRED are never announced, so they release nothing.
   */
  lemma FinishedKeepsSeats(inventory: Inventory, actions: seq<Action>, b: Id)
    requires UniqueSeats(inventory.seats)
    requires var s := Run(inventory, actions);
             b in s.bookings.rows && s.bookings.rows[b].status.Final() && AllHandled(s, b)
    ensures var s := Run(inventory, actions);
            && b in s.requests
            && (!HasActiveRow(s, b) <==>
                  || s.bookings.rows[b].status == BookingStatus.CANCELLED
                  || Seats.HoldKey(s.requests[b].event) !in s.seats.keys
                  || s.requests[b].seats == [])
  {
    RunsKeepInvariant(inventory, actions);
    SettledKeepsSeats(inventory, Run(inventory, actions), b);
  }

  /** A committed hold keeps its rows active unless the booking was cancelled. */
  lemma HeldKeepsSeats(inventory: Inventory, s: System, b: Id)
    requires Invariant(inventory, s) && UniqueSeats(inventory.seats) && b in s.requests
    requires Held(s.seats.replies, b) && s.bookings.rows[b].status != BookingStatus.CANCELLED
    ensures HasActiveRow(s, b) <==> s.requests[b].seats != []
    ensures Seats.HoldKey(s.requests[b].event) in s.seats.keys
  {
    var k := HeldHold(inventory, s, b);
    if s.requests[b].seats != [] {
      var i := OwnedSeat(inventory, s, b, 0);
    }
    forall i: nat | i < |s.seats.allocs| && s.seats.allocs[i].booking == b ensures s.requests[b].seats != [] {
      RowIsRequested(inventory, s, i);
    }
  }

  /** Rows and a recorded event key both mean that the hold has committed. */
  lemma TracesMeanHeld(inventory: Inventory, s: System, b: Id)
    requires Invariant(inventory, s) && UniqueSeats(inventory.seats) && b in s.requests
    ensures HasActiveRow(s, b) || Seats.HoldKey(s.requests[b].event) in s.seats.keys ==> Held(s.seats.replies, b)
  {
    if i: nat :| i < |s.seats.allocs| && s.seats.allocs[i].booking == b {
      RowIsRequested(inventory, s, i);
    } else if Seats.HoldKey(s.requests[b].event) in s.seats.keys {
      var holds := HoldRuns.Committed(s.seats.replies);
      var k :| 0 <= k < |holds| && holds[k].event == s.requests[b].event;
      assert Resolve(inventory, s.seats.requests[holds[k].event]) == Some(holds[k]);
      assert holds[k].booking == b;
    }
  }

  // ---- A run in which a FAILED booking keeps a seat ----

  const OneSeat := Projected(
    [RouteStop(1, 10, 1, 0), RouteStop(1, 20, 2, 100)], [Seat(5, 1, 1, 50, 1, 10000)])

  const OneRequest := HoldRequest(7, 3, 1, [5], 10, 20, 1, 2, 600000)

  const OneHold := Hold(7, 3, 1, [Line(5, 50, 10000)], 1, 2)

  lemma OneRequestResolves()
    ensures UniqueSeats(OneSeat.seats) && Resolve(OneSeat, OneRequest) == Some(OneHold)
  {
    var stops, seats := OneSeat.stops, OneSeat.seats;
    assert stops[1..] == [RouteStop(1, 20, 2, 100)];
    assert StopAt(stops, 1, 1) == Some(stops[0]);
    assert StopAt(stops, 1, 2) == StopAt(stops[1..], 1, 2) == Some(stops[1]);
    assert ResolveSegment(stops, OneRequest) == Some(Segment(stops[0], stops[1], 100));
    assert seats[1..] == [];
    assert FindManyByIds(seats, 1, [5]) == seats;
    assert SeatWithId(seats, 5) == Some(seats[0]);
    assert Lines(seats, [5], 100) == [Line(5, 50, 10000)];
  }

  lemma RunContinues(inventory: Inventory, actions: seq<Action>, a: Action)
    ensures Run(inventory, actions + [a]) == Step(inventory, Run(inventory, actions), a)
  {
    assert (actions + [a])[..|actions|] == actions;
  }

  /** The first delivery of the hold is refused and the booking fails. */
  lemma RefusedFirst() returns (actions: seq<Action>, s: System)
    ensures s == Run(OneSeat, actions)
    ensures s.seats == Seats.State([], {}, [Seats.SeatsHoldFailed(7, 3, Seats.SCHEDULE_NOT_FOUND)],
                                   map[7 := OneRequest], map[])
    ensures s.bookings.rows == map[3 := Row(FAILED, 2)] && s.bookings.txs == map[] && s.requests == map[3 := OneRequest]
    ensures s.bookings.outbox == [Bookings.StatusEvent(3, None, PENDING, 1)]
  {
    RunContinues(OneSeat, [], Create(OneRequest));
    var s1 := Step(OneSeat, Init, Create(OneRequest));
    var refuse := OnSeats(Seats.RefuseEarly(7, Seats.SCHEDULE_NOT_FOUND));
    RunContinues(OneSeat, [] + [Create(OneRequest)], refuse);
    var s2 := Step(OneSeat, s1, refuse);
    var begin, read, write :=
      OnBookings(Bookings.Begin(0, RejectFailed, 3)), OnBookings(Bookings.Read(0)), OnBookings(Bookings.Write(0));
    assert Refused(s2.seats.replies, 3) by {
      assert s2.seats.replies[0] == Seats.SeatsHoldFailed(7, 3, Seats.SCHEDULE_NOT_FOUND);
    }
    RunContinues(OneSeat, [] + [Create(OneRequest)] + [refuse], begin);
    var s3 := Step(OneSeat, s2, begin);
    RunContinues(OneSeat, [] + [Create(OneRequest)] + [refuse] + [begin], read);
    var s4 := Step(OneSeat, s3, read);
    RunContinues(OneSeat, [] + [Create(OneRequest)] + [refuse] + [begin] + [read], write);
    s := Step(OneSeat, s4, write);
    actions := [] + [Create(OneRequest)] + [refuse] + [begin] + [read] + [write];
    assert s3.bookings.txs == map[0 := Bookings.Tx(RejectFailed, 3, None)];
    assert s4.bookings.txs == map[0 := Bookings.Tx(RejectFailed, 3, Some(Row(PENDING, 1)))];
  }

  const Begin := Seats.BeginHold(0, 7, 1, [5])
  const Next := Seats.Advance(0)

  function Redelivered(s: Seats.State): Seats.State {
    Seats.Step(OneSeat, Seats.Step(OneSeat, Seats.Step(OneSeat, s, Begin), Next), Next)
  }

  function Completed(s: Seats.State): Seats.State {
    Seats.Step(OneSeat, Seats.Step(OneSeat, s, Next), Next)
  }

  lemma RedeliveryTakesTheSeat(s: Seats.State)
    requires s.allocs == [] && s.keys == {} && s.requests == map[7 := OneRequest] && s.txs == map[]
    ensures Redelivered(s) == s.(txs := map[0 := Seats.HoldTx(OneHold, 1, [5], Seats.Locking(1))])
  {
    OneRequestResolves();
    var t1 := Seats.Step(OneSeat, s, Begin);
    assert t1 == s.(txs := map[0 := Seats.HoldTx(OneHold, 1, [5], Seats.Checking)]);
    var t2 := Seats.Step(OneSeat, t1, Next);
    assert t2 == s.(txs := map[0 := Seats.HoldTx(OneHold, 1, [5], Seats.Locking(0))]);
  }

  lemma CompletionInsertsTheRow(s: Seats.State)
    requires s.allocs == [] && s.keys == {} && s.txs == map[0 := Seats.HoldTx(OneHold, 1, [5], Seats.Locking(1))]
    ensures Completed(s).allocs == Rows(OneHold, 1) && Completed(s).keys == {Seats.HoldKey(7)}
    ensures Completed(s).replies == s.replies + [Seats.SeatsHeld(OneHold, 1)]
  {
    var t1 := Seats.Step(OneSeat, s, Next);
    assert t1 == s.(txs := map[0 := Seats.HoldTx(OneHold, 1, [5], Seats.Inserting)]);
    assert !Seats.Waits(t1, 0);
  }

  lemma RunSeats(actions: seq<Action>, step: Seats.Action)
    requires step.BeginHold? || step.Advance?
    ensures var s := Run(OneSeat, actions);
            Run(OneSeat, actions + [OnSeats(step)]) == s.(seats := Seats.Step(OneSeat, s.seats, step))
  {
    RunContinues(OneSeat, actions, OnSeats(step));
  }

  const Redelivery := [OnSeats(Begin), OnSeats(Next), OnSeats(Next), OnSeats(Next), OnSeats(Next)]

  lemma RedeliveryRuns(actions: seq<Action>, s: System)
    requires Run(OneSeat, actions) == s
    ensures Run(OneSeat, actions + Redelivery) == s.(seats := Completed(Redelivered(s.seats)))
  {
    var a1 := actions + [OnSeats(Begin)];
    var a2 := a1 + [OnSeats(Next)];
    var a3 := a2 + [OnSeats(Next)];
    var a4 := a3 + [OnSeats(Next)];
    RunSeats(actions, Begin);
    RunSeats(a1, Next);
    RunSeats(a2, Next);
    RunSeats(a3, Next);
    RunSeats(a4, Next);
    assert a4 + [OnSeats(Next)] == actions + Redelivery;
  }

  /** Without the refusal, the first delivery commits the hold. */
  lemma HoldCommits() returns (actions: seq<Action>)
    ensures actions == [Create(OneRequest)] + Redelivery
    ensures var s := Run(OneSeat, actions);
            && s.seats.allocs == Rows(OneHold, 1) && s.seats.replies == [Seats.SeatsHeld(OneHold, 1)]
            && s.bookings.rows == map[3 := Row(PENDING, 1)] && s.bookings.txs == map[]
  {
    var created := [] + [Create(OneRequest)];
    RunContinues(OneSeat, [], Create(OneRequest));
    var s := Run(OneSeat, created);
    RedeliveryTakesTheSeat(s.seats);
    CompletionInsertsTheRow(Redelivered(s.seats));
    RedeliveryRuns(created, s);
    actions := created + Redelivery;
  }

  /** A redelivery then commits the hold; nothing will ever release its seat. */
  lemma FailedBookingCanKeepItsSeat() returns (actions: seq<Action>)
    ensures var s := Run(OneSeat, actions);
            && UniqueSeats(OneSeat.seats)
            && 3 in s.bookings.rows && s.bookings.rows[3].status == FAILED && AllHandled(s, 3) && HasActiveRow(s, 3)
  {
    var s;
    actions, s := RefusedFirst();
    RedeliveryTakesTheSeat(s.seats);
    CompletionInsertsTheRow(Redelivered(s.seats));
    RedeliveryRuns(actions, s);
    actions := actions + Redelivery;
    assert Run(OneSeat, actions).seats.allocs[0] == Rows(OneHold, 1)[0];
  }
}
