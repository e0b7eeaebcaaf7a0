/**
 * Booking-service and inventory-service together. Every message ever written stays in its outbox and may be
 * delivered at any later time, any number of times, in any order, or never; transactions on both sides
 * interleave statement by statement. The schedule projection is fixed.
 */
module EndToEnd {
  import opened Prelude
  import opened Inventory
  import opened Allocations
  import opened BookingLifecycle
  import Seats = SeatTransactions
  import Bookings = BookingRuns
  import HoldRuns

  datatype System = System(seats: Seats.State, bookings: Bookings.State, requests: map<Id, HoldRequest>)

  const Init := System(Seats.Init, Bookings.Init, map[])

  datatype Action =
    | Create(request: HoldRequest)
    | OnSeats(step: Seats.Action)
    | OnBookings(move: Bookings.Action)

  /** `BookingStatusChangedConsumer`: which seat change an outbox row asks for. Its position is its event id. */
  predicate Notifies(outbox: seq<Bookings.StatusEvent>, change: Seats.Change, event: Id, b: Id) {
    && event < |outbox| && outbox[event].booking == b
    && match outbox[event].current
       case CONFIRMED => change.Confirm?
       case CANCELLED => change.Cancel?
       case FAILED => change.Cancel?
       case EXPIRED => change.Cancel?
       case _ => false
  }

  /** CANCELLED, FAILED and EXPIRED ask for the seats back, CONFIRMED for their confirmation, and nothing else asks. */
  lemma AskedExactly(outbox: seq<Bookings.StatusEvent>, change: Seats.Change, event: Id)
    requires event < |outbox|
    ensures var e := outbox[event];
            Notifies(outbox, change, event, e.booking) <==>
              if change.Confirm? then e.current == BookingStatus.CONFIRMED
              else e.current == BookingStatus.CANCELLED || e.current.EXPIRED? || e.current.FAILED?
  {
  }

  ghost predicate Held(replies: seq<Seats.Reply>, b: Id) {
    exists k :: 0 <= k < |HoldRuns.Committed(replies)| && HoldRuns.Committed(replies)[k].booking == b
  }

  ghost predicate Refused(replies: seq<Seats.Reply>, b: Id) {
    exists r :: r in replies && r.SeatsHoldFailed? && r.booking == b
  }

  /** A transaction begins only on a message that was sent; the calls of users and timers come at any time. */
  ghost predicate Allowed(s: System, a: Action) {
    match a
    case Create(request) => request.booking !in s.bookings.rows && request.event !in s.seats.requests
    case OnSeats(step) =>
      && !step.Publish?
      && (step.BeginStatus? ==> Notifies(s.bookings.outbox, step.change, step.event, step.booking))
    case OnBookings(move) =>
      && !move.Create?
      && (move.Begin? && move.kind.AcceptHeld? ==> Held(s.seats.replies, move.booking))
      && (move.Begin? && move.kind.RejectFailed? ==> Refused(s.seats.replies, move.booking))
  }

  ghost function Step(inventory: Inventory, s: System, a: Action): System {
    if !Allowed(s, a) then s
    else
      match a
      case Create(request) =>
        System(Seats.Step(inventory, s.seats, Seats.Publish(request)),
               Bookings.Step(s.bookings, Bookings.Create(request.booking)),
               s.requests[request.booking := request])
      case OnSeats(step) => s.(seats := Seats.Step(inventory, s.seats, step))
      case OnBookings(move) => s.(bookings := Bookings.Step(s.bookings, move))
  }

  ghost function Run(inventory: Inventory, actions: seq<Action>): System {
    if actions == [] then Init
    else Step(inventory, Run(inventory, actions[..|actions| - 1]), actions[|actions| - 1])
  }

  // ---- The invariant ----

  /** One hold request per booking. */
  ghost predicate RequestsLinked(s: System) {
    && s.requests.Keys == s.bookings.rows.Keys
    && (forall b :: b in s.requests ==>
          s.requests[b].booking == b && s.requests[b].event in s.seats.requests
          && s.seats.requests[s.requests[b].event] == s.requests[b])
    && (forall e :: e in s.seats.requests ==>
          s.seats.requests[e].booking in s.requests && s.requests[s.seats.requests[e].booking] == s.seats.requests[e])
  }

  /** The booking has accepted a SeatsHeld reply. */
  predicate Accepted(status: BookingStatus) {
    status.Live() || status == BookingStatus.CANCELLED
  }

  ghost predicate AcceptanceIsBacked(s: System) {
    && (forall t :: t in s.bookings.txs && s.bookings.txs[t].kind.AcceptHeld? ==>
          Held(s.seats.replies, s.bookings.txs[t].booking))
    && (forall b :: b in s.bookings.rows && Accepted(s.bookings.rows[b].status) ==> Held(s.seats.replies, b))
  }

  ghost predicate NotifiedTx(outbox: seq<Bookings.StatusEvent>, tx: Seats.Tx) {
    tx.StatusTx? ==> Notifies(outbox, tx.change, tx.event, tx.booking)
  }

  ghost predicate NotifiedKey(outbox: seq<Bookings.StatusEvent>, change: Seats.Change, event: Id) {
    event < |outbox| && Notifies(outbox, change, event, outbox[event].booking)
  }

  /** Status changes run only for events of the outbox. */
  ghost predicate ChangesAreNotified(s: System) {
    && (forall t :: t in s.seats.txs ==> NotifiedTx(s.bookings.outbox, s.seats.txs[t]))
    && (forall c: Seats.Change, k: Id :: c.Key(k) in s.seats.keys ==> NotifiedKey(s.bookings.outbox, c, k))
  }

  ghost predicate StatusTracksBooking(a: Allocation, rows: map<Id, Row>) {
    && a.status != AllocationStatus.EXPIRED
    && (a.status == AllocationStatus.CANCELLED ==>
          a.booking in rows && rows[a.booking].status == BookingStatus.CANCELLED)
  }

  /** Only cancelled bookings lose rows. */
  ghost predicate RowsTrackBookings(s: System) {
    forall i :: 0 <= i < |s.seats.allocs| ==> StatusTracksBooking(s.seats.allocs[i], s.bookings.rows)
  }

  /** Nothing is left to do for a handled event, and an update in flight covers all there is to do. */
  ghost predicate HandledIsSettled(s: System) {
    && (forall c: Seats.Change, k: Id :: c.Key(k) in s.seats.keys && k < |s.bookings.outbox| ==>
          Seats.MatchingRows(s.seats.allocs, s.bookings.outbox[k].booking, c.From()) == {})
    && (forall t :: t in s.seats.txs && s.seats.txs[t].StatusTx? && s.seats.txs[t].step.Writing? ==>
          Seats.MatchingRows(s.seats.allocs, s.seats.txs[t].booking, s.seats.txs[t].change.From())
          <= s.seats.txs[t].step.targets)
  }

  ghost predicate Invariant(inventory: Inventory, s: System) {
    && Seats.Invariant(inventory, s.seats) && HoldRuns.AtMostOnce(inventory, s.seats)
    && Bookings.Invariant(s.bookings)
    && RequestsLinked(s) && AcceptanceIsBacked(s) && ChangesAreNotified(s)
    && RowsTrackBookings(s) && HandledIsSettled(s)
  }

  // ---- Consequences of the invariant on one booking ----

  /** A release is asked for only by the CANCELLED event: FAILED and EXPIRED are never announced. */
  lemma NotifiedStatus(s: System, change: Seats.Change, event: Id, b: Id)
    requires Bookings.Invariant(s.bookings) && Notifies(s.bookings.outbox, change, event, b)
    ensures b in s.bookings.rows && Accepted(s.bookings.rows[b].status)
    ensures change.Cancel? ==> s.bookings.rows[b].status == BookingStatus.CANCELLED
    ensures s.bookings.rows[b].status == BookingStatus.CONFIRMED ==> change.Confirm?
  {
    var e := s.bookings.outbox[event];
    assert Bookings.EventIsTrue(e, s.bookings.trails);
    var trail := s.bookings.trails[b];
    assert Bookings.RowMatchesTrail(s.bookings.rows[b], trail);
    LawfulShape(trail);
    if e.version < |trail| {
      assert trail[e.version - 1] == e.current && !e.current.Final();
      assert trail[e.version - 1].Rank() < trail[|trail| - 1].Rank();
      assert Edge(trail[|trail| - 2], trail[|trail| - 1]);
      ConfirmedThenAccepted(trail, e.version - 1);
    }
  }

  /** After CONFIRMED a booking can only be cancelled. */
  lemma {:induction false} ConfirmedThenAccepted(trail: seq<BookingStatus>, i: nat)
    requires Lawful(trail) && i < |trail| && trail[i] == BookingStatus.CONFIRMED
    ensures forall j :: i <= j < |trail| ==> Accepted(trail[j]) && trail[j].Rank() >= 5
  {
    if j :| i <= j < |trail| && !(Accepted(trail[j]) && trail[j].Rank() >= 5) {
      LastUnaccepted(trail, i, j);
    }
  }

  lemma {:induction false} LastUnaccepted(trail: seq<BookingStatus>, i: nat, j: nat)
    requires Lawful(trail) && i <= j < |trail| && trail[i] == BookingStatus.CONFIRMED
    ensures Accepted(trail[j]) && trail[j].Rank() >= 5
  {
    if i < j {
      LastUnaccepted(trail, i, j - 1);
      assert Edge(trail[j - 1], trail[j]);
      var k: Transition :| trail[j - 1] in k.From() && k.Target() == trail[j];
    }
  }

  /** The committed hold of an accepted booking. */
  lemma HeldHold(inventory: Inventory, s: System, b: Id) returns (k: nat)
    requires HoldRuns.AtMostOnce(inventory, s.seats) && RequestsLinked(s) && Held(s.seats.replies, b)
    ensures var holds := HoldRuns.Committed(s.seats.replies);
            && k < |holds| && b in s.requests && Resolve(inventory, s.requests[b]) == Some(holds[k])
            && holds[k].booking == b && Seats.HoldKey(s.requests[b].event) in s.seats.keys
  {
    var holds := HoldRuns.Committed(s.seats.replies);
    k :| 0 <= k < |holds| && holds[k].booking == b;
    var request := s.seats.requests[holds[k].event];
    assert Resolve(inventory, request) == Some(holds[k]);
    ResolveKeepsIds(inventory, request);
    assert s.requests[b] == request;
  }

  /** Each seat of a held booking has a row with the resolved segment. */
  lemma HeldRow(inventory: Inventory, s: System, b: Id, j: nat) returns (i: nat)
    requires Invariant(inventory, s) && Held(s.seats.replies, b)
    requires b in s.requests && j < |s.requests[b].seats|
    requires UniqueSeats(inventory.seats)
    ensures Resolve(inventory, s.requests[b]).Some? && i < |s.seats.allocs|
    ensures var hold, a := Resolve(inventory, s.requests[b]).value, s.seats.allocs[i];
            && a.booking == b && a.schedule == s.requests[b].schedule && a.seat == s.requests[b].seats[j]
            && a.from == hold.from && a.to == hold.to
  {
    var holds := HoldRuns.Committed(s.seats.replies);
    var k := HeldHold(inventory, s, b);
    ResolvedIsWellFormed(inventory, s.requests[b]);
    assert |holds[k].Seats()| == |holds[k].lines|;
    i := HoldRuns.BatchRow(holds, k, j);
    assert |HoldRuns.BareTable(s.seats.allocs)| == |s.seats.allocs|;
    assert HoldRuns.BareTable(s.seats.allocs)[i] == Rows(holds[k], 0)[j];
  }

  /** Every row of a booking is for one of its seats and its segment. */
  lemma RowIsRequested(inventory: Inventory, s: System, i: nat)
    requires Invariant(inventory, s) && UniqueSeats(inventory.seats) && i < |s.seats.allocs|
    ensures var a := s.seats.allocs[i];
            && a.booking in s.requests && Held(s.seats.replies, a.booking)
            && Resolve(inventory, s.requests[a.booking]).Some?
            && a.schedule == s.requests[a.booking].schedule && a.seat in s.requests[a.booking].seats
            && a.from == Resolve(inventory, s.requests[a.booking]).value.from
            && a.to == Resolve(inventory, s.requests[a.booking]).value.to
  {
    var holds := HoldRuns.Committed(s.seats.replies);
    assert |HoldRuns.BareTable(s.seats.allocs)| == |s.seats.allocs|;
    var k, j := HoldRuns.RowBatch(holds, i);
    assert HoldRuns.BareTable(s.seats.allocs)[i] == Rows(holds[k], 0)[j];
    assert Resolve(inventory, s.seats.requests[holds[k].event]) == Some(holds[k]);
    ResolvedIsWellFormed(inventory, s.seats.requests[holds[k].event]);
    assert holds[k].Seats()[j] in holds[k].Seats();
  }

  // ---- Preservation ----

  lemma HeldPersists(before: seq<Seats.Reply>, reply: Seats.Reply, b: Id)
    requires Held(before, b)
    ensures Held(before + [reply], b)
  {
    HoldRuns.CommittedAppends(before, reply);
    var k :| 0 <= k < |HoldRuns.Committed(before)| && HoldRuns.Committed(before)[k].booking == b;
    assert HoldRuns.Committed(before + [reply])[k].booking == b;
  }

  lemma OutboxGrowthKeepsChanges(s: System, s': System, more: seq<Bookings.StatusEvent>)
    requires ChangesAreNotified(s) && HandledIsSettled(s)
    requires s'.seats.txs == s.seats.txs && s'.seats.keys == s.seats.keys && s'.seats.allocs == s.seats.allocs
    requires s'.bookings.outbox == s.bookings.outbox + more
    ensures ChangesAreNotified(s') && HandledIsSettled(s')
  {
    forall t | t in s'.seats.txs ensures NotifiedTx(s'.bookings.outbox, s'.seats.txs[t]) {
      assert NotifiedTx(s.bookings.outbox, s.seats.txs[t]);
    }
    forall c: Seats.Change, k: Id | c.Key(k) in s'.seats.keys
      ensures NotifiedKey(s'.bookings.outbox, c, k)
      ensures s'.bookings.outbox[k].booking == s.bookings.outbox[k].booking
    {
      assert NotifiedKey(s.bookings.outbox, c, k);
    }
  }

  /** The system after the transaction of `createBooking`. */
  ghost predicate AfterCreate(s: System, s': System, request: HoldRequest, more: seq<Bookings.StatusEvent>) {
    && request.booking !in s.bookings.rows && request.event !in s.seats.requests
    && s'.seats == s.seats.(requests := s.seats.requests[request.event := request])
    && s'.bookings.rows == s.bookings.rows[request.booking := Row(PENDING, 1)]
    && s'.bookings.txs == s.bookings.txs
    && s'.bookings.outbox == s.bookings.outbox + more
    && s'.requests == s.requests[request.booking := request]
  }

  lemma CreateKeepsLinks(s: System, s': System, request: HoldRequest, more: seq<Bookings.StatusEvent>)
    requires RequestsLinked(s) && AcceptanceIsBacked(s) && ChangesAreNotified(s)
    requires RowsTrackBookings(s) && HandledIsSettled(s) && AfterCreate(s, s', request, more)
    ensures RequestsLinked(s') && AcceptanceIsBacked(s') && ChangesAreNotified(s')
    ensures RowsTrackBookings(s') && HandledIsSettled(s')
  {
    OutboxGrowthKeepsChanges(s, s', more);
    forall i | 0 <= i < |s'.seats.allocs| ensures StatusTracksBooking(s'.seats.allocs[i], s'.bookings.rows) {
      assert StatusTracksBooking(s.seats.allocs[i], s.bookings.rows);
    }
  }

  lemma CreateKeepsInvariant(inventory: Inventory, s: System, request: HoldRequest)
    requires Invariant(inventory, s) && UniqueSeats(inventory.seats) && Allowed(s, Create(request))
    ensures Invariant(inventory, Step(inventory, s, Create(request)))
  {
    Seats.StepKeepsInvariant(inventory, s.seats, Seats.Publish(request));
    HoldRuns.StepKeepsAtMostOnce(inventory, s.seats, Seats.Publish(request));
    Bookings.StepKeepsInvariant(s.bookings, Bookings.Create(request.booking));
    CreateKeepsLinks(s, Step(inventory, s, Create(request)), request,
                     [Bookings.StatusEvent(request.booking, None, PENDING, 1)]);
  }

  /** The system after booking-service has moved a booking, or has only read or begun. */
  ghost predicate AfterMove(s: System, s': System, b: Id, kind: Transition, more: seq<Bookings.StatusEvent>) {
    && s'.seats == s.seats && s'.requests == s.requests
    && (forall t :: t in s'.bookings.txs && s'.bookings.txs[t].kind.AcceptHeld? ==>
          Held(s.seats.replies, s'.bookings.txs[t].booking))
    && (kind.AcceptHeld? ==> Held(s.seats.replies, b))
    && ((s'.bookings.rows == s.bookings.rows && s'.bookings.outbox == s.bookings.outbox + more)
        || Bookings.Extends(s.bookings, s'.bookings, b, kind, more))
  }

  /** A booking that moves was not cancelled before, so no row of it was. */
  lemma MoveTracks(s: System, s': System, b: Id, kind: Transition, more: seq<Bookings.StatusEvent>)
    requires RowsTrackBookings(s) && AfterMove(s, s', b, kind, more)
    ensures RowsTrackBookings(s')
  {
    forall i | 0 <= i < |s'.seats.allocs| ensures StatusTracksBooking(s'.seats.allocs[i], s'.bookings.rows) {
      assert StatusTracksBooking(s.seats.allocs[i], s.bookings.rows);
    }
  }

  lemma MoveKeepsAcceptance(s: System, s': System, b: Id, kind: Transition, more: seq<Bookings.StatusEvent>)
    requires AcceptanceIsBacked(s) && AfterMove(s, s', b, kind, more)
    ensures AcceptanceIsBacked(s')
  {
    forall c | c in s'.bookings.rows && Accepted(s'.bookings.rows[c].status) ensures Held(s.seats.replies, c) {
      assert c in s.bookings.rows;
    }
  }

  lemma MoveKeepsLinks(s: System, s': System, b: Id, kind: Transition, more: seq<Bookings.StatusEvent>)
    requires RequestsLinked(s) && AcceptanceIsBacked(s) && ChangesAreNotified(s)
    requires RowsTrackBookings(s) && HandledIsSettled(s) && AfterMove(s, s', b, kind, more)
    ensures RequestsLinked(s') && AcceptanceIsBacked(s') && ChangesAreNotified(s')
    ensures RowsTrackBookings(s') && HandledIsSettled(s')
  {
    OutboxGrowthKeepsChanges(s, s', more);
    MoveTracks(s, s', b, kind, more);
    MoveKeepsAcceptance(s, s', b, kind, more);
    assert s'.bookings.rows.Keys == s.bookings.rows.Keys;
  }

  lemma BookingKeepsInvariant(inventory: Inventory, s: System, move: Bookings.Action)
    requires Invariant(inventory, s) && Allowed(s, OnBookings(move))
    ensures Invariant(inventory, Step(inventory, s, OnBookings(move)))
  {
    var s' := Step(inventory, s, OnBookings(move));
    Bookings.StepKeepsInvariant(s.bookings, move);
    Bookings.StepOutcome(s.bookings, move);
    if s'.bookings.outbox == s.bookings.outbox && s'.bookings.rows == s.bookings.rows {
      MoveKeepsLinks(s, s', 0, Expire, []);
    } else {
      var tx := s.bookings.txs[move.tx];
      var more :| Bookings.Extends(s.bookings, s'.bookings, tx.booking, tx.kind, more);
      MoveKeepsLinks(s, s', tx.booking, tx.kind, more);
    }
  }

  // ---- Inventory steps ----

  /** A row that matches after a status change matched before it. */
  lemma WritesShrinkMatches(allocs: seq<Allocation>, tx: Seats.Tx, b: Id, other: Seats.Change)
    requires tx.StatusTx? && Seats.TargetsMatch(allocs, tx)
    ensures Seats.MatchingRows(Seats.SetTargets(allocs, Seats.Targets(tx), tx.change.To()), b, other.From())
            <= Seats.MatchingRows(allocs, b, other.From())
  {
  }

  /** A write that covers every matching row leaves none. */
  lemma WriteSettles(allocs: seq<Allocation>, tx: Seats.Tx)
    requires tx.StatusTx? && Seats.TargetsMatch(allocs, tx)
    requires Seats.MatchingRows(allocs, tx.booking, tx.change.From()) <= Seats.Targets(tx)
    ensures var after := Seats.SetTargets(allocs, Seats.Targets(tx), tx.change.To());
            Seats.MatchingRows(after, tx.booking, tx.change.From()) == {}
  {
  }

  /** The inventory tables after the statement that commits status transaction tx. */
  ghost predicate AfterWrite(s: System, s': System, tx: Seats.Tx) {
    && tx.StatusTx? && tx.step.Writing?
    && s'.bookings == s.bookings && s'.requests == s.requests && s'.seats.requests == s.seats.requests
    && s'.seats.allocs == Seats.SetTargets(s.seats.allocs, Seats.Targets(tx), tx.change.To())
    && s'.seats.keys == s.seats.keys + {tx.change.Key(tx.event)} && s'.seats.replies == s.seats.replies
    && (forall u :: u in s'.seats.txs ==> u in s.seats.txs && s'.seats.txs[u] == s.seats.txs[u])
  }

  lemma WriteTracks(s: System, s': System, tx: Seats.Tx)
    requires RowsTrackBookings(s) && AfterWrite(s, s', tx) && Seats.TargetsMatch(s.seats.allocs, tx)
    requires tx.change.Cancel? ==>
      tx.booking in s.bookings.rows && s.bookings.rows[tx.booking].status == BookingStatus.CANCELLED
    ensures RowsTrackBookings(s')
  {
    forall i | 0 <= i < |s'.seats.allocs| ensures StatusTracksBooking(s'.seats.allocs[i], s'.bookings.rows) {
      assert StatusTracksBooking(s.seats.allocs[i], s.bookings.rows);
    }
  }

  lemma WriteIsSettled(s: System, s': System, t: Id, c: Seats.Change, k: Id)
    requires ChangesAreNotified(s) && HandledIsSettled(s) && Seats.ReadsStable(s.seats)
    requires t in s.seats.txs && AfterWrite(s, s', s.seats.txs[t]) && c.Key(k) in s'.seats.keys
    ensures NotifiedKey(s'.bookings.outbox, c, k)
    ensures Seats.MatchingRows(s'.seats.allocs, s'.bookings.outbox[k].booking, c.From()) == {}
  {
    var tx := s.seats.txs[t];
    assert NotifiedTx(s.bookings.outbox, tx) && Seats.TargetsMatch(s.seats.allocs, tx);
    if c.Key(k) in s.seats.keys {
      assert NotifiedKey(s.bookings.outbox, c, k);
      WritesShrinkMatches(s.seats.allocs, tx, s.bookings.outbox[k].booking, c);
    } else {
      assert c == tx.change && k == tx.event;
      WriteSettles(s.seats.allocs, tx);
    }
  }

  lemma WriteKeepsLinks(inventory: Inventory, s: System, s': System, t: Id)
    requires Invariant(inventory, s) && t in s.seats.txs && AfterWrite(s, s', s.seats.txs[t])
    ensures RequestsLinked(s') && AcceptanceIsBacked(s') && ChangesAreNotified(s')
    ensures RowsTrackBookings(s') && HandledIsSettled(s')
  {
    var tx := s.seats.txs[t];
    assert NotifiedTx(s.bookings.outbox, tx) && Seats.TargetsMatch(s.seats.allocs, tx);
    NotifiedStatus(s, tx.change, tx.event, tx.booking);
    WriteTracks(s, s', tx);
    forall c: Seats.Change, k: Id | c.Key(k) in s'.seats.keys
      ensures NotifiedKey(s'.bookings.outbox, c, k)
      ensures Seats.MatchingRows(s'.seats.allocs, s'.bookings.outbox[k].booking, c.From()) == {}
    {
      WriteIsSettled(s, s', t, c, k);
    }
    forall u | u in s'.seats.txs ensures NotifiedTx(s'.bookings.outbox, s'.seats.txs[u]) {
      assert NotifiedTx(s.bookings.outbox, s.seats.txs[u]);
    }
    forall u | u in s'.seats.txs && s'.seats.txs[u].StatusTx? && s'.seats.txs[u].step.Writing?
      ensures Seats.MatchingRows(s'.seats.allocs, s'.seats.txs[u].booking, s'.seats.txs[u].change.From())
              <= s'.seats.txs[u].step.targets
    {
      assert Seats.TargetsMatch(s.seats.allocs, tx);
      WritesShrinkMatches(s.seats.allocs, tx, s.seats.txs[u].booking, s.seats.txs[u].change);
    }
  }

  /** Once a booking's seats are to change, its hold has committed and cannot commit again. */
  lemma NotifiedHoldIsDone(inventory: Inventory, s: System, hold: Hold, change: Seats.Change, event: Id)
    requires Invariant(inventory, s) && Notifies(s.bookings.outbox, change, event, hold.booking)
    requires hold.event in s.seats.requests && Resolve(inventory, s.seats.requests[hold.event]) == Some(hold)
    ensures Seats.HoldKey(hold.event) in s.seats.keys
  {
    NotifiedStatus(s, change, event, hold.booking);
    var k := HeldHold(inventory, s, hold.booking);
    assert s.requests[hold.booking] == s.seats.requests[hold.event];
  }

  lemma NewRowsMatchOnlyTheirBooking(allocs: seq<Allocation>, hold: Hold, expiresAt: int, b: Id, c: Seats.Change)
    requires b != hold.booking
    ensures Seats.MatchingRows(allocs + Rows(hold, expiresAt), b, c.From()) == Seats.MatchingRows(allocs, b, c.From())
  {
  }

  /** The inventory tables after hold transaction tx has committed. */
  ghost predicate AfterCommit(s: System, s': System, tx: Seats.Tx) {
    && tx.HoldTx? && Seats.HoldKey(tx.hold.event) !in s.seats.keys
    && s'.bookings == s.bookings && s'.requests == s.requests && s'.seats.requests == s.seats.requests
    && s'.seats.allocs == s.seats.allocs + Rows(tx.hold, tx.expiresAt)
    && s'.seats.keys == s.seats.keys + {Seats.HoldKey(tx.hold.event)}
    && s'.seats.replies == s.seats.replies + [Seats.SeatsHeld(tx.hold, tx.expiresAt)]
    && (forall u :: u in s'.seats.txs ==> u in s.seats.txs && s'.seats.txs[u] == s.seats.txs[u])
  }

  lemma CommitKeepsLinks(inventory: Inventory, s: System, s': System, t: Id)
    requires Invariant(inventory, s) && t in s.seats.txs && AfterCommit(s, s', s.seats.txs[t])
    ensures RequestsLinked(s') && AcceptanceIsBacked(s') && ChangesAreNotified(s')
    ensures RowsTrackBookings(s') && HandledIsSettled(s')
  {
    var tx := s.seats.txs[t];
    assert Seats.ResolvedTx(inventory, s.seats, tx);
    forall b | Held(s.seats.replies, b) ensures Held(s'.seats.replies, b) {
      HeldPersists(s.seats.replies, Seats.SeatsHeld(tx.hold, tx.expiresAt), b);
    }
    CommitTracks(s, s', tx);
    CommitIsSettled(inventory, s, s', tx);
  }

  lemma CommitTracks(s: System, s': System, tx: Seats.Tx)
    requires RowsTrackBookings(s) && AfterCommit(s, s', tx)
    ensures RowsTrackBookings(s')
  {
    var rows := Rows(tx.hold, tx.expiresAt);
    forall i | 0 <= i < |s'.seats.allocs| ensures StatusTracksBooking(s'.seats.allocs[i], s'.bookings.rows) {
      if i < |s.seats.allocs| {
        assert StatusTracksBooking(s.seats.allocs[i], s.bookings.rows);
      } else {
        assert s'.seats.allocs[i] == rows[i - |s.seats.allocs|];
      }
    }
  }

  lemma CommitIsSettled(inventory: Inventory, s: System, s': System, tx: Seats.Tx)
    requires Invariant(inventory, s) && AfterCommit(s, s', tx) && Seats.ResolvedTx(inventory, s.seats, tx)
    ensures ChangesAreNotified(s') && HandledIsSettled(s')
  {
    var hold := tx.hold;
    forall c: Seats.Change, k: Id | c.Key(k) in s'.seats.keys
      ensures NotifiedKey(s'.bookings.outbox, c, k)
      ensures Seats.MatchingRows(s'.seats.allocs, s'.bookings.outbox[k].booking, c.From()) == {}
    {
      assert NotifiedKey(s.bookings.outbox, c, k);
      SettledBookingIsOther(inventory, s, hold, c, k, s.bookings.outbox[k].booking);
      NewRowsMatchOnlyTheirBooking(s.seats.allocs, hold, tx.expiresAt, s.bookings.outbox[k].booking, c);
    }
    forall u | u in s'.seats.txs && s'.seats.txs[u].StatusTx? && s'.seats.txs[u].step.Writing?
      ensures Seats.MatchingRows(s'.seats.allocs, s'.seats.txs[u].booking, s'.seats.txs[u].change.From())
              <= s'.seats.txs[u].step.targets
    {
      var w := s.seats.txs[u];
      assert NotifiedTx(s.bookings.outbox, w);
      SettledBookingIsOther(inventory, s, hold, w.change, w.event, w.booking);
      NewRowsMatchOnlyTheirBooking(s.seats.allocs, hold, tx.expiresAt, w.booking, w.change);
    }
  }

  lemma SettledBookingIsOther(inventory: Inventory, s: System, hold: Hold, change: Seats.Change, event: Id, b: Id)
    requires Invariant(inventory, s) && Notifies(s.bookings.outbox, change, event, b)
    requires hold.event in s.seats.requests && Resolve(inventory, s.seats.requests[hold.event]) == Some(hold)
    requires Seats.HoldKey(hold.event) !in s.seats.keys
    ensures b != hold.booking
  {
    if b == hold.booking {
      NotifiedHoldIsDone(inventory, s, hold, change, event);
    }
  }

  /** A statement that commits nothing, or an action that is not a statement. */
  ghost predicate AfterQuiet(s: System, s': System, t: Id) {
    && s'.bookings == s.bookings && s'.requests == s.requests && s'.seats.requests == s.seats.requests
    && s'.seats.allocs == s.seats.allocs && s'.seats.keys == s.seats.keys
    && Seats.OnlyRefuses(s.seats.replies, s'.seats.replies)
    && Seats.OthersUnmoved(s.seats, s'.seats, t)
    && (t in s'.seats.txs && s'.seats.txs[t].StatusTx? ==>
          && NotifiedTx(s.bookings.outbox, s'.seats.txs[t])
          && (s'.seats.txs[t].step.Writing? ==>
                Seats.MatchingRows(s.seats.allocs, s'.seats.txs[t].booking, s'.seats.txs[t].change.From())
                <= s'.seats.txs[t].step.targets))
  }

  lemma QuietKeepsLinks(s: System, s': System, t: Id)
    requires RequestsLinked(s) && AcceptanceIsBacked(s) && ChangesAreNotified(s)
    requires RowsTrackBookings(s) && HandledIsSettled(s) && AfterQuiet(s, s', t)
    ensures RequestsLinked(s') && AcceptanceIsBacked(s') && ChangesAreNotified(s')
    ensures RowsTrackBookings(s') && HandledIsSettled(s')
  {
    HoldRuns.RefusalCommitsNothing(s.seats.replies, s'.seats.replies);
    forall u | u in s'.seats.txs ensures NotifiedTx(s'.bookings.outbox, s'.seats.txs[u]) {
      assert u != t ==> NotifiedTx(s.bookings.outbox, s.seats.txs[u]);
    }
  }

  lemma InventoryKeepsInvariant(inventory: Inventory, s: System, step: Seats.Action)
    requires Invariant(inventory, s) && UniqueSeats(inventory.seats) && Allowed(s, OnSeats(step))
    ensures Invariant(inventory, Step(inventory, s, OnSeats(step)))
  {
    var s', t := Step(inventory, s, OnSeats(step)), Seats.Actor(step);
    Seats.StepKeepsInvariant(inventory, s.seats, step);
    HoldRuns.StepKeepsAtMostOnce(inventory, s.seats, step);
    Seats.StepFrame(inventory, s.seats, step);
    if Seats.Moves(inventory, s.seats, step) {
      Seats.AdvanceOutcome(s.seats, t);
      AdvanceShape(s, t);
      if Seats.Commits(s.seats, t) {
        CommitKeepsLinks(inventory, s, s', t);
      } else if Seats.Writes(s.seats, t) {
        WriteKeepsLinks(inventory, s, s', t);
      } else {
        QuietKeepsLinks(s, s', t);
      }
    } else {
      Seats.QuietStep(inventory, s.seats, step);
      BeginShape(inventory, s, step);
      QuietKeepsLinks(s, s', t);
    }
  }

  lemma AdvanceShape(s: System, t: Id)
    requires t in s.seats.txs && ChangesAreNotified(s) && HandledIsSettled(s)
    ensures var after := Seats.AdvanceTx(s.seats, t);
            && (Seats.Commits(s.seats, t) || Seats.Writes(s.seats, t) ==> t !in after.txs)
            && (t in after.txs && after.txs[t].StatusTx? ==>
                  && NotifiedTx(s.bookings.outbox, after.txs[t])
                  && (after.txs[t].step.Writing? ==>
                        Seats.MatchingRows(s.seats.allocs, after.txs[t].booking, after.txs[t].change.From())
                        <= after.txs[t].step.targets))
  {
    assert NotifiedTx(s.bookings.outbox, s.seats.txs[t]);
  }

  lemma BeginShape(inventory: Inventory, s: System, step: Seats.Action)
    requires Allowed(s, OnSeats(step)) && !Seats.Moves(inventory, s.seats, step)
    requires ChangesAreNotified(s) && HandledIsSettled(s)
    ensures var after, t := Seats.Step(inventory, s.seats, step), Seats.Actor(step);
            t in after.txs && after.txs[t].StatusTx? ==>
              && NotifiedTx(s.bookings.outbox, after.txs[t])
              && (after.txs[t].step.Writing? ==>
                    Seats.MatchingRows(s.seats.allocs, after.txs[t].booking, after.txs[t].change.From())
                    <= after.txs[t].step.targets)
  {
    var t := Seats.Actor(step);
    assert t in s.seats.txs ==> NotifiedTx(s.bookings.outbox, s.seats.txs[t]);
  }

  lemma StepKeepsInvariant(inventory: Inventory, s: System, a: Action)
    requires Invariant(inventory, s) && UniqueSeats(inventory.seats)
    ensures Invariant(inventory, Step(inventory, s, a))
  {
    if Allowed(s, a) {
      match a
      case Create(request) => CreateKeepsInvariant(inventory, s, request);
      case OnSeats(step) => InventoryKeepsInvariant(inventory, s, step);
      case OnBookings(move) => BookingKeepsInvariant(inventory, s, move);
    }
  }

  lemma {:induction false} RunsKeepInvariant(inventory: Inventory, actions: seq<Action>)
    requires UniqueSeats(inventory.seats)
    ensures Invariant(inventory, Run(inventory, actions))
  {
    if actions != [] {
      RunsKeepInvariant(inventory, actions[..|actions| - 1]);
      StepKeepsInvariant(inventory, Run(inventory, actions[..|actions| - 1]), actions[|actions| - 1]);
    }
  }
}
