/** The saga handlers of booking-service: each reply is handled once per idempotency key, under the status guards. */
module BookingSaga {
  import opened Prelude
  import opened Inventory
  import opened InventoryAdapter
  import opened BookingLifecycle
  import opened IdempotencyLease
  import opened Money
  import opened BookingService
  import Runs = BookingRuns

  datatype Allocated = Allocated(seatId: Id, inventoryId: Id, price: nat)

  datatype SeatsHeld = SeatsHeld(event: Id, booking: Id, allocations: seq<Allocated>, holdExpiresAt: int)

  datatype EventKey = HeldKey(event: Id) | HoldFailedKey(event: Id) | ExpiredKey(event: Id) | PaymentKey(event: Id)

  /** A handler that throws leaves the message to be delivered again. */
  datatype Handling = Skipped | Processed | Retry

  // ---- Accepting a hold ----

  /** One `updateMany where seatId = a.seatId` on the seat rows of a booking. */
  function EnrichOne(rows: seq<SeatRow>, a: Allocated): (r: seq<SeatRow>)
    ensures |r| == |rows|
  {
    seq(|rows|, i requires 0 <= i < |rows| =>
      if rows[i].seatId == a.seatId then SeatRow(a.seatId, Some(a.inventoryId), Some(a.price)) else rows[i])
  }

  function Enrich(rows: seq<SeatRow>, allocations: seq<Allocated>): (r: seq<SeatRow>)
    ensures |r| == |rows| && forall i :: 0 <= i < |rows| ==> r[i].seatId == rows[i].seatId
  {
    if allocations == [] then rows
    else EnrichOne(Enrich(rows, allocations[..|allocations| - 1]), allocations[|allocations| - 1])
  }

  /** Allocation j is the last one for this seat. */
  ghost predicate LastFor(allocations: seq<Allocated>, seatId: Id, j: nat) {
    && j < |allocations| && allocations[j].seatId == seatId
    && forall k :: j < k < |allocations| ==> allocations[k].seatId != seatId
  }

  ghost predicate NoneFor(allocations: seq<Allocated>, seatId: Id) {
    forall j :: 0 <= j < |allocations| ==> allocations[j].seatId != seatId
  }

  /** Each row has the inventory row and the price of the last allocation for its seat, if there is one. */
  ghost predicate Enriched(before: seq<SeatRow>, after: seq<SeatRow>, allocations: seq<Allocated>) {
    && |after| == |before|
    && (forall i :: 0 <= i < |before| && NoneFor(allocations, before[i].seatId) ==> after[i] == before[i])
    && (forall i: nat, j: nat :: i < |before| && LastFor(allocations, before[i].seatId, j) ==>
          after[i].seatId == before[i].seatId && after[i].inventoryId == Some(allocations[j].inventoryId)
          && after[i].price == Some(allocations[j].price))
  }

  lemma {:induction false} LastAllocationLands(rows: seq<SeatRow>, allocations: seq<Allocated>, i: nat, j: nat)
    requires i < |rows| && LastFor(allocations, rows[i].seatId, j)
    ensures Enrich(rows, allocations)[i] ==
              SeatRow(rows[i].seatId, Some(allocations[j].inventoryId), Some(allocations[j].price))
  {
    var n := |allocations| - 1;
    if j < n {
      assert LastFor(allocations[..n], rows[i].seatId, j);
      LastAllocationLands(rows, allocations[..n], i, j);
    }
  }

  lemma EnrichIsEnriched(rows: seq<SeatRow>, allocations: seq<Allocated>)
    ensures Enriched(rows, Enrich(rows, allocations), allocations)
  {
    forall i | 0 <= i < |rows| && NoneFor(allocations, rows[i].seatId)
      ensures Enrich(rows, allocations)[i] == rows[i]
    {
      RowUntouched(rows, allocations, i);
    }
    forall i: nat, j: nat | i < |rows| && LastFor(allocations, rows[i].seatId, j)
      ensures Enrich(rows, allocations)[i] ==
                SeatRow(rows[i].seatId, Some(allocations[j].inventoryId), Some(allocations[j].price))
    {
      LastAllocationLands(rows, allocations, i, j);
    }
  }

  /** The booking has accepted this hold: its seats, its total and the time until which it may be paid. */
  ghost predicate TakesHold(before: Booking, after: Booking, e: SeatsHeld) {
    && after.row == Row(SEATS_HELD, before.row.version + 1)
    && Enriched(before.seats, after.seats, e.allocations)
    && after.totalPrice == Rupees(Sum(Charged(e.allocations)))
    && after.lockExpiresAt == Some(e.holdExpiresAt)
    && after.user == before.user && after.schedule == before.schedule
    && after.fromStation == before.fromStation && after.toStation == before.toStation
    && after.paymentOrder == before.paymentOrder && after.failureReason == before.failureReason
  }

  lemma AcceptedTakesHold(b: Booking, e: SeatsHeld)
    ensures TakesHold(b, Accepted(b, e), e)
  {
    EnrichIsEnriched(b.seats, e.allocations);
    RupeeTotalIsSum(Charged(e.allocations));
  }

  function Charged(allocations: seq<Allocated>): (prices: seq<nat>)
    ensures |prices| == |allocations|
  {
    seq(|allocations|, i requires 0 <= i < |allocations| => allocations[i].price)
  }

  function Accepted(b: Booking, e: SeatsHeld): Booking {
    b.(seats := Enrich(b.seats, e.allocations), row := Row(SEATS_HELD, b.row.version + 1),
       totalPrice := RupeeTotal(Charged(e.allocations)), lockExpiresAt := Some(e.holdExpiresAt))
  }

  // ---- Does the total match the seats? ----

  ghost predicate DistinctSeats(rows: seq<SeatRow>) {
    forall i, j :: 0 <= i < j < |rows| ==> rows[i].seatId != rows[j].seatId
  }

  ghost predicate DistinctAllocations(allocations: seq<Allocated>) {
    forall i, j :: 0 <= i < j < |allocations| ==> allocations[i].seatId != allocations[j].seatId
  }

  predicate HasSeatRow(rows: seq<SeatRow>, seatId: Id) {
    exists i :: 0 <= i < |rows| && rows[i].seatId == seatId
  }

  /** The price of an allocation that some seat row of the booking takes, else nothing. */
  function Landing(rows: seq<SeatRow>, allocations: seq<Allocated>): (prices: seq<nat>)
    ensures |prices| == |allocations|
  {
    seq(|allocations|, i requires 0 <= i < |allocations| =>
      if HasSeatRow(rows, allocations[i].seatId) then allocations[i].price else 0)
  }

  lemma {:induction false} SumAfterUpdate(prices: seq<nat>, k: nat, price: nat)
    requires k < |prices|
    ensures Sum(prices[k := price]) == Sum(prices) - prices[k] + price
  {
    var n := |prices| - 1;
    var after := prices[k := price];
    if k < n {
      SumAfterUpdate(prices[..n], k, price);
      assert after[..n] == prices[..n][k := price];
    } else {
      assert after[..n] == prices[..n];
    }
  }

  /** Allocations for other seats leave a row as it was. */
  lemma {:induction false} RowUntouched(rows: seq<SeatRow>, allocations: seq<Allocated>, i: nat)
    requires i < |rows| && forall j :: 0 <= j < |allocations| ==> allocations[j].seatId != rows[i].seatId
    ensures Enrich(rows, allocations)[i] == rows[i]
  {
    if allocations != [] {
      RowUntouched(rows, allocations[..|allocations| - 1], i);
    }
  }

  lemma {:induction false} RowsTakeWhatLands(rows: seq<SeatRow>, allocations: seq<Allocated>)
    requires DistinctSeats(rows) && DistinctAllocations(allocations)
    requires Unpriced(rows)
    ensures Sum(Prices(Enrich(rows, allocations))) == Sum(Landing(rows, allocations))
  {
    if allocations == [] {
      NothingLands(Prices(rows));
    } else {
      var n := |allocations| - 1;
      var a, before := allocations[n], Enrich(rows, allocations[..n]);
      RowsTakeWhatLands(rows, allocations[..n]);
      assert Landing(rows, allocations)[..n] == Landing(rows, allocations[..n]);
      if HasSeatRow(rows, a.seatId) {
        var k :| 0 <= k < |rows| && rows[k].seatId == a.seatId;
        RowUntouched(rows, allocations[..n], k);
        assert Prices(EnrichOne(before, a)) == Prices(before)[k := a.price];
        SumAfterUpdate(Prices(before), k, a.price);
      } else {
        assert Prices(EnrichOne(before, a)) == Prices(before);
      }
    }
  }

  lemma {:induction false} NothingLands(prices: seq<nat>)
    requires forall i :: 0 <= i < |prices| ==> prices[i] == 0
    ensures Sum(prices) == 0
  {
    if prices != [] {
      NothingLands(prices[..|prices| - 1]);
    }
  }

  lemma {:induction false} SumsAgreeExactly(small: seq<nat>, large: seq<nat>)
    requires |small| == |large| && forall i :: 0 <= i < |small| ==> small[i] <= large[i]
    ensures Sum(small) <= Sum(large)
    ensures Sum(small) == Sum(large) <==> small == large
  {
    if small != [] {
      var n := |small| - 1;
      SumsAgreeExactly(small[..n], large[..n]);
      assert small == small[..n] + [small[n]] && large == large[..n] + [large[n]];
    }
  }

  /** The reply charges the booking's own seats only, each at most once. */
  ghost predicate ChargesOwnSeats(b: Booking, e: SeatsHeld) {
    && DistinctSeats(b.seats) && DistinctAllocations(e.allocations)
    && forall i :: 0 <= i < |e.allocations| ==>
         e.allocations[i].price == 0 || HasSeatRow(b.seats, e.allocations[i].seatId)
  }

  /** The accepted total is what the seat rows cost exactly when every charged allocation is for one of them. */
  lemma AcceptedIsConservedExactly(b: Booking, e: SeatsHeld)
    requires DistinctSeats(b.seats) && DistinctAllocations(e.allocations)
    requires Unpriced(b.seats)
    ensures Conserved(Accepted(b, e)) <==>
              forall i :: 0 <= i < |e.allocations| ==>
                e.allocations[i].price == 0 || HasSeatRow(b.seats, e.allocations[i].seatId)
  {
    var landing, charged := Landing(b.seats, e.allocations), Charged(e.allocations);
    RowsTakeWhatLands(b.seats, e.allocations);
    RupeeTotalIsSum(charged);
    RupeeTotalIsSum(Prices(Accepted(b, e).seats));
    SumsAgreeExactly(landing, charged);
    if landing == charged {
      forall i | 0 <= i < |charged|
        ensures e.allocations[i].price == 0 || HasSeatRow(b.seats, e.allocations[i].seatId)
      {
        assert landing[i] == charged[i];
      }
    }
  }

  /** The reply inventory-service makes from a hold. */
  function ReplyOf(hold: Hold, event: Id, holdExpiresAt: int): SeatsHeld {
    SeatsHeld(event, hold.booking,
              seq(|hold.lines|, i requires 0 <= i < |hold.lines| =>
                Allocated(hold.lines[i].seatId, hold.lines[i].seat, hold.lines[i].price)),
              holdExpiresAt)
  }

  /** Each seat booked has the inventory row and the price of its line. */
  ghost predicate SeatsAsHeld(rows: seq<SeatRow>, seatIds: seq<Id>, lines: seq<Line>) {
    && |rows| == |seatIds| == |lines|
    && forall i :: 0 <= i < |rows| ==> rows[i] == SeatRow(seatIds[i], Some(lines[i].seat), Some(lines[i].price))
  }

  lemma OwnSeatsAsHeld(user: Id, dto: CreateBookingDto, hold: Hold, reply: Id, holdExpiresAt: int)
    requires Distinct(dto.seatIds) && |hold.lines| == |dto.seatIds|
    requires forall i :: 0 <= i < |hold.lines| ==> hold.lines[i].seatId == dto.seatIds[i]
    ensures SeatsAsHeld(Accepted(Created(user, dto), ReplyOf(hold, reply, holdExpiresAt)).seats, dto.seatIds,
                        hold.lines)
  {
    var rows, e := Created(user, dto).seats, ReplyOf(hold, reply, holdExpiresAt);
    forall i | 0 <= i < |rows|
      ensures Enrich(rows, e.allocations)[i] ==
                SeatRow(dto.seatIds[i], Some(hold.lines[i].seat), Some(hold.lines[i].price))
    {
      assert rows[i].seatId == dto.seatIds[i] == e.allocations[i].seatId;
      assert LastFor(e.allocations, rows[i].seatId, i);
      LastAllocationLands(rows, e.allocations, i, i);
    }
  }

  lemma OwnLinesAreCharged(user: Id, dto: CreateBookingDto, hold: Hold, reply: Id, holdExpiresAt: int)
    requires Distinct(dto.seatIds) && |hold.lines| == |dto.seatIds|
    requires forall i :: 0 <= i < |hold.lines| ==> hold.lines[i].seatId == dto.seatIds[i]
    ensures ChargesOwnSeats(Created(user, dto), ReplyOf(hold, reply, holdExpiresAt))
    ensures var accepted := Accepted(Created(user, dto), ReplyOf(hold, reply, holdExpiresAt));
            && Conserved(accepted)
            && Sum(Prices(accepted.seats)) == Sum(hold.Prices())
            && RoundTimes100(accepted.totalPrice) == Sum(hold.Prices())
  {
    var b, e := Created(user, dto), ReplyOf(hold, reply, holdExpiresAt);
    assert forall i | 0 <= i < |b.seats| :: b.seats[i].seatId == dto.seatIds[i] == e.allocations[i].seatId;
    AcceptedIsConservedExactly(b, e);
    assert Charged(e.allocations) == hold.Prices();
    PaymentAmountIsSeatSum(hold.Prices());
    RupeeTotalIsSum(hold.Prices());
    RupeeTotalIsSum(Prices(Accepted(b, e).seats));
  }

  lemma ChargedIsHoldPrices(hold: Hold, event: Id, holdExpiresAt: int)
    ensures Charged(ReplyOf(hold, event, holdExpiresAt).allocations) == hold.Prices()
  {
  }

  /**
   * From request to reply: the hold that a booking's own request resolves to is charged to the booking in full,
   * and the amount asked of payment-service is the sum of the seat prices the inventory computed.
   */
  lemma HoldIsChargedInFull(user: Id, dto: CreateBookingDto, inventory: Inventory, booking: Id, holdEvent: Id,
                            ttlMs: nat, reply: Id, holdExpiresAt: int)
    requires UniqueSeats(inventory.seats) && UniqueSeatIds(inventory.seats)
    requires var reply := GetSeatsDetailsBatch(inventory.seats, dto.schedule, dto.seatIds);
             ResolveSeatInventoryIds(reply, dto.seatIds).Some?
    requires Resolve(inventory, OwnRequest(dto, inventory, booking, holdEvent, ttlMs)).Some?
    ensures var hold := Resolve(inventory, OwnRequest(dto, inventory, booking, holdEvent, ttlMs)).value;
            ChargesOwnSeats(Created(user, dto), ReplyOf(hold, reply, holdExpiresAt))
    ensures var hold := Resolve(inventory, OwnRequest(dto, inventory, booking, holdEvent, ttlMs)).value;
            var accepted := Accepted(Created(user, dto), ReplyOf(hold, reply, holdExpiresAt));
            && Conserved(accepted)
            && Sum(Prices(accepted.seats)) == Sum(hold.Prices())
            && RoundTimes100(accepted.totalPrice) == Sum(hold.Prices())
            && SeatsAsHeld(accepted.seats, dto.seatIds, hold.lines)
  {
    var request := OwnRequest(dto, inventory, booking, holdEvent, ttlMs);
    HoldReturnsTheSeatIds(inventory, request, dto.seatIds);
    ResolutionAccepts(inventory.seats, dto.schedule, dto.seatIds);
    OwnLinesAreCharged(user, dto, Resolve(inventory, request).value, reply, holdExpiresAt);
    OwnSeatsAsHeld(user, dto, Resolve(inventory, request).value, reply, holdExpiresAt);
  }

  /** The hold request that `createBooking` sends after resolving its seats against this inventory. */
  function OwnRequest(dto: CreateBookingDto, inventory: Inventory, booking: Id, holdEvent: Id, ttlMs: nat)
    : HoldRequest
  {
    var ids := ResolveSeatInventoryIds(GetSeatsDetailsBatch(inventory.seats, dto.schedule, dto.seatIds), dto.seatIds);
    HoldRequestOf(dto, if ids.Some? then ids.value else [], booking, holdEvent, ttlMs)
  }

  /** The hold a booking asks for: its stops, and each of its seats with the inventory row and the fare. */
  ghost predicate BookedMeans(inventory: Inventory, dto: CreateBookingDto, hold: Hold, from: RouteStop, to: RouteStop,
                              distance: nat)
  {
    && hold.schedule == dto.schedule
    && JourneyStop(inventory.stops, dto.schedule, dto.journey.fromSequence, dto.fromStation, from)
    && JourneyStop(inventory.stops, dto.schedule, dto.journey.toSequence, dto.toStation, to)
    && hold.from == from.sequence < to.sequence == hold.to && Apart(from, to, distance)
    && |hold.lines| == |dto.seatIds|
    && forall i :: 0 <= i < |hold.lines| ==> SeatMeans(inventory.seats, dto, i, distance, hold.lines[i])
  }

  /** The line is for the seat with this public id, its inventory row and its fare. */
  ghost predicate SeatMeans(seats: seq<Seat>, dto: CreateBookingDto, i: nat, distance: nat, line: Line) {
    i < |dto.seatIds|
    && exists s :: s in seats && s.schedule == dto.schedule && s.seatId == dto.seatIds[i]
                   && line.seat == s.id && line.seatId == s.seatId && IsFare(distance, s.pricePerKm, line.price)
  }

  /** The inventory rows of the request are those of the seats booked. */
  lemma OwnRowsAreListed(inventory: Inventory, dto: CreateBookingDto, ids: seq<Id>, i: nat) returns (s: Seat)
    requires UniqueSeatIds(inventory.seats) && i < |dto.seatIds|
    requires ResolveSeatInventoryIds(GetSeatsDetailsBatch(inventory.seats, dto.schedule, dto.seatIds), dto.seatIds)
             == Some(ids)
    ensures |ids| == |dto.seatIds|
    ensures s in inventory.seats && s.schedule == dto.schedule && s.seatId == dto.seatIds[i] && s.id == ids[i]
  {
    ResolutionKeepsOrder(inventory.seats, dto.schedule, dto.seatIds, i);
    s :| s in inventory.seats && s.schedule == dto.schedule && s.seatId == dto.seatIds[i] && s.id == ids[i];
  }

  lemma OwnLineExactly(inventory: Inventory, dto: CreateBookingDto, ids: seq<Id>, i: nat, distance: nat, line: Line)
    requires UniqueSeats(inventory.seats) && UniqueSeatIds(inventory.seats) && i < |dto.seatIds|
    requires ResolveSeatInventoryIds(GetSeatsDetailsBatch(inventory.seats, dto.schedule, dto.seatIds), dto.seatIds)
             == Some(ids)
    ensures |ids| == |dto.seatIds|
    ensures LineMeans(inventory.seats, dto.schedule, ids[i], distance, line) <==>
              SeatMeans(inventory.seats, dto, i, distance, line)
  {
    var s := OwnRowsAreListed(inventory, dto, ids, i);
    forall t | t in inventory.seats && t.schedule == dto.schedule && (t.id == s.id || t.seatId == s.seatId)
      ensures t == s
    {
      OneSeatPerId(inventory.seats, s, t);
    }
  }

  lemma OneSeatPerId(seats: seq<Seat>, s: Seat, t: Seat)
    requires UniqueSeats(seats) && UniqueSeatIds(seats) && s in seats && t in seats
    requires s.schedule == t.schedule && (t.id == s.id || t.seatId == s.seatId)
    ensures s == t
  {
    var i :| 0 <= i < |seats| && seats[i] == s;
    var j :| 0 <= j < |seats| && seats[j] == t;
    assert i == j;
  }

  /**
   * The request that a booking sends, with its seats resolved against the same inventory, resolves exactly to the
   * hold that the passenger means; unless some stop has the number that stands for an absent last stop.
   */
  lemma BookingAsksExactly(inventory: Inventory, dto: CreateBookingDto, booking: Id, holdEvent: Id, ttlMs: nat,
                           hold: Hold)
    requires UniqueSeats(inventory.seats) && UniqueSeatIds(inventory.seats) && UniqueStops(inventory.stops)
    requires dto.journey.toSequence.Some? || !HasSequence(inventory.stops, dto.schedule, MAX_POSTGRES_INT)
    requires var reply := GetSeatsDetailsBatch(inventory.seats, dto.schedule, dto.seatIds);
             ResolveSeatInventoryIds(reply, dto.seatIds).Some?
    ensures Resolve(inventory, OwnRequest(dto, inventory, booking, holdEvent, ttlMs)) == Some(hold) <==>
              && hold.event == holdEvent && hold.booking == booking
              && exists from, to, distance :: BookedMeans(inventory, dto, hold, from, to, distance)
  {
    var request := OwnRequest(dto, inventory, booking, holdEvent, ttlMs);
    RequestAsksJourney(dto, request.seats, booking, holdEvent, ttlMs);
    OwnSeatsAreDistinct(inventory, dto, request.seats);
    ResolvesExactly(inventory, request, hold);
    forall from, to, distance: nat
      ensures HoldMeans(inventory, request, hold, from, to, distance) <==>
              && hold.event == holdEvent && hold.booking == booking
              && BookedMeans(inventory, dto, hold, from, to, distance)
    {
      SameMeaning(inventory, dto, request, hold, from, to, distance);
    }
  }

  lemma OwnSeatsAreDistinct(inventory: Inventory, dto: CreateBookingDto, ids: seq<Id>)
    requires UniqueSeats(inventory.seats) && UniqueSeatIds(inventory.seats)
    requires ResolveSeatInventoryIds(GetSeatsDetailsBatch(inventory.seats, dto.schedule, dto.seatIds), dto.seatIds)
             == Some(ids)
    ensures Distinct(ids)
  {
    ResolutionAccepts(inventory.seats, dto.schedule, dto.seatIds);
    forall i, j | 0 <= i < j < |ids| ensures ids[i] != ids[j] {
      var s := OwnRowsAreListed(inventory, dto, ids, i);
      var t := OwnRowsAreListed(inventory, dto, ids, j);
      if ids[i] == ids[j] {
        OneSeatPerId(inventory.seats, s, t);
      }
    }
  }

  lemma SameMeaning(inventory: Inventory, dto: CreateBookingDto, request: HoldRequest, hold: Hold, from: RouteStop,
                    to: RouteStop, distance: nat)
    requires UniqueSeats(inventory.seats) && UniqueSeatIds(inventory.seats)
    requires dto.journey.toSequence.Some? || !HasSequence(inventory.stops, dto.schedule, MAX_POSTGRES_INT)
    requires AsksJourney(request, dto) && request.schedule == dto.schedule
    requires ResolveSeatInventoryIds(GetSeatsDetailsBatch(inventory.seats, dto.schedule, dto.seatIds), dto.seatIds)
             == Some(request.seats)
    ensures HoldMeans(inventory, request, hold, from, to, distance) <==>
            && hold.event == request.event && hold.booking == request.booking
            && BookedMeans(inventory, dto, hold, from, to, distance)
  {
    var ids := request.seats;
    assert |ids| == |dto.seatIds|;
    forall i | 0 <= i < |hold.lines| && |hold.lines| == |ids|
      ensures LineMeans(inventory.seats, dto.schedule, ids[i], distance, hold.lines[i]) <==>
                SeatMeans(inventory.seats, dto, i, distance, hold.lines[i])
    {
      OwnLineExactly(inventory, dto, ids, i, distance, hold.lines[i]);
    }
  }

  // ---- The handlers ----

  /** A reply to a booking that has left PENDING changes nothing. */
  function AcceptedIfPending(b: Booking, e: SeatsHeld): Booking {
    if b.row.status == PENDING then Accepted(b, e) else b
  }

  function Rejected(b: Booking, message: string): Booking {
    b.(row := Row(BookingStatus.FAILED, b.row.version + 1), failureReason := Some(message))
  }

  function Expired(b: Booking): Booking {
    b.(row := Row(EXPIRED, b.row.version + 1))
  }

  /** The booking has accepted the hold and gone on to wait for its payment. */
  ghost predicate HeldThenPending(before: Booking, after: Booking, e: SeatsHeld) {
    exists held :: TakesHold(before, held, e) && Settled(held, after, Auto(e.booking))
  }

  /** What a handled reply makes of the booking: only a PENDING one accepts it. */
  ghost predicate Answers(before: Booking, after: Booking, e: SeatsHeld) {
    if before.row.status == PENDING then HeldThenPending(before, after, e)
    else Settled(before, after, Auto(e.booking))
  }

  lemma ReplyAnswers(b: Booking, e: SeatsHeld)
    ensures Answers(b, Pending(AcceptedIfPending(b, e), Auto(e.booking)), e)
  {
    PendingSettles(AcceptedIfPending(b, e), Auto(e.booking));
    if b.row.status == PENDING {
      AcceptedTakesHold(b, e);
    }
  }

  ghost predicate IsOwnReply(bookings: map<Id, Booking>, e: SeatsHeld) {
    e.booking in bookings ==> ChargesOwnSeats(bookings[e.booking], e)
  }

  lemma SetTwice(bookings: map<Id, Booking>, id: Id, first: Booking, second: Booking)
    ensures bookings[id := first][id := second] == bookings[id := second]
  {
  }

  class BookingSagaOrchestrator {
    const service: BookingService
    const idempotency: IdempotencyRepository<EventKey>

    constructor (service: BookingService, idempotency: IdempotencyRepository<EventKey>)
      ensures this.service == service && this.idempotency == idempotency
    {
      this.service, this.idempotency := service, idempotency;
    }

    predicate Claimed(key: EventKey)
      reads idempotency
    {
      Present(idempotency.store, idempotency.clock, key)
    }

    // -- SeatsHeld --

    method UpdatePassengers(id: Id, allocations: seq<Allocated>)
      requires id in service.bookings
      modifies service`bookings
      ensures service.bookings == old(service.bookings)[
                id := old(service.bookings)[id].(seats := Enrich(old(service.bookings)[id].seats, allocations))]
      ensures Enriched(old(service.bookings)[id].seats, service.bookings[id].seats, allocations)
    {
      EnrichIsEnriched(service.bookings[id].seats, allocations);
      assert service.bookings == old(service.bookings)[id := old(service.bookings)[id]];
      for i := 0 to |allocations|
        invariant id in service.bookings
        invariant service.bookings == old(service.bookings)[
                    id := old(service.bookings)[id].(
                       seats := Enrich(old(service.bookings)[id].seats, allocations[..i]))]
      {
        assert allocations[..i + 1][..i] == allocations[..i];
        var b := service.bookings[id];
        service.bookings := service.bookings[id := b.(seats := EnrichOne(b.seats, allocations[i]))];
      }
      assert allocations[..|allocations|] == allocations;
    }

    /** The writes of `handleSeatsHeld` after a read of PENDING; a lost race undoes them all. */
    method CommitHeld(e: SeatsHeld, seen: Row) returns (advanced: bool)
      requires service.Valid() && e.booking in service.bookings
      requires ReadEarlier(seen, service.bookings[e.booking].row) && seen.status == PENDING
      modifies service`bookings, service`saga, service`machine
      ensures service.Valid()
      ensures advanced <==> old(service.bookings)[e.booking].row == seen
      ensures advanced ==>
                && service.bookings == old(service.bookings)[e.booking := Accepted(old(service.bookings)[e.booking], e)]
                && TakesHold(old(service.bookings)[e.booking], service.bookings[e.booking], e)
                && service.saga == old(service.saga)[(e.booking, HOLD_SEATS) := Completed]
      ensures !advanced ==> service.bookings == old(service.bookings) && service.saga == old(service.saga)
    {
      var id, before := e.booking, service.bookings;
      UpdatePassengers(id, e.allocations);
      advanced := service.UpdateStatus(id, SEATS_HELD, seen.version + 1);
      if !advanced {
        service.bookings := before;
        return;
      }
      service.bookings := service.bookings[id := service.bookings[id].(
        totalPrice := RupeeTotal(Charged(e.allocations)), lockExpiresAt := Some(e.holdExpiresAt))];
      service.saga := service.saga[(id, HOLD_SEATS) := Completed];
      service.machine := TransitionFollows(service.machine, before, service.outbox, id, AcceptHeld,
                                           Accepted(before[id], e));
      assert service.outbox + Told(id, before[id].row, AcceptHeld) == service.outbox;
      AcceptedTakesHold(before[id], e);
      assert service.bookings == before[id := Accepted(before[id], e)];
    }

    /** The transaction of `handleSeatsHeld`; false when it throws. */
    method HoldTransaction(e: SeatsHeld) returns (committed: bool)
      requires service.Valid()
      modifies service`bookings, service`saga, service`machine
      ensures service.Valid()
      ensures old(service.MoneyConserved()) && IsOwnReply(old(service.bookings), e) ==> service.MoneyConserved()
      ensures committed <==> e.booking in old(service.bookings)
      ensures committed ==> service.bookings == old(service.bookings)[
                              e.booking := AcceptedIfPending(old(service.bookings)[e.booking], e)]
      ensures service.saga == if committed && old(service.bookings)[e.booking].row.status == PENDING
                              then old(service.saga)[(e.booking, HOLD_SEATS) := Completed] else old(service.saga)
      ensures !committed ==> service.bookings == old(service.bookings)
    {
      if e.booking !in service.bookings {
        return false;
      }
      if service.bookings[e.booking].row.status != PENDING {
        return true;
      }
      var found := service.bookings[e.booking];
      if MoneyIsSound(found) && ChargesOwnSeats(found, e) {
        AcceptedIsConservedExactly(found, e);
      }
      committed := CommitHeld(e, found.row);
    }

    /** Accepts the hold of a PENDING booking, then moves a SEATS_HELD one on to PAYMENT_PENDING. */
    method HandleSeatsHeld(e: SeatsHeld) returns (handling: Handling)
      requires service.Valid() && idempotency.processingLease > 0
      modifies service`bookings, service`outbox, service`saga, service`machine, idempotency`store
      ensures service.Valid()
      ensures old(service.MoneyConserved()) && IsOwnReply(old(service.bookings), e) ==> service.MoneyConserved()
      ensures handling == if old(Claimed(HeldKey(e.event))) then Skipped
                          else if e.booking !in old(service.bookings) then Retry else Processed
      ensures Marked(old(idempotency.store), HeldKey(e.event), handling)
      ensures handling.Processed? ==>
                var b := old(service.bookings)[e.booking];
                var held := AcceptedIfPending(b, e);
                && service.bookings == old(service.bookings)[e.booking := Pending(held, Auto(e.booking))]
                && service.outbox == old(service.outbox) + PendingTold(e.booking, held.row)
                && service.saga == if b.row.status == PENDING
                                    then old(service.saga)[(e.booking, HOLD_SEATS) := Completed]
                                   else old(service.saga)
      ensures handling.Processed? ==>
                Answers(old(service.bookings)[e.booking], service.bookings[e.booking], e)
      ensures !handling.Processed? ==>
                && service.bookings == old(service.bookings) && service.outbox == old(service.outbox)
                && service.saga == old(service.saga)
    {
      var key := HeldKey(e.event);
      var reserved := idempotency.ReserveIfNew(key);
      if !reserved {
        return Skipped;
      }
      handling := ProcessHeld(e);
      if handling.Processed? {
        ghost var id, held := e.booking, AcceptedIfPending(old(service.bookings)[e.booking], e);
        SetTwice(old(service.bookings), id, held, Pending(held, Auto(id)));
        service.AdvanceIfHeld(e.booking, Auto(e.booking));
        assert service.bookings[id] == Pending(held, Auto(id));
        ReplyAnswers(old(service.bookings)[id], e);
      }
    }

    /** The part of the handler that a failure makes give the reservation back. */
    method ProcessHeld(e: SeatsHeld) returns (handling: Handling)
      requires service.Valid() && Claimed(HeldKey(e.event)) && idempotency.store[HeldKey(e.event)].phase == PROCESSING
      modifies service`bookings, service`saga, service`machine, idempotency`store
      ensures service.Valid()
      ensures old(service.MoneyConserved()) && IsOwnReply(old(service.bookings), e) ==> service.MoneyConserved()
      ensures handling == if e.booking in old(service.bookings) then Processed else Retry
      ensures Marked(old(idempotency.store), HeldKey(e.event), handling)
      ensures handling.Processed? ==> service.bookings == old(service.bookings)[
                                        e.booking := AcceptedIfPending(old(service.bookings)[e.booking], e)]
      ensures service.saga == if handling.Processed? && old(service.bookings)[e.booking].row.status == PENDING
                              then old(service.saga)[(e.booking, HOLD_SEATS) := Completed] else old(service.saga)
      ensures handling.Retry? ==> service.bookings == old(service.bookings)
    {
      var committed := HoldTransaction(e);
      if !committed {
        idempotency.Release(HeldKey(e.event));
        return Retry;
      }
      idempotency.MarkProcessed(HeldKey(e.event));
      return Processed;
    }

    /** What each outcome leaves in the idempotency store. */
    ghost predicate Marked(before: map<EventKey, Mark>, key: EventKey, handling: Handling)
      reads idempotency
    {
      match handling
      case Skipped => idempotency.store == before
      case Processed =>
        idempotency.store == before[key := Mark(PROCESSED, idempotency.clock + idempotency.processedTtl)]
      case Retry => idempotency.store == before - {key}
    }

    // -- SeatsHoldFailed --

    method HandleSeatsHoldFailed(event: Id, booking: Id, message: string) returns (handling: Handling)
      requires service.Valid() && idempotency.processingLease > 0
      modifies service`bookings, service`saga, service`machine, idempotency`store
      ensures service.Valid() && (old(service.MoneyConserved()) ==> service.MoneyConserved())
      ensures handling == if old(Claimed(HoldFailedKey(event))) then Skipped
                          else if booking !in old(service.bookings) then Retry else Processed
      ensures Marked(old(idempotency.store), HoldFailedKey(event), handling)
      ensures if handling.Processed? && old(service.bookings)[booking].row.status == PENDING
              then var b := old(service.bookings)[booking];
                   && service.bookings == old(service.bookings)[booking := b.(
                                            row := Row(BookingStatus.FAILED, b.row.version + 1),
                                            failureReason := Some(message))]
                   && service.saga == old(service.saga)[(booking, HOLD_SEATS) := Failed]
              else service.bookings == old(service.bookings) && service.saga == old(service.saga)
    {
      var key := HoldFailedKey(event);
      var reserved := idempotency.ReserveIfNew(key);
      if !reserved {
        return Skipped;
      }
      var committed := FailTransaction(booking, message);
      if !committed {
        idempotency.Release(key);
        return Retry;
      }
      idempotency.MarkProcessed(key);
      return Processed;
    }

    method FailTransaction(booking: Id, message: string) returns (committed: bool)
      requires service.Valid()
      modifies service`bookings, service`saga, service`machine
      ensures service.Valid() && (old(service.MoneyConserved()) ==> service.MoneyConserved())
      ensures committed <==> booking in old(service.bookings)
      ensures if committed && old(service.bookings)[booking].row.status == PENDING
              then var b := old(service.bookings)[booking];
                   && service.bookings == old(service.bookings)[booking := b.(
                                            row := Row(BookingStatus.FAILED, b.row.version + 1),
                                            failureReason := Some(message))]
                   && service.saga == old(service.saga)[(booking, HOLD_SEATS) := Failed]
              else service.bookings == old(service.bookings) && service.saga == old(service.saga)
    {
      if booking !in service.bookings {
        return false;
      }
      if service.bookings[booking].row.status == PENDING {
        var before := service.bookings;
        service.machine := TransitionFollows(service.machine, before, service.outbox, booking, RejectFailed,
                                             Rejected(before[booking], message));
        assert service.outbox + Told(booking, before[booking].row, RejectFailed) == service.outbox;
        var updated := service.UpdateStatus(booking, BookingStatus.FAILED, before[booking].row.version + 1);
        service.bookings := service.bookings[booking := service.bookings[booking].(failureReason := Some(message))];
        assert service.bookings == before[booking := Rejected(before[booking], message)];
        service.saga := service.saga[(booking, HOLD_SEATS) := Failed];
      }
      return true;
    }

    // -- SeatHoldExpired --

    method HandleSeatHoldExpired(event: Id, booking: Id) returns (handling: Handling)
      requires service.Valid() && idempotency.processingLease > 0
      modifies service`bookings, service`saga, service`machine, idempotency`store
      ensures service.Valid() && (old(service.MoneyConserved()) ==> service.MoneyConserved())
      ensures handling == if old(Claimed(ExpiredKey(event))) then Skipped
                          else if booking !in old(service.bookings) then Retry else Processed
      ensures Marked(old(idempotency.store), ExpiredKey(event), handling)
      ensures if handling.Processed? && old(service.bookings)[booking].row.status in {SEATS_HELD, PENDING}
              then var b := old(service.bookings)[booking];
                   && service.bookings == old(service.bookings)[booking := b.(row := Row(EXPIRED, b.row.version + 1))]
                   && service.saga == old(service.saga)[(booking, HOLD_SEATS) := Compensated]
              else service.bookings == old(service.bookings) && service.saga == old(service.saga)
    {
      var key := ExpiredKey(event);
      var reserved := idempotency.ReserveIfNew(key);
      if !reserved {
        return Skipped;
      }
      var committed := ExpireTransaction(booking);
      if !committed {
        idempotency.Release(key);
        return Retry;
      }
      idempotency.MarkProcessed(key);
      return Processed;
    }

    method ExpireTransaction(booking: Id) returns (committed: bool)
      requires service.Valid()
      modifies service`bookings, service`saga, service`machine
      ensures service.Valid() && (old(service.MoneyConserved()) ==> service.MoneyConserved())
      ensures committed <==> booking in old(service.bookings)
      ensures if committed && old(service.bookings)[booking].row.status in {SEATS_HELD, PENDING}
              then var b := old(service.bookings)[booking];
                   && service.bookings == old(service.bookings)[booking := b.(row := Row(EXPIRED, b.row.version + 1))]
                   && service.saga == old(service.saga)[(booking, HOLD_SEATS) := Compensated]
              else service.bookings == old(service.bookings) && service.saga == old(service.saga)
    {
      if booking !in service.bookings {
        return false;
      }
      if service.bookings[booking].row.status in {SEATS_HELD, PENDING} {
        var before := service.bookings;
        service.machine := TransitionFollows(service.machine, before, service.outbox, booking, Expire,
                                             Expired(before[booking]));
        assert service.outbox + Told(booking, before[booking].row, Expire) == service.outbox;
        var updated := service.UpdateStatus(booking, EXPIRED, before[booking].row.version + 1);
        assert service.bookings == before[booking := Expired(before[booking])];
        service.saga := service.saga[(booking, HOLD_SEATS) := Compensated];
      }
      return true;
    }

    // -- PaymentSuccess --

    /**
     * The payment confirms a booking in SEATS_HELD or PAYMENT_PENDING. One found in CONFIRMING makes the handler
     * throw, so the message comes back and the booking stays where it is.
     */
    method HandlePaymentSuccess(event: Id, booking: Id, simulated: Id) returns (handling: Handling)
      requires service.Valid() && idempotency.processingLease > 0
      modifies service`bookings, service`outbox, service`saga, service`machine, idempotency`store
      ensures service.Valid() && (old(service.MoneyConserved()) ==> service.MoneyConserved())
      ensures handling == if old(Claimed(PaymentKey(event))) then Skipped
                          else if booking in old(service.bookings)
                                  && old(service.bookings)[booking].row.status == CONFIRMING
                          then Retry else Processed
      ensures Marked(old(idempotency.store), PaymentKey(event), handling)
      ensures if handling.Processed? && booking in old(service.bookings)
                 && old(service.bookings)[booking].row.status in {SEATS_HELD, PAYMENT_PENDING}
              then var b := old(service.bookings)[booking];
                   var pending := Pending(b, Simulated(simulated));
                   && service.bookings == old(service.bookings)[booking := Confirmed(pending)]
                   && service.outbox == old(service.outbox) + PendingTold(booking, b.row)
                                        + ConfirmTold(booking, pending.row)
                   && service.saga == old(service.saga)[(booking, CREATE_PAYMENT) := Completed]
                                                       [(booking, CONFIRM_SEATS) := Completed]
                   && Paid(b, service.bookings[booking], Simulated(simulated))
              else service.bookings == old(service.bookings) && service.outbox == old(service.outbox)
                   && service.saga == old(service.saga)
    {
      var key := PaymentKey(event);
      var reserved := idempotency.ReserveIfNew(key);
      if !reserved {
        return Skipped;
      }
      var committed := PaymentTransaction(booking, simulated);
      if !committed {
        idempotency.Release(key);
        return Retry;
      }
      idempotency.MarkProcessed(key);
      return Processed;
    }

    /** The transaction of `handlePaymentSuccess`; false when it throws, which undoes its own saga row. */
    method PaymentTransaction(booking: Id, simulated: Id) returns (committed: bool)
      requires service.Valid()
      modifies service`bookings, service`outbox, service`saga, service`machine
      ensures service.Valid() && (old(service.MoneyConserved()) ==> service.MoneyConserved())
      ensures committed
              <==> !(booking in old(service.bookings) && old(service.bookings)[booking].row.status == CONFIRMING)
      ensures if booking in old(service.bookings)
                 && old(service.bookings)[booking].row.status in {SEATS_HELD, PAYMENT_PENDING}
              then var b := old(service.bookings)[booking];
                   var pending := Pending(b, Simulated(simulated));
                   && service.bookings == old(service.bookings)[booking := Confirmed(pending)]
                   && service.outbox == old(service.outbox) + PendingTold(booking, b.row)
                                        + ConfirmTold(booking, pending.row)
                   && service.saga == old(service.saga)[(booking, CREATE_PAYMENT) := Completed]
                                                       [(booking, CONFIRM_SEATS) := Completed]
                   && Paid(b, service.bookings[booking], Simulated(simulated))
              else service.bookings == old(service.bookings) && service.outbox == old(service.outbox)
                   && service.saga == old(service.saga)
    {
      if booking !in service.bookings {
        return true;
      }
      var found := service.bookings[booking];
      if found.row.status !in {SEATS_HELD, PAYMENT_PENDING, CONFIRMING} {
        return true;
      }
      var sagaBefore := service.saga;
      service.saga := service.saga[(booking, CREATE_PAYMENT) := Completed];
      var error := service.ConfirmPayment(booking, found.user, simulated);
      if error.Some? {
        service.saga := sagaBefore;
        return false;
      }
      service.saga := service.saga[(booking, CONFIRM_SEATS) := Completed];
      return true;
    }
  }
}
