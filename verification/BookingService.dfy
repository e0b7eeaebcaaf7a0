/**
 * The booking-side service on its tables: creating, paying for and cancelling a booking. Its writes are
 * shown to be runs of the interleaved machine of BookingRuns, so what holds of every run holds here.
 */
module BookingService {
  import opened Prelude
  import opened Decimals
  import opened Inventory
  import opened InventoryAdapter
  import opened BookingLifecycle
  import opened LockStore
  import opened LegLocks
  import opened Money
  import Runs = BookingRuns

  type StatusEvent = Runs.StatusEvent

  datatype SeatRow = SeatRow(seatId: Id, inventoryId: Option<Id>, price: Option<nat>)

  datatype PaymentOrder = Auto(booking: Id) | Simulated(id: Id) | Ordered(id: Id)

  datatype Booking = Booking(
    user: Id, schedule: Id, fromStation: Id, toStation: Id, row: Row, seats: seq<SeatRow>, totalPrice: real,
    paymentOrder: Option<PaymentOrder>, failureReason: Option<string>, lockExpiresAt: Option<int>)

  datatype SagaStep = HOLD_SEATS | CREATE_PAYMENT | CONFIRM_SEATS
  datatype SagaStatus = Awaited | Completed | Failed | Compensated

  datatype Message = StatusChanged(event: StatusEvent) | HoldSeatsRequested(request: HoldRequest)

  datatype Response = Response(booking: Id, status: BookingStatus)

  datatype Error = SCHEDULE_NOT_FOUND | SCHEDULE_INACTIVE | TRAIN_ALREADY_DEPARTED | SEAT_NOT_FOUND | SEAT_HOLD_FAILED
    | BOOKING_NOT_FOUND | BOOKING_FORBIDDEN | INVALID_TRANSITION | PAYMENT_UNAVAILABLE | INTERNAL_ERROR

  datatype Result<T> = Ok(value: T) | Err(error: Error)

  datatype CreateBookingDto = CreateBookingDto(
    idempotencyKey: Id, schedule: Id, fromStation: Id, toStation: Id, journey: Journey, seatIds: seq<Id>)

  // ---- Money ----

  function Prices(seats: seq<SeatRow>): (prices: seq<nat>)
    ensures |prices| == |seats|
  {
    seq(|seats|, i requires 0 <= i < |seats| => if seats[i].price.Some? then seats[i].price.value else 0)
  }

  /** The stored total is the sum of the stored seat prices. */
  ghost predicate Conserved(b: Booking) {
    b.totalPrice == RupeeTotal(Prices(b.seats))
  }

  predicate Unpriced(seats: seq<SeatRow>) {
    forall i :: 0 <= i < |seats| ==> seats[i].price.None?
  }

  /** The total is conserved, and no seat has a price before the hold is accepted. */
  ghost predicate MoneyIsSound(b: Booking) {
    Conserved(b) && (b.row.status == PENDING ==> Unpriced(b.seats))
  }

  lemma {:induction false} NoPriceNoTotal(prices: seq<nat>)
    requires forall i :: 0 <= i < |prices| ==> prices[i] == 0
    ensures RupeeTotal(prices) == 0.0
  {
    if prices != [] {
      NoPriceNoTotal(prices[..|prices| - 1]);
    }
  }

  // ---- Locks ----

  function Texts(ids: seq<Id>): (texts: seq<string>)
    ensures |texts| == |ids|
  {
    seq(|ids|, i requires 0 <= i < |ids| => Decimal(ids[i]))
  }

  function KeysOf(dto: CreateBookingDto): seq<string> {
    LockKeys(Decimal(dto.schedule), Texts(dto.seatIds), DeriveLegs(dto.journey))
  }

  lemma TextsMeaning(ids: seq<Id>, id: Id)
    ensures Decimal(id) in Texts(ids) <==> id in ids
    ensures AllColonFree(Texts(ids)) && ColonFree(Decimal(id))
  {
    forall text | text in Texts(ids) ensures ColonFree(text) {
      var i :| 0 <= i < |ids| && Texts(ids)[i] == text;
      DecimalIsDigits(ids[i]);
    }
    DecimalIsDigits(id);
    if id in ids {
      var i :| 0 <= i < |ids| && ids[i] == id;
      assert Texts(ids)[i] == Decimal(id);
    }
    if Decimal(id) in Texts(ids) {
      var i :| 0 <= i < |ids| && Texts(ids)[i] == Decimal(id);
      DecimalInjective(ids[i], id);
    }
  }

  lemma SharedSeatText(ids: seq<Id>, ids': seq<Id>)
    ensures (exists text :: text in Texts(ids) && text in Texts(ids')) <==> exists id :: id in ids && id in ids'
  {
    if text :| text in Texts(ids) && text in Texts(ids') {
      var i :| 0 <= i < |ids| && Texts(ids)[i] == text;
      TextsMeaning(ids', ids[i]);
      assert ids[i] in ids;
    }
    if id :| id in ids && id in ids' {
      TextsMeaning(ids, id);
      TextsMeaning(ids', id);
    }
  }

  /** Some key is one of both requests. */
  ghost predicate Contending(dto: CreateBookingDto, dto': CreateBookingDto) {
    ShareKey(KeysOf(dto), KeysOf(dto'))
  }

  /** The request covers this leg: it lists it, or lists none at all and travels over it. */
  ghost predicate WantsLeg(j: Journey, leg: nat) {
    if j.legIndices.Some? then leg in j.legIndices.value
    else j.fromSequence.Some? && j.toSequence.Some? && j.fromSequence.value <= leg < j.toSequence.value
  }

  ghost predicate CommonLeg(j: Journey, j': Journey) {
    exists leg: nat :: WantsLeg(j, leg) && WantsLeg(j', leg)
  }

  ghost predicate NoLeg(j: Journey) {
    forall leg: nat :: !WantsLeg(j, leg)
  }

  lemma DerivedLegs(j: Journey)
    ensures FullScope(DeriveLegs(j)) <==> NoLeg(j)
    ensures !FullScope(DeriveLegs(j)) ==> forall leg: nat :: leg in DeriveLegs(j).value <==> WantsLeg(j, leg)
  {
    if j.legIndices.Some? {
      if j.legIndices.value != [] {
        assert WantsLeg(j, j.legIndices.value[0]);
      }
    } else if j.fromSequence.Some? && j.toSequence.Some? && j.fromSequence.value < j.toSequence.value {
      LegsBetweenMeaning(j.fromSequence.value, j.toSequence.value);
      assert WantsLeg(j, j.fromSequence.value);
    }
  }

  lemma SharedLegs(j: Journey, j': Journey)
    ensures ShareLeg(DeriveLegs(j), DeriveLegs(j')) <==> CommonLeg(j, j') || (NoLeg(j) && NoLeg(j'))
  {
    DerivedLegs(j);
    DerivedLegs(j');
    var legs, legs' := DeriveLegs(j), DeriveLegs(j');
    if CommonLeg(j, j') {
      var leg: nat :| WantsLeg(j, leg) && WantsLeg(j', leg);
      assert !FullScope(legs) && !FullScope(legs') && leg in legs.value && leg in legs'.value;
    }
    if !FullScope(legs) && !FullScope(legs') && ShareLeg(legs, legs') {
      var leg :| leg in legs.value && leg in legs'.value;
      assert WantsLeg(j, leg) && WantsLeg(j', leg);
    }
  }

  lemma ContendingIsContend(dto: CreateBookingDto, dto': CreateBookingDto)
    ensures Contending(dto, dto') <==>
              Contend(Decimal(dto.schedule), Texts(dto.seatIds), DeriveLegs(dto.journey),
                      Decimal(dto'.schedule), Texts(dto'.seatIds), DeriveLegs(dto'.journey))
  {
  }

  lemma ContendingInTexts(dto: CreateBookingDto, dto': CreateBookingDto)
    ensures Contending(dto, dto') <==>
              && Decimal(dto.schedule) == Decimal(dto'.schedule)
              && (exists text :: text in Texts(dto.seatIds) && text in Texts(dto'.seatIds))
              && ShareLeg(DeriveLegs(dto.journey), DeriveLegs(dto'.journey))
  {
    var s, s' := Decimal(dto.schedule), Decimal(dto'.schedule);
    var seats, seats' := Texts(dto.seatIds), Texts(dto'.seatIds);
    TextsMeaning(dto.seatIds, dto.schedule);
    TextsMeaning(dto'.seatIds, dto'.schedule);
    ContendExactly(s, seats, DeriveLegs(dto.journey), s', seats', DeriveLegs(dto'.journey));
    ContendingIsContend(dto, dto');
  }

  /**
   * Two requests contend for a lock exactly when they are for one schedule and a common seat, and cover a common leg
   * or both cover none.
   */
  lemma RequestsContendExactly(dto: CreateBookingDto, dto': CreateBookingDto)
    ensures Contending(dto, dto') <==>
              && dto.schedule == dto'.schedule && (exists seat :: seat in dto.seatIds && seat in dto'.seatIds)
              && (CommonLeg(dto.journey, dto'.journey) || (NoLeg(dto.journey) && NoLeg(dto'.journey)))
  {
    ContendingInTexts(dto, dto');
    if Decimal(dto.schedule) == Decimal(dto'.schedule) {
      DecimalInjective(dto.schedule, dto'.schedule);
    }
    SharedSeatText(dto.seatIds, dto'.seatIds);
    SharedLegs(dto.journey, dto'.journey);
  }

  /** Two journeys between stops cover a common leg exactly when their half-open segments overlap. */
  lemma JourneysOverlap(from: nat, to: nat, from': nat, to': nat)
    requires from < to && from' < to'
    ensures CommonLeg(Journey(None, Some(from), Some(to)), Journey(None, Some(from'), Some(to'))) <==>
              from < to' && from' < to
  {
    var j, j' := Journey(None, Some(from), Some(to)), Journey(None, Some(from'), Some(to'));
    if from < to' && from' < to {
      var leg := if from < from' then from' else from;
      assert WantsLeg(j, leg) && WantsLeg(j', leg);
    }
  }

  // ---- The rows and the outbox as a run of the interleaved machine ----

  function Events(outbox: seq<Message>): seq<StatusEvent> {
    if outbox == [] then []
    else
      Events(outbox[..|outbox| - 1])
      + (match outbox[|outbox| - 1]
         case StatusChanged(e) => [e]
         case HoldSeatsRequested(_) => [])
  }

  function RowsOf(bookings: map<Id, Booking>): map<Id, Row> {
    map b | b in bookings :: bookings[b].row
  }

  lemma RowsOfUpdate(bookings: map<Id, Booking>, id: Id, b: Booking)
    ensures RowsOf(bookings[id := b]) == RowsOf(bookings)[id := b.row]
  {
  }

  /** The machine reaches this state in some run. */
  ghost predicate Reachable(s: Runs.State) {
    exists actions :: Runs.Run(actions) == s
  }

  /** Between operations no transaction is open; rows and events are those of the service. */
  ghost predicate Follows(s: Runs.State, bookings: map<Id, Booking>, outbox: seq<Message>) {
    Reachable(s) && s.txs == map[] && s.rows == RowsOf(bookings) && s.outbox == Events(outbox)
  }

  lemma StepIsReachable(s: Runs.State, a: Runs.Action)
    requires Reachable(s)
    ensures Reachable(Runs.Step(s, a))
  {
    var actions :| Runs.Run(actions) == s;
    assert (actions + [a])[..|actions|] == actions;
    assert Runs.Run(actions + [a]) == Runs.Step(s, a);
  }

  function EventOf(id: Id, row: Row, kind: Transition): StatusEvent {
    Runs.StatusEvent(id, Some(row.status), kind.Target(), row.version + 1)
  }

  function Told(id: Id, row: Row, kind: Transition): seq<Message> {
    if kind.Announced() then [StatusChanged(EventOf(id, row, kind))] else []
  }

  ghost function EventsTold(id: Id, row: Row, kind: Transition): seq<StatusEvent> {
    if kind.Announced() then [EventOf(id, row, kind)] else []
  }

  lemma TransitionSteps(s: Runs.State, b: Id, kind: Transition) returns (s': Runs.State)
    requires Reachable(s) && s.txs == map[] && b in s.rows && s.rows[b].status in kind.From()
    ensures Reachable(s') && s'.txs == map[] && s'.rows == s.rows[b := Row(kind.Target(), s.rows[b].version + 1)]
    ensures s'.outbox == s.outbox + EventsTold(b, s.rows[b], kind)
  {
    StepIsReachable(s, Runs.Begin(0, kind, b));
    var s1 := Runs.Step(s, Runs.Begin(0, kind, b));
    assert s1.txs == map[0 := Runs.Tx(kind, b, None)];
    StepIsReachable(s1, Runs.Read(0));
    var s2 := Runs.Step(s1, Runs.Read(0));
    assert s2.txs == map[0 := Runs.Tx(kind, b, Some(s.rows[b]))];
    StepIsReachable(s2, Runs.Write(0));
    s' := Runs.Step(s2, Runs.Write(0));
  }

  lemma TransitionIsTold(outbox: seq<Message>, id: Id, row: Row, kind: Transition)
    ensures Events(outbox + Told(id, row, kind)) == Events(outbox) + EventsTold(id, row, kind)
  {
    var told := Told(id, row, kind);
    assert outbox + [] == outbox;
    assert told != [] ==> (outbox + told)[..|outbox|] == outbox;
  }

  /** A transition of the service is a transaction of the machine that runs undisturbed. */
  lemma TransitionFollows(s: Runs.State, bookings: map<Id, Booking>, outbox: seq<Message>, id: Id, kind: Transition,
                          after: Booking) returns (s': Runs.State)
    requires Follows(s, bookings, outbox)
    requires id in bookings && bookings[id].row.status in kind.From()
    requires after.row == Row(kind.Target(), bookings[id].row.version + 1)
    ensures Follows(s', bookings[id := after], outbox + Told(id, bookings[id].row, kind))
  {
    var row := bookings[id].row;
    RowsOfUpdate(bookings, id, after);
    TransitionIsTold(outbox, id, row, kind);
    assert s.rows[id] == row;
    s' := TransitionSteps(s, id, kind);
  }

  lemma CreationIsTold(outbox: seq<Message>, b: Id, request: HoldRequest)
    ensures Events(outbox + CreatedTold(b, request)) == Events(outbox) + [Runs.StatusEvent(b, None, PENDING, 1)]
  {
    var longer := outbox + CreatedTold(b, request);
    var first := CreatedTold(b, request)[0];
    assert longer[..|longer| - 1] == outbox + [first];
    assert (outbox + [first])[..|outbox|] == outbox;
  }

  lemma CreationFollows(s: Runs.State, bookings: map<Id, Booking>, outbox: seq<Message>, id: Id, created: Booking,
                        request: HoldRequest) returns (s': Runs.State)
    requires Follows(s, bookings, outbox)
    requires id !in bookings && created.row == Row(PENDING, 1)
    ensures Follows(s', bookings[id := created], outbox + CreatedTold(id, request))
  {
    StepIsReachable(s, Runs.Create(id));
    s' := Runs.Step(s, Runs.Create(id));
    RowsOfUpdate(bookings, id, created);
    CreationIsTold(outbox, id, request);
  }

  // ---- What the operations do ----

  function Created(user: Id, dto: CreateBookingDto): Booking {
    Booking(user, dto.schedule, dto.fromStation, dto.toStation, Row(PENDING, 1),
            seq(|dto.seatIds|, i requires 0 <= i < |dto.seatIds| => SeatRow(dto.seatIds[i], None, None)),
            0.0, None, None, None)
  }

  lemma CreatedIsConserved(user: Id, dto: CreateBookingDto)
    ensures MoneyIsSound(Created(user, dto))
  {
    NoPriceNoTotal(Prices(Created(user, dto).seats));
  }

  /** The booking of this user and request: PENDING at version 1, with its seats in order, unpriced and unpaid. */
  ghost predicate IsNew(b: Booking, user: Id, dto: CreateBookingDto) {
    && b.user == user && b.schedule == dto.schedule && b.fromStation == dto.fromStation && b.toStation == dto.toStation
    && b.row == Row(PENDING, 1) && b.totalPrice == 0.0
    && b.paymentOrder == None && b.failureReason == None && b.lockExpiresAt == None
    && |b.seats| == |dto.seatIds|
    && forall i :: 0 <= i < |b.seats| ==>
         b.seats[i].seatId == dto.seatIds[i] && b.seats[i].inventoryId == None && b.seats[i].price == None
  }

  lemma CreatedIsNew(user: Id, dto: CreateBookingDto, b: Booking)
    ensures b == Created(user, dto) <==> IsNew(b, user, dto)
  {
    var created := Created(user, dto);
    if IsNew(b, user, dto) {
      forall i | 0 <= i < |b.seats| ensures b.seats[i] == created.seats[i] {
      }
      assert b.seats == created.seats;
    }
  }

  /** The two messages of a new booking. */
  function CreatedTold(booking: Id, request: HoldRequest): seq<Message> {
    [StatusChanged(Runs.StatusEvent(booking, None, PENDING, 1)), HoldSeatsRequested(request)]
  }

  function HoldRequestOf(dto: CreateBookingDto, inventoryIds: seq<Id>, booking: Id, event: Id, ttlMs: nat)
    : HoldRequest
  {
    HoldRequest(event, booking, dto.schedule, inventoryIds, dto.fromStation, dto.toStation,
                if dto.journey.fromSequence.Some? then dto.journey.fromSequence.value else 0,
                if dto.journey.toSequence.Some? then dto.journey.toSequence.value else MAX_POSTGRES_INT,
                ttlMs)
  }

  /** The stop a traveller means: by sequence number, if they give one that the schedule has, and else by station. */
  ghost predicate JourneyStop(stops: seq<RouteStop>, schedule: Id, sequence: Option<nat>, station: Id,
                              stop: RouteStop)
  {
    && stop in stops && stop.schedule == schedule
    && if sequence.Some? && HasSequence(stops, schedule, sequence.value) then stop.sequence == sequence.value
       else stop.station == station
  }

  /**
   * The hold request asks for the journey of the booking request. An absent last sequence is sent as the largest
   * integer of the database, so it must not be the number of a stop.
   */
  ghost predicate AsksJourney(request: HoldRequest, dto: CreateBookingDto) {
    forall stops: seq<RouteStop>, stop: RouteStop ::
      && (Means(stops, request.schedule, request.fromSequence, request.fromStation, stop) <==>
            JourneyStop(stops, dto.schedule, dto.journey.fromSequence, dto.fromStation, stop))
      && (Means(stops, request.schedule, request.toSequence, request.toStation, stop) <==>
            if dto.journey.toSequence.None? && HasSequence(stops, dto.schedule, MAX_POSTGRES_INT)
            then stop in stops && stop.schedule == dto.schedule && stop.sequence == MAX_POSTGRES_INT
            else JourneyStop(stops, dto.schedule, dto.journey.toSequence, dto.toStation, stop))
  }

  lemma RequestAsksJourney(dto: CreateBookingDto, inventoryIds: seq<Id>, booking: Id, event: Id, ttlMs: nat)
    ensures AsksJourney(HoldRequestOf(dto, inventoryIds, booking, event, ttlMs), dto)
  {
  }

  /** A creation tells of the new booking and asks for its seats, its journey and its time to pay. */
  ghost predicate Announces(before: seq<Message>, after: seq<Message>, dto: CreateBookingDto, inventoryIds: seq<Id>,
                            booking: Id, holdEvent: Id, ttlMs: nat)
  {
    exists request: HoldRequest ::
      && after == before + [StatusChanged(Runs.StatusEvent(booking, None, PENDING, 1)), HoldSeatsRequested(request)]
      && request.event == holdEvent && request.booking == booking && request.schedule == dto.schedule
      && request.seats == inventoryIds && request.ttlMs == ttlMs && AsksJourney(request, dto)
  }

  lemma CreationAnnounces(before: seq<Message>, dto: CreateBookingDto, inventoryIds: seq<Id>, booking: Id,
                          holdEvent: Id, ttlMs: nat)
    ensures var request := HoldRequestOf(dto, inventoryIds, booking, holdEvent, ttlMs);
            Announces(before, before + CreatedTold(booking, request), dto, inventoryIds, booking, holdEvent, ttlMs)
  {
    RequestAsksJourney(dto, inventoryIds, booking, holdEvent, ttlMs);
  }

  function WithOrder(b: Booking, order: Option<PaymentOrder>): Booking {
    if order.Some? then b.(paymentOrder := order) else b
  }

  function Next(b: Booking, kind: Transition, order: Option<PaymentOrder>): Booking {
    WithOrder(b, order).(row := Row(kind.Target(), b.row.version + 1))
  }

  /** The guarded write after the column update hits exactly the row that was read, and then makes the transition. */
  lemma WriteOutcome(bookings: map<Id, Booking>, id: Id, seen: Row, kind: Transition, order: Option<PaymentOrder>)
    requires id in bookings && ReadEarlier(seen, bookings[id].row)
    ensures var middle := WithOrder(bookings[id], order);
            && (middle.row.version < seen.version + 1 <==> bookings[id].row == seen)
            && (bookings[id].row == seen ==>
                  bookings[id := middle][id := middle.(row := Row(kind.Target(), seen.version + 1))]
                  == bookings[id := Next(bookings[id], kind, order)])
  {
  }

  ghost predicate AllSound(bookings: map<Id, Booking>) {
    forall b :: b in bookings ==> MoneyIsSound(bookings[b])
  }

  lemma NextKeepsMoney(bookings: map<Id, Booking>, id: Id, kind: Transition, order: Option<PaymentOrder>)
    requires id in bookings && AllSound(bookings)
    ensures AllSound(bookings[id := Next(bookings[id], kind, order)])
  {
    assert MoneyIsSound(bookings[id]);
  }

  lemma TransitionKeeps(s: Runs.State, bookings: map<Id, Booking>, outbox: seq<Message>, id: Id, kind: Transition,
                        order: Option<PaymentOrder>) returns (s': Runs.State)
    requires Follows(s, bookings, outbox)
    requires id in bookings && bookings[id].row.status in kind.From()
    ensures var moved := bookings[id := Next(bookings[id], kind, order)];
            && Follows(s', moved, outbox + Told(id, bookings[id].row, kind))
            && (AllSound(bookings) ==> AllSound(moved))
  {
    s' := TransitionFollows(s, bookings, outbox, id, kind, Next(bookings[id], kind, order));
    if AllSound(bookings) {
      NextKeepsMoney(bookings, id, kind, order);
    }
  }

  function OwnerRefusal(bookings: map<Id, Booking>, id: Id, user: Id): Option<Error> {
    if id !in bookings then Some(BOOKING_NOT_FOUND)
    else if bookings[id].user != user then Some(BOOKING_FORBIDDEN)
    else None
  }

  function Cancelled(b: Booking): Booking {
    b.(row := Row(CANCELLED, b.row.version + 2))
  }

  function CancelTold(id: Id, row: Row): seq<Message> {
    [StatusChanged(Runs.StatusEvent(id, Some(row.status), CANCELLING, row.version + 1)),
     StatusChanged(Runs.StatusEvent(id, Some(CANCELLING), CANCELLED, row.version + 2))]
  }

  lemma CancelIsTwoSteps(bookings: map<Id, Booking>, outbox: seq<Message>, id: Id)
    requires id in bookings
    ensures var b := bookings[id];
            var b1 := Next(b, StartCancelling, None);
            && bookings[id := b1][id := Next(b1, FinishCancelling, None)] == bookings[id := Cancelled(b)]
            && outbox + Told(id, b.row, StartCancelling) + Told(id, b1.row, FinishCancelling)
               == outbox + CancelTold(id, b.row)
  {
  }

  /** After the booking has its payment order: where a success leads from SEATS_HELD or PAYMENT_PENDING. */
  function Pending(b: Booking, order: PaymentOrder): Booking {
    if b.row.status == SEATS_HELD then Next(b, MarkPaymentPending, Some(order)) else b
  }

  function PendingTold(id: Id, row: Row): seq<Message> {
    if row.status == SEATS_HELD then Told(id, row, MarkPaymentPending) else []
  }

  function Confirmed(b: Booking): Booking {
    b.(row := Row(CONFIRMED, b.row.version + 2))
  }

  function ConfirmTold(id: Id, row: Row): seq<Message> {
    [StatusChanged(Runs.StatusEvent(id, Some(row.status), CONFIRMING, row.version + 1)),
     StatusChanged(Runs.StatusEvent(id, Some(CONFIRMING), CONFIRMED, row.version + 2))]
  }

  lemma ConfirmIsTwoSteps(bookings: map<Id, Booking>, outbox: seq<Message>, id: Id)
    requires id in bookings
    ensures var b := bookings[id];
            var b1 := Next(b, MarkConfirming, None);
            && bookings[id := b1][id := Next(b1, MarkConfirmed, None)] == bookings[id := Confirmed(b)]
            && outbox + Told(id, b.row, MarkConfirming) + Told(id, b1.row, MarkConfirmed)
               == outbox + ConfirmTold(id, b.row)
  {
  }

  /** A row of the booking as some earlier read saw it: an older version, or the present row itself. */
  ghost predicate ReadEarlier(seen: Row, now: Row) {
    seen.version <= now.version && (seen.version == now.version ==> seen == now)
  }

  /** Only the status, so many versions later, and perhaps the payment order differ. */
  ghost predicate Moved(before: Booking, after: Booking, status: BookingStatus, versions: nat) {
    && after.row.status == status && after.row.version == before.row.version + versions
    && after.user == before.user && after.schedule == before.schedule
    && after.fromStation == before.fromStation && after.toStation == before.toStation
    && after.seats == before.seats && after.totalPrice == before.totalPrice
    && after.failureReason == before.failureReason && after.lockExpiresAt == before.lockExpiresAt
  }

  lemma CancelledMoves(b: Booking)
    ensures Moved(b, Cancelled(b), CANCELLED, 2) && Cancelled(b).paymentOrder == b.paymentOrder
  {
  }

  lemma NextMoves(b: Booking, kind: Transition, order: Option<PaymentOrder>)
    ensures var after := Next(b, kind, order);
            && Moved(b, after, kind.Target(), 1)
            && after.paymentOrder == if order.Some? then order else b.paymentOrder
  {
  }

  lemma AnnouncedIsTold(id: Id, row: Row, kind: Transition)
    requires kind.Announced()
    ensures Told(id, row, kind) == [
              StatusChanged(Runs.StatusEvent(id, Some(row.status), kind.Target(), row.version + 1))]
  {
  }

  /** A held booking now awaits payment under this order; any other is as it was. */
  ghost predicate Settled(before: Booking, after: Booking, order: PaymentOrder) {
    if before.row.status == SEATS_HELD
    then Moved(before, after, PAYMENT_PENDING, 1) && after.paymentOrder == Some(order)
    else after == before
  }

  lemma PendingSettles(b: Booking, order: PaymentOrder)
    ensures Settled(b, Pending(b, order), order)
  {
  }

  /** The booking is confirmed, in three transitions with this order if it was only held, else in two. */
  ghost predicate Paid(before: Booking, after: Booking, order: PaymentOrder) {
    if before.row.status == SEATS_HELD
    then Moved(before, after, CONFIRMED, 3) && after.paymentOrder == Some(order)
    else Moved(before, after, CONFIRMED, 2) && after.paymentOrder == before.paymentOrder
  }

  class BookingService {
    const locks: LockStore<string>
    const holdTtlMs: nat
    var bookings: map<Id, Booking>
    var saga: map<(Id, SagaStep), SagaStatus>
    var outbox: seq<Message>
    var keys: map<Id, Response>
    ghost var machine: Runs.State

    ghost predicate Valid()
      reads this`bookings, this`outbox, this`machine
    {
      Follows(machine, bookings, outbox)
    }

    ghost predicate MoneyConserved()
      reads this`bookings
    {
      AllSound(bookings)
    }

    constructor (locks: LockStore<string>, holdTtlMs: nat)
      ensures Valid() && MoneyConserved()
      ensures this.locks == locks && this.holdTtlMs == holdTtlMs
      ensures bookings == map[] && saga == map[] && outbox == [] && keys == map[]
    {
      this.locks, this.holdTtlMs := locks, holdTtlMs;
      bookings, saga, outbox, keys, machine := map[], map[], [], map[], Runs.Init;
      new;
      assert Runs.Run([]) == Runs.Init;
    }

    // -- Creating --

    /**
     * `validation` is the answer of the schedule check, `reply` that of the seat lookup, and `databaseFails`
     * says whether the transaction is lost; `booking` and `holdEvent` are the fresh ids.
     */
    method CreateBooking(user: Id, dto: CreateBookingDto, validation: Option<Error>, reply: seq<SeatDetail>,
                         booking: Id, holdEvent: Id, databaseFails: bool) returns (r: Result<Response>)
      requires Valid() && booking !in bookings
      modifies this, locks
      ensures Valid() && (old(MoneyConserved()) ==> MoneyConserved())
      ensures dto.idempotencyKey in old(keys) ==> r == Ok(old(keys)[dto.idempotencyKey])
      ensures dto.idempotencyKey !in old(keys) ==>
                r == if validation.Some? then Err(validation.value)
                     else if ResolveSeatInventoryIds(reply, dto.seatIds).None? then Err(SEAT_NOT_FOUND)
                     else if !Grantable(old(locks.held), KeysOf(dto)) then Err(SEAT_HOLD_FAILED)
                     else if databaseFails then Err(INTERNAL_ERROR)
                     else Ok(Response(booking, PENDING))
      ensures r.Err? || dto.idempotencyKey in old(keys) ==>
                && bookings == old(bookings) && saga == old(saga) && outbox == old(outbox) && keys == old(keys)
                && locks.held == old(locks.held)
      ensures r.Ok? && dto.idempotencyKey !in old(keys) ==>
                && booking in bookings && IsNew(bookings[booking], user, dto)
                && bookings == old(bookings)[booking := bookings[booking]]
                && Announces(old(outbox), outbox, dto, ResolveSeatInventoryIds(reply, dto.seatIds).value, booking,
                             holdEvent, holdTtlMs)
                && saga == old(saga)[(booking, HOLD_SEATS) := Awaited][(booking, CREATE_PAYMENT) := Awaited]
                                    [(booking, CONFIRM_SEATS) := Awaited]
                && keys == old(keys)[dto.idempotencyKey := Response(booking, PENDING)]
                && locks.held == old(locks.held) + Granted(KeysOf(dto), booking)
    {
      if dto.idempotencyKey in keys {
        return Ok(keys[dto.idempotencyKey]);
      }
      if validation.Some? {
        return Err(validation.value);
      }
      var inventoryIds := ResolveSeatInventoryIds(reply, dto.seatIds);
      if inventoryIds.None? {
        return Err(SEAT_NOT_FOUND);
      }
      var lockKeys := GetLockKeys(Decimal(dto.schedule), Texts(dto.seatIds), DeriveLegs(dto.journey));
      var acquired := locks.Acquire(lockKeys, booking);
      if !acquired {
        return Err(SEAT_HOLD_FAILED);
      }
      if databaseFails {
        var released := locks.Release(lockKeys, booking);
        ReleaseUndoesGrant(old(locks.held), lockKeys, booking);
        return Err(INTERNAL_ERROR);
      }
      var response := Persist(user, dto, inventoryIds.value, booking, holdEvent);
      return Ok(response);
    }

    /**
     * The transaction of `createBooking`. A key that was recorded meanwhile answers for it and nothing is
     * written; the seat locks taken for the losing request are then left to expire.
     */
    method Persist(user: Id, dto: CreateBookingDto, inventoryIds: seq<Id>, booking: Id, holdEvent: Id)
      returns (response: Response)
      requires Valid() && booking !in bookings
      modifies this
      ensures Valid() && (old(MoneyConserved()) ==> MoneyConserved())
      ensures dto.idempotencyKey in old(keys) ==>
                && response == old(keys)[dto.idempotencyKey]
                && bookings == old(bookings) && saga == old(saga) && outbox == old(outbox) && keys == old(keys)
      ensures dto.idempotencyKey !in old(keys) ==>
                && response == Response(booking, PENDING)
                && booking in bookings && IsNew(bookings[booking], user, dto)
                && bookings == old(bookings)[booking := bookings[booking]]
                && Announces(old(outbox), outbox, dto, inventoryIds, booking, holdEvent, holdTtlMs)
                && saga == old(saga)[(booking, HOLD_SEATS) := Awaited][(booking, CREATE_PAYMENT) := Awaited]
                                    [(booking, CONFIRM_SEATS) := Awaited]
                && keys == old(keys)[dto.idempotencyKey := response]
    {
      if dto.idempotencyKey in keys {
        return keys[dto.idempotencyKey];
      }
      response := Response(booking, PENDING);
      CreationAnnounces(outbox, dto, inventoryIds, booking, holdEvent, holdTtlMs);
      CreatedIsNew(user, dto, Created(user, dto));
      Insert(booking, Created(user, dto), HoldRequestOf(dto, inventoryIds, booking, holdEvent, holdTtlMs));
      CreatedIsConserved(user, dto);
      keys := keys[dto.idempotencyKey := response];
    }

    /** The booking row, its first event, its saga rows and the hold request. */
    method Insert(booking: Id, created: Booking, request: HoldRequest)
      requires Valid() && booking !in bookings && created.row == Row(PENDING, 1)
      modifies this`bookings, this`outbox, this`saga, this`machine
      ensures Valid()
      ensures bookings == old(bookings)[booking := created] && outbox == old(outbox) + CreatedTold(booking, request)
      ensures saga == old(saga)[(booking, HOLD_SEATS) := Awaited][(booking, CREATE_PAYMENT) := Awaited]
                               [(booking, CONFIRM_SEATS) := Awaited]
    {
      machine := CreationFollows(machine, bookings, outbox, booking, created, request);
      assert outbox + CreatedTold(booking, request)
             == outbox + [CreatedTold(booking, request)[0]] + [HoldSeatsRequested(request)];
      bookings := bookings[booking := created];
      outbox := outbox + [StatusChanged(Runs.StatusEvent(booking, None, PENDING, 1))];
      saga := saga[(booking, HOLD_SEATS) := Awaited];
      saga := saga[(booking, CREATE_PAYMENT) := Awaited];
      saga := saga[(booking, CONFIRM_SEATS) := Awaited];
      outbox := outbox + [HoldSeatsRequested(request)];
    }

    // -- Transitions --

    /** `updateMany where version < expected`. */
    method UpdateStatus(id: Id, status: BookingStatus, expectedVersion: nat) returns (updated: bool)
      modifies this`bookings
      ensures updated <==> id in old(bookings) && old(bookings)[id].row.version < expectedVersion
      ensures bookings == if updated then old(bookings)[id := old(bookings)[id].(row := Row(status, expectedVersion))]
                          else old(bookings)
    {
      updated := id in bookings && bookings[id].row.version < expectedVersion;
      if updated {
        bookings := bookings[id := bookings[id].(row := Row(status, expectedVersion))];
      }
    }

    /**
     * The write half of `transition`, after a read that may have gone stale: it takes effect exactly when the
     * row is still the one that was read, and a lost race leaves no trace of the column updates either.
     */
    method WriteTransition(id: Id, seen: Row, kind: Transition, order: Option<PaymentOrder>) returns (updated: bool)
      requires Valid() && id in bookings && kind.Announced()
      requires ReadEarlier(seen, bookings[id].row) && seen.status in kind.From()
      modifies this`bookings, this`outbox, this`machine
      ensures Valid() && (old(MoneyConserved()) ==> MoneyConserved())
      ensures updated <==> old(bookings)[id].row == seen
      ensures updated ==> bookings == old(bookings)[id := Next(old(bookings)[id], kind, order)]
      ensures updated ==> Moved(old(bookings)[id], bookings[id], kind.Target(), 1)
                          && bookings[id].paymentOrder == if order.Some? then order else old(bookings)[id].paymentOrder
      ensures updated ==> outbox == old(outbox) + [
                            StatusChanged(Runs.StatusEvent(id, Some(seen.status), kind.Target(), seen.version + 1))]
      ensures !updated ==> bookings == old(bookings) && outbox == old(outbox)
    {
      var before := bookings;
      bookings := bookings[id := WithOrder(bookings[id], order)];
      updated := UpdateStatus(id, kind.Target(), seen.version + 1);
      WriteOutcome(before, id, seen, kind, order);
      if !updated {
        bookings := before;
        return;
      }
      assert bookings == before[id := Next(before[id], kind, order)];
      NextMoves(before[id], kind, order);
      AnnouncedIsTold(id, seen, kind);
      machine := TransitionKeeps(machine, before, outbox, id, kind, order);
      outbox := outbox + Told(id, seen, kind);
    }

    method Transit(id: Id, kind: Transition, order: Option<PaymentOrder>) returns (error: Option<Error>)
      requires Valid() && kind.Announced()
      modifies this`bookings, this`outbox, this`machine
      ensures Valid() && (old(MoneyConserved()) ==> MoneyConserved())
      ensures error == if id !in old(bookings) then Some(BOOKING_NOT_FOUND)
                       else if old(bookings)[id].row.status !in kind.From() then Some(INVALID_TRANSITION) else None
      ensures error.None? ==> bookings == old(bookings)[id := Next(old(bookings)[id], kind, order)]
                              && outbox == old(outbox) + Told(id, old(bookings)[id].row, kind)
      ensures error.Some? ==> bookings == old(bookings) && outbox == old(outbox)
    {
      if id !in bookings {
        return Some(BOOKING_NOT_FOUND);
      }
      if bookings[id].row.status !in kind.From() {
        return Some(INVALID_TRANSITION);
      }
      AnnouncedIsTold(id, bookings[id].row, kind);
      var updated := WriteTransition(id, bookings[id].row, kind, order);
      error := if updated then None else Some(INVALID_TRANSITION);
    }

    /** Two transitions, so two events; a live booking other than SEATS_HELD and CONFIRMED is refused. */
    method CancelBooking(id: Id, user: Id) returns (error: Option<Error>)
      requires Valid()
      modifies this`bookings, this`outbox, this`machine
      ensures Valid() && (old(MoneyConserved()) ==> MoneyConserved())
      ensures error == if id !in old(bookings) then Some(BOOKING_NOT_FOUND)
                       else if old(bookings)[id].user != user then Some(BOOKING_FORBIDDEN)
                       else if old(bookings)[id].row.status !in {CONFIRMED, SEATS_HELD} then Some(INVALID_TRANSITION)
                       else None
      ensures error.Some? ==> bookings == old(bookings) && outbox == old(outbox)
      ensures error.None? ==>
                && bookings == old(bookings)[id := Cancelled(old(bookings)[id])]
                && Moved(old(bookings)[id], bookings[id], CANCELLED, 2)
                && bookings[id].paymentOrder == old(bookings)[id].paymentOrder
                && outbox == old(outbox) + CancelTold(id, old(bookings)[id].row)
    {
      error := OwnerRefusal(bookings, id, user);
      if error.None? {
        CancelledMoves(bookings[id]);
        error := CancelOwn(id);
      }
    }

    /** The two transitions of a cancellation. */
    method CancelOwn(id: Id) returns (error: Option<Error>)
      requires Valid() && id in bookings
      modifies this`bookings, this`outbox, this`machine
      ensures Valid() && (old(MoneyConserved()) ==> MoneyConserved())
      ensures error == if old(bookings)[id].row.status !in {CONFIRMED, SEATS_HELD} then Some(INVALID_TRANSITION)
                       else None
      ensures error.Some? ==> bookings == old(bookings) && outbox == old(outbox)
      ensures error.None? ==>
                && bookings == old(bookings)[id := Cancelled(old(bookings)[id])]
                && outbox == old(outbox) + CancelTold(id, old(bookings)[id].row)
    {
      CancelIsTwoSteps(bookings, outbox, id);
      error := Transit(id, StartCancelling, None);
      if error.None? {
        error := Transit(id, FinishCancelling, None);
      }
    }

    // -- Paying --

    /**
     * `reply` is payment-service's order, None when the call fails. The order is asked for in any status; only a
     * booking in SEATS_HELD moves on.
     */
    method CreatePaymentOrder(id: Id, user: Id, reply: Option<Id>) returns (r: Result<Id>, asked: Option<int>)
      requires Valid()
      modifies this`bookings, this`outbox, this`machine, this`saga
      ensures Valid() && (old(MoneyConserved()) ==> MoneyConserved())
      ensures r == if id !in old(bookings) then Err(BOOKING_NOT_FOUND)
                   else if old(bookings)[id].user != user then Err(BOOKING_FORBIDDEN)
                   else if reply.None? then Err(PAYMENT_UNAVAILABLE)
                   else Ok(reply.value)
      ensures asked.Some? <==> id in old(bookings) && old(bookings)[id].user == user
      ensures asked.Some? ==> asked.value == RoundTimes100(old(bookings)[id].totalPrice)
      ensures asked.Some? && old(MoneyConserved()) ==> asked.value == Sum(Prices(old(bookings)[id].seats))
      ensures asked.None? ==> saga == old(saga)
      ensures asked.Some? ==> saga == old(saga)[(id, CREATE_PAYMENT) := if reply.None? then Failed else Completed]
      ensures r.Ok? ==> bookings == old(bookings)[id := Pending(old(bookings)[id], Ordered(reply.value))]
                        && outbox == old(outbox) + PendingTold(id, old(bookings)[id].row)
      ensures r.Ok? && old(bookings)[id].row.status == SEATS_HELD ==>
                && id in bookings && Moved(old(bookings)[id], bookings[id], PAYMENT_PENDING, 1)
                && bookings[id].paymentOrder == Some(Ordered(reply.value))
      ensures r.Ok? && old(bookings)[id].row.status != SEATS_HELD ==> bookings == old(bookings)
      ensures r.Err? ==> bookings == old(bookings) && outbox == old(outbox)
    {
      asked := None;
      var refusal := OwnerRefusal(bookings, id, user);
      if refusal.Some? {
        return Err(refusal.value), None;
      }
      var booking := bookings[id];
      asked := Some(RoundTimes100(booking.totalPrice));
      PaymentAmountIsSeatSum(Prices(booking.seats));
      if reply.None? {
        saga := saga[(id, CREATE_PAYMENT) := Failed];
        return Err(PAYMENT_UNAVAILABLE), asked;
      }
      saga := saga[(id, CREATE_PAYMENT) := Completed];
      AdvanceIfHeld(id, Ordered(reply.value));
      r := Ok(reply.value);
    }

    /** `markPaymentPending` for a booking in SEATS_HELD; any other is left alone. */
    method AdvanceIfHeld(id: Id, order: PaymentOrder)
      requires Valid() && id in bookings
      modifies this`bookings, this`outbox, this`machine
      ensures Valid() && (old(MoneyConserved()) ==> MoneyConserved())
      ensures bookings == old(bookings)[id := Pending(old(bookings)[id], order)]
      ensures outbox == old(outbox) + PendingTold(id, old(bookings)[id].row)
      ensures Settled(old(bookings)[id], bookings[id], order)
    {
      if bookings[id].row.status == SEATS_HELD {
        var error := Transit(id, MarkPaymentPending, Some(order));
      }
    }

    /** From SEATS_HELD or PAYMENT_PENDING to CONFIRMED, one transition and one event at a time. */
    method ConfirmPayment(id: Id, user: Id, simulated: Id) returns (error: Option<Error>)
      requires Valid()
      modifies this`bookings, this`outbox, this`machine, this`saga
      ensures Valid() && (old(MoneyConserved()) ==> MoneyConserved())
      ensures error == if id !in old(bookings) then Some(BOOKING_NOT_FOUND)
                       else if old(bookings)[id].user != user then Some(BOOKING_FORBIDDEN)
                       else if old(bookings)[id].row.status !in {SEATS_HELD, PAYMENT_PENDING}
                        then Some(INVALID_TRANSITION)
                       else None
      ensures error.Some? ==> bookings == old(bookings) && outbox == old(outbox) && saga == old(saga)
      ensures error.None? ==>
                var pending := Pending(old(bookings)[id], Simulated(simulated));
                && bookings == old(bookings)[id := Confirmed(pending)]
                && outbox == old(outbox) + PendingTold(id, old(bookings)[id].row) + ConfirmTold(id, pending.row)
                && saga == old(saga)[(id, CONFIRM_SEATS) := Completed]
                && Paid(old(bookings)[id], bookings[id], Simulated(simulated))
    {
      error := OwnerRefusal(bookings, id, user);
      if error.Some? {
        return;
      }
      AdvanceIfHeld(id, Simulated(simulated));
      error := ConfirmPending(id);
      if error.None? {
        saga := saga[(id, CONFIRM_SEATS) := Completed];
      }
    }

    method ConfirmPending(id: Id) returns (error: Option<Error>)
      requires Valid() && id in bookings
      modifies this`bookings, this`outbox, this`machine
      ensures Valid() && (old(MoneyConserved()) ==> MoneyConserved())
      ensures error == if old(bookings)[id].row.status != PAYMENT_PENDING then Some(INVALID_TRANSITION) else None
      ensures error.Some? ==> bookings == old(bookings) && outbox == old(outbox)
      ensures error.None? ==>
                && bookings == old(bookings)[id := Confirmed(old(bookings)[id])]
                && outbox == old(outbox) + ConfirmTold(id, old(bookings)[id].row)
    {
      ConfirmIsTwoSteps(bookings, outbox, id);
      error := Transit(id, MarkConfirming, None);
      if error.None? {
        error := Transit(id, MarkConfirmed, None);
      }
    }
  }

  // ---- What every booking of the service obeys ----

  /** Every booking has a lawful history as long as its version, and every status event of the outbox is true of it. */
  lemma EveryBookingIsLawful(service: BookingService, id: Id) returns (trail: seq<BookingStatus>)
    requires service.Valid() && id in service.bookings
    ensures Lawful(trail) && service.bookings[id].row == Row(trail[|trail| - 1], |trail|) && |trail| <= 7
    ensures forall e :: e in Events(service.outbox) && e.booking == id ==>
              1 <= e.version <= |trail| && trail[e.version - 1] == e.current
              && e.previous == (if e.version == 1 then None else Some(trail[e.version - 2]))
    ensures forall v :: 1 <= v <= |trail| && !Runs.Silent(trail[v - 1]) ==>
              Runs.HasEvent(Events(service.outbox), id, v)
  {
    var s := service.machine;
    var actions :| Runs.Run(actions) == s;
    Runs.LifecycleOfEveryRun(actions, id);
    trail := s.trails[id];
    Runs.OutboxOfEveryRun(actions, id, 1);
    forall v | 1 <= v <= |trail| && !Runs.Silent(trail[v - 1]) ensures Runs.HasEvent(Events(service.outbox), id, v) {
      Runs.OutboxOfEveryRun(actions, id, v);
    }
    forall e | e in Events(service.outbox) && e.booking == id ensures Runs.EventIsTrue(e, s.trails) {
      var i :| 0 <= i < |s.outbox| && s.outbox[i] == e;
    }
  }
}
