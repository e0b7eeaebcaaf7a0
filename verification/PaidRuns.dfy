/**
 * Runs of both services with the money the bookings carry: every booking that has accepted its hold is charged
 * what the committed hold costs, seat by seat and in total.
 */
module PaidRuns {
  import opened Prelude
  import opened Inventory
  import opened InventoryAdapter
  import opened BookingLifecycle
  import opened Money
  import Seats = SeatTransactions
  import Bookings = BookingRuns
  import HoldRuns
  import EndToEnd
  import Service = BookingService
  import Saga = BookingSaga

  /** One call of `createBooking`, with the ids it draws. */
  datatype Order = Order(user: Id, dto: Service.CreateBookingDto, booking: Id, event: Id, ttlMs: nat)

  /** The joint machine, the booking rows in full, and the orders they came from. */
  datatype Ledger = Ledger(system: EndToEnd.System, books: map<Id, Service.Booking>, orders: map<Id, Order>)

  const Init := Ledger(EndToEnd.Init, map[], map[])

  /** A booking is ordered, a reply is accepted, or the machine takes any other step. */
  datatype Move = Place(order: Order) | Accept(tx: Id, reply: nat) | Other(action: EndToEnd.Action)

  function RequestOf(inventory: Inventory, o: Order): HoldRequest {
    Saga.OwnRequest(o.dto, inventory, o.booking, o.event, o.ttlMs)
  }

  ghost predicate SeatsResolve(inventory: Inventory, o: Order) {
    ResolveSeatInventoryIds(GetSeatsDetailsBatch(inventory.seats, o.dto.schedule, o.dto.seatIds), o.dto.seatIds).Some?
  }

  /** The seats resolve, and booking and event are new. */
  ghost predicate CanPlace(inventory: Inventory, l: Ledger, o: Order) {
    && SeatsResolve(inventory, o)
    && EndToEnd.Allowed(l.system, EndToEnd.Create(RequestOf(inventory, o)))
  }

  /** The write of this transaction is possible and hits the row that was read. */
  ghost predicate Moves(s: EndToEnd.System, t: Id) {
    && t in s.bookings.txs
    && Bookings.Allowed(s.bookings, Bookings.Write(t))
    && Bookings.Wins(s.bookings, s.bookings.txs[t])
  }

  /** The transaction is the handling of this SeatsHeld reply. */
  ghost predicate TakesReply(s: EndToEnd.System, t: Id, k: nat) {
    && Moves(s, t) && s.bookings.txs[t].kind.AcceptHeld?
    && k < |s.seats.replies|
    && s.seats.replies[k].SeatsHeld?
    && s.seats.replies[k].hold.booking == s.bookings.txs[t].booking
  }

  ghost predicate IsAcceptance(s: EndToEnd.System, a: EndToEnd.Action) {
    a.OnBookings? && a.move.Write? && Moves(s, a.move.tx) && s.bookings.txs[a.move.tx].kind.AcceptHeld?
  }

  ghost function BooksAfter(l: Ledger, a: EndToEnd.Action): map<Id, Service.Booking> {
    if a.OnBookings? && a.move.Write? && Moves(l.system, a.move.tx)
       && l.system.bookings.txs[a.move.tx].booking in l.books
    then
      var tx := l.system.bookings.txs[a.move.tx];
      l.books[tx.booking := Service.Next(l.books[tx.booking], tx.kind, None)]
    else l.books
  }

  /** A move that is not possible changes nothing, so every list of moves is a run. */
  ghost function Step(inventory: Inventory, l: Ledger, m: Move): Ledger {
    match m
    case Place(o) =>
      if !CanPlace(inventory, l, o) then l
      else
        Ledger(EndToEnd.Step(inventory, l.system, EndToEnd.Create(RequestOf(inventory, o))),
               l.books[o.booking := Service.Created(o.user, o.dto)], l.orders[o.booking := o])
    case Accept(t, k) =>
      if !TakesReply(l.system, t, k) || l.system.bookings.txs[t].booking !in l.books then l
      else
        var b, reply := l.system.bookings.txs[t].booking, l.system.seats.replies[k];
        Ledger(EndToEnd.Step(inventory, l.system, EndToEnd.OnBookings(Bookings.Write(t))),
               l.books[b := Saga.Accepted(l.books[b], Saga.ReplyOf(reply.hold, k, reply.holdExpiresAt))], l.orders)
    case Other(a) =>
      if a.Create? || IsAcceptance(l.system, a) then l
      else Ledger(EndToEnd.Step(inventory, l.system, a), BooksAfter(l, a), l.orders)
  }

  ghost function Run(inventory: Inventory, moves: seq<Move>): Ledger {
    if moves == [] then Init
    else Step(inventory, Run(inventory, moves[..|moves| - 1]), moves[|moves| - 1])
  }

  // ---- The invariant ----

  /** The booking is charged what its hold costs. */
  ghost predicate ChargedInFull(inventory: Inventory, book: Service.Booking, request: HoldRequest) {
    && Service.Conserved(book) && Resolve(inventory, request).Some?
    && var prices := Resolve(inventory, request).value.Prices();
       book.totalPrice == RupeeTotal(prices) && Sum(Service.Prices(book.seats)) == Sum(prices)
  }

  ghost predicate SeatsHeldAs(inventory: Inventory, book: Service.Booking, order: Order, request: HoldRequest) {
    && Resolve(inventory, request).Some?
    && Saga.SeatsAsHeld(book.seats, order.dto.seatIds, Resolve(inventory, request).value.lines)
  }

  /** A book, given its row, its order and its hold request. */
  ghost predicate BookOk(inventory: Inventory, book: Service.Booking, row: Row, order: Order, request: HoldRequest) {
    && book.row == row && request == RequestOf(inventory, order) && SeatsResolve(inventory, order)
    && (row.status == PENDING ==> book == Service.Created(order.user, order.dto))
    && (EndToEnd.Accepted(row.status) ==> book.lockExpiresAt.Some?)
    && (book.lockExpiresAt.Some? ==>
          ChargedInFull(inventory, book, request) && SeatsHeldAs(inventory, book, order, request))
  }

  ghost predicate BookTrue(inventory: Inventory, l: Ledger, b: Id) {
    && b in l.books && b in l.orders && b in l.system.bookings.rows && b in l.system.requests
    && BookOk(inventory, l.books[b], l.system.bookings.rows[b], l.orders[b], l.system.requests[b])
  }

  ghost predicate BooksTrue(inventory: Inventory, l: Ledger) {
    && l.books.Keys == l.system.bookings.rows.Keys
    && (forall b :: b in l.books ==> BookTrue(inventory, l, b))
  }

  // ---- The hold a reply speaks of ----

  lemma {:induction false} HeldIsCommitted(replies: seq<Seats.Reply>, k: nat) returns (j: nat)
    requires k < |replies| && replies[k].SeatsHeld?
    ensures j < |HoldRuns.Committed(replies)| && HoldRuns.Committed(replies)[j] == replies[k].hold
  {
    var n := |replies| - 1;
    if k == n {
      j := |HoldRuns.Committed(replies[..n])|;
    } else {
      j := HeldIsCommitted(replies[..n], k);
    }
  }

  /** Every SeatsHeld reply of a booking carries the hold that its own request resolves to. */
  lemma ReplyIsOwnHold(inventory: Inventory, s: EndToEnd.System, k: nat)
    requires EndToEnd.Invariant(inventory, s) && k < |s.seats.replies| && s.seats.replies[k].SeatsHeld?
    ensures var hold := s.seats.replies[k].hold;
            hold.booking in s.requests && Resolve(inventory, s.requests[hold.booking]) == Some(hold)
  {
    var j := HeldIsCommitted(s.seats.replies, k);
    var hold := HoldRuns.Committed(s.seats.replies)[j];
    assert Resolve(inventory, s.seats.requests[hold.event]) == Some(hold);
  }

  /** Accepting a reply of the booking's own hold charges it in full. */
  lemma AcceptanceCharges(inventory: Inventory, o: Order, hold: Hold, reply: Id, expiresAt: int)
    requires UniqueSeats(inventory.seats) && UniqueSeatIds(inventory.seats)
    requires SeatsResolve(inventory, o)
    requires Resolve(inventory, RequestOf(inventory, o)) == Some(hold)
    ensures ChargedInFull(inventory,
                          Saga.Accepted(Service.Created(o.user, o.dto), Saga.ReplyOf(hold, reply, expiresAt)),
                          RequestOf(inventory, o))
    ensures SeatsHeldAs(inventory,
                        Saga.Accepted(Service.Created(o.user, o.dto), Saga.ReplyOf(hold, reply, expiresAt)), o,
                        RequestOf(inventory, o))
  {
    Saga.HoldIsChargedInFull(o.user, o.dto, inventory, o.booking, o.event, o.ttlMs, reply, expiresAt);
    Saga.ChargedIsHoldPrices(hold, reply, expiresAt);
  }

  lemma AcceptedBookOk(inventory: Inventory, book: Service.Booking, row: Row, o: Order, request: HoldRequest,
                       hold: Hold, reply: Id, expiresAt: int)
    requires UniqueSeats(inventory.seats) && UniqueSeatIds(inventory.seats)
    requires BookOk(inventory, book, row, o, request) && row.status == PENDING
    requires Resolve(inventory, request) == Some(hold)
    ensures BookOk(inventory, Saga.Accepted(book, Saga.ReplyOf(hold, reply, expiresAt)),
                   Row(SEATS_HELD, row.version + 1), o, request)
  {
    AcceptanceCharges(inventory, o, hold, reply, expiresAt);
  }

  /** A later transition leaves prices, total and hold expiry as they are. */
  lemma MovedBookOk(inventory: Inventory, book: Service.Booking, row: Row, o: Order, request: HoldRequest,
                    kind: Transition)
    requires BookOk(inventory, book, row, o, request) && row.status in kind.From() && !kind.AcceptHeld?
    ensures BookOk(inventory, Service.Next(book, kind, None), Row(kind.Target(), row.version + 1), o, request)
  {
    var moved := Service.Next(book, kind, None);
    SameMoney(inventory, book, moved, request);
    AcceptedBefore(kind, row.status);
  }

  lemma SameMoney(inventory: Inventory, book: Service.Booking, moved: Service.Booking, request: HoldRequest)
    requires moved.seats == book.seats && moved.totalPrice == book.totalPrice
    ensures ChargedInFull(inventory, moved, request) <==> ChargedInFull(inventory, book, request)
  {
  }

  /** Only the acceptance itself leads to a status after acceptance from one before it, and none leads to PENDING. */
  lemma AcceptedBefore(kind: Transition, status: BookingStatus)
    requires status in kind.From() && !kind.AcceptHeld?
    ensures EndToEnd.Accepted(kind.Target()) ==> EndToEnd.Accepted(status)
    ensures kind.Target() != PENDING
  {
  }

  // ---- Each kind of move ----

  /** Nothing that the books speak of has changed. */
  lemma QuietKeepsBooks(inventory: Inventory, l: Ledger, l': Ledger)
    requires BooksTrue(inventory, l) && l'.books == l.books && l'.orders == l.orders
    requires l'.system.bookings.rows == l.system.bookings.rows && l'.system.requests == l.system.requests
    ensures BooksTrue(inventory, l')
  {
    forall b | b in l'.books ensures BookTrue(inventory, l', b) {
      assert BookTrue(inventory, l, b);
    }
  }

  /** One book changes with its row; the others stay. */
  lemma OneBookMoves(inventory: Inventory, l: Ledger, l': Ledger, b: Id, book: Service.Booking, row: Row)
    requires BooksTrue(inventory, l) && b in l.books && l'.orders == l.orders && l'.system.requests == l.system.requests
    requires l'.books == l.books[b := book] && l'.system.bookings.rows == l.system.bookings.rows[b := row]
    requires BookTrue(inventory, l, b) && BookOk(inventory, book, row, l.orders[b], l.system.requests[b])
    ensures BooksTrue(inventory, l')
  {
    forall c | c in l'.books ensures BookTrue(inventory, l', c) {
      assert BookTrue(inventory, l, c);
    }
  }

  /** A winning write moves the row of its booking by one transition. */
  lemma WriteMovesRow(inventory: Inventory, s: EndToEnd.System, t: Id)
    requires EndToEnd.Invariant(inventory, s) && Moves(s, t)
    ensures var s', tx := EndToEnd.Step(inventory, s, EndToEnd.OnBookings(Bookings.Write(t))), s.bookings.txs[t];
            && tx.booking in s.bookings.rows && s.bookings.rows[tx.booking].status in tx.kind.From()
            && s'.bookings.rows
               == s.bookings.rows[tx.booking := Row(tx.kind.Target(), s.bookings.rows[tx.booking].version + 1)]
            && s'.requests == s.requests
  {
    Bookings.WinExtends(s.bookings, t);
  }

  /** A booking's row moves by one transition, and its book becomes this one. */
  ghost predicate AfterWrite(l: Ledger, l': Ledger, b: Id, kind: Transition, book: Service.Booking) {
    && b in l.books && b in l.system.bookings.rows && l.system.bookings.rows[b].status in kind.From()
    && l'.orders == l.orders && l'.system.requests == l.system.requests && l'.books == l.books[b := book]
    && l'.system.bookings.rows
       == l.system.bookings.rows[b := Row(kind.Target(), l.system.bookings.rows[b].version + 1)]
  }

  lemma AcceptUnfolds(inventory: Inventory, l: Ledger, t: Id, k: nat)
    requires TakesReply(l.system, t, k) && l.system.bookings.txs[t].booking in l.books
    ensures var b, reply := l.system.bookings.txs[t].booking, l.system.seats.replies[k];
            Step(inventory, l, Accept(t, k))
            == Ledger(EndToEnd.Step(inventory, l.system, EndToEnd.OnBookings(Bookings.Write(t))),
                      l.books[b := Saga.Accepted(l.books[b], Saga.ReplyOf(reply.hold, k, reply.holdExpiresAt))],
                      l.orders)
  {
  }

  lemma WriteUnfolds(inventory: Inventory, l: Ledger, t: Id)
    requires Moves(l.system, t) && !l.system.bookings.txs[t].kind.AcceptHeld?
    requires l.system.bookings.txs[t].booking in l.books
    ensures var a, tx := EndToEnd.OnBookings(Bookings.Write(t)), l.system.bookings.txs[t];
            Step(inventory, l, Other(a))
            == Ledger(EndToEnd.Step(inventory, l.system, a),
                      l.books[tx.booking := Service.Next(l.books[tx.booking], tx.kind, None)], l.orders)
  {
  }

  /** The ledger moves with the row of its booking. */
  lemma ShapeFromRow(inventory: Inventory, l: Ledger, l': Ledger, t: Id, book: Service.Booking)
    requires EndToEnd.Invariant(inventory, l.system) && Moves(l.system, t)
    requires l.system.bookings.txs[t].booking in l.books && l'.orders == l.orders
    requires l'.books == l.books[l.system.bookings.txs[t].booking := book]
    requires l'.system == EndToEnd.Step(inventory, l.system, EndToEnd.OnBookings(Bookings.Write(t)))
    ensures AfterWrite(l, l', l.system.bookings.txs[t].booking, l.system.bookings.txs[t].kind, book)
  {
    WriteMovesRow(inventory, l.system, t);
  }

  /** The transaction's booking has a row, so it has a book. */
  lemma MoverHasBook(inventory: Inventory, l: Ledger, t: Id)
    requires EndToEnd.Invariant(inventory, l.system) && Moves(l.system, t)
    requires l.books.Keys == l.system.bookings.rows.Keys
    ensures l.system.bookings.txs[t].booking in l.books
  {
    WriteMovesRow(inventory, l.system, t);
  }

  lemma AcceptKeepsBooks(inventory: Inventory, l: Ledger, l': Ledger, b: Id, k: nat)
    requires UniqueSeats(inventory.seats) && UniqueSeatIds(inventory.seats)
    requires EndToEnd.Invariant(inventory, l.system) && BooksTrue(inventory, l) && b in l.books
    requires k < |l.system.seats.replies| && l.system.seats.replies[k].SeatsHeld?
    requires var reply := l.system.seats.replies[k];
             reply.hold.booking == b
             && AfterWrite(l, l', b, AcceptHeld,
                           Saga.Accepted(l.books[b], Saga.ReplyOf(reply.hold, k, reply.holdExpiresAt)))
    ensures BooksTrue(inventory, l')
  {
    var reply := l.system.seats.replies[k];
    assert BookTrue(inventory, l, b);
    ReplyIsOwnHold(inventory, l.system, k);
    var book, row := l.books[b], l.system.bookings.rows[b];
    AcceptedBookOk(inventory, book, row, l.orders[b], l.system.requests[b], reply.hold, k, reply.holdExpiresAt);
    OneBookMoves(inventory, l, l', b, l'.books[b], Row(SEATS_HELD, row.version + 1));
  }

  lemma WriteKeepsBooks(inventory: Inventory, l: Ledger, l': Ledger, b: Id, kind: Transition)
    requires BooksTrue(inventory, l) && b in l.books && !kind.AcceptHeld?
    requires AfterWrite(l, l', b, kind, Service.Next(l.books[b], kind, None))
    ensures BooksTrue(inventory, l')
  {
    assert BookTrue(inventory, l, b);
    var book, row := l.books[b], l.system.bookings.rows[b];
    MovedBookOk(inventory, book, row, l.orders[b], l.system.requests[b], kind);
    OneBookMoves(inventory, l, l', b, l'.books[b], Row(kind.Target(), row.version + 1));
  }

  ghost predicate AfterPlace(inventory: Inventory, l: Ledger, l': Ledger, o: Order) {
    && l'.books == l.books[o.booking := Service.Created(o.user, o.dto)] && l'.orders == l.orders[o.booking := o]
    && l'.system.bookings.rows == l.system.bookings.rows[o.booking := Row(PENDING, 1)]
    && l'.system.requests == l.system.requests[o.booking := RequestOf(inventory, o)]
  }

  lemma PlaceShape(inventory: Inventory, l: Ledger, o: Order)
    requires CanPlace(inventory, l, o)
    ensures AfterPlace(inventory, l, Step(inventory, l, Place(o)), o)
  {
  }

  lemma PlaceKeepsBooks(inventory: Inventory, l: Ledger, l': Ledger, o: Order)
    requires BooksTrue(inventory, l) && SeatsResolve(inventory, o) && AfterPlace(inventory, l, l', o)
    ensures BooksTrue(inventory, l')
  {
    forall b | b in l'.books ensures BookTrue(inventory, l', b) {
      assert b != o.booking ==> BookTrue(inventory, l, b);
    }
  }

  /** Every other step of booking-service leaves the rows alone. */
  lemma OtherMoveIsQuiet(s: Bookings.State, move: Bookings.Action)
    requires Bookings.Invariant(s) && !move.Create?
    requires !(move.Write? && move.tx in s.txs && Bookings.Allowed(s, move) && Bookings.Wins(s, s.txs[move.tx]))
    ensures Bookings.Step(s, move).rows == s.rows
  {
  }

  lemma OtherStepIsQuiet(inventory: Inventory, s: EndToEnd.System, a: EndToEnd.Action)
    requires EndToEnd.Invariant(inventory, s) && !a.Create?
    requires !(a.OnBookings? && a.move.Write? && Moves(s, a.move.tx))
    ensures var s' := EndToEnd.Step(inventory, s, a);
            s'.bookings.rows == s.bookings.rows && s'.requests == s.requests
  {
    if a.OnBookings? && !a.move.Create? {
      OtherMoveIsQuiet(s.bookings, a.move);
    }
  }

  lemma PlaceStep(inventory: Inventory, l: Ledger, o: Order)
    requires UniqueSeats(inventory.seats) && EndToEnd.Invariant(inventory, l.system) && BooksTrue(inventory, l)
    ensures EndToEnd.Invariant(inventory, Step(inventory, l, Place(o)).system)
    ensures BooksTrue(inventory, Step(inventory, l, Place(o)))
  {
    if CanPlace(inventory, l, o) {
      EndToEnd.StepKeepsInvariant(inventory, l.system, EndToEnd.Create(RequestOf(inventory, o)));
      PlaceShape(inventory, l, o);
      PlaceKeepsBooks(inventory, l, Step(inventory, l, Place(o)), o);
    }
  }

  lemma AcceptStep(inventory: Inventory, l: Ledger, t: Id, k: nat)
    requires UniqueSeats(inventory.seats) && UniqueSeatIds(inventory.seats)
    requires EndToEnd.Invariant(inventory, l.system) && BooksTrue(inventory, l)
    ensures EndToEnd.Invariant(inventory, Step(inventory, l, Accept(t, k)).system)
    ensures BooksTrue(inventory, Step(inventory, l, Accept(t, k)))
  {
    if TakesReply(l.system, t, k) {
      var b, reply := l.system.bookings.txs[t].booking, l.system.seats.replies[k];
      var l' := Step(inventory, l, Accept(t, k));
      MoverHasBook(inventory, l, t);
      AcceptUnfolds(inventory, l, t, k);
      EndToEnd.StepKeepsInvariant(inventory, l.system, EndToEnd.OnBookings(Bookings.Write(t)));
      ShapeFromRow(inventory, l, l', t, Saga.Accepted(l.books[b], Saga.ReplyOf(reply.hold, k, reply.holdExpiresAt)));
      AcceptKeepsBooks(inventory, l, l', b, k);
    }
  }

  lemma WriteStep(inventory: Inventory, l: Ledger, t: Id)
    requires UniqueSeats(inventory.seats) && EndToEnd.Invariant(inventory, l.system) && BooksTrue(inventory, l)
    requires Moves(l.system, t) && !l.system.bookings.txs[t].kind.AcceptHeld?
    ensures var l' := Step(inventory, l, Other(EndToEnd.OnBookings(Bookings.Write(t))));
            EndToEnd.Invariant(inventory, l'.system) && BooksTrue(inventory, l')
  {
    var tx, l' := l.system.bookings.txs[t], Step(inventory, l, Other(EndToEnd.OnBookings(Bookings.Write(t))));
    MoverHasBook(inventory, l, t);
    WriteUnfolds(inventory, l, t);
    EndToEnd.StepKeepsInvariant(inventory, l.system, EndToEnd.OnBookings(Bookings.Write(t)));
    ShapeFromRow(inventory, l, l', t, Service.Next(l.books[tx.booking], tx.kind, None));
    WriteKeepsBooks(inventory, l, l', tx.booking, tx.kind);
  }

  lemma StepKeepsBooks(inventory: Inventory, l: Ledger, m: Move)
    requires UniqueSeats(inventory.seats) && UniqueSeatIds(inventory.seats)
    requires EndToEnd.Invariant(inventory, l.system) && BooksTrue(inventory, l)
    ensures EndToEnd.Invariant(inventory, Step(inventory, l, m).system) && BooksTrue(inventory, Step(inventory, l, m))
  {
    match m
    case Place(o) => PlaceStep(inventory, l, o);
    case Accept(t, k) => AcceptStep(inventory, l, t, k);
    case Other(a) =>
      if !a.Create? && !IsAcceptance(l.system, a) {
        if a.OnBookings? && a.move.Write? && Moves(l.system, a.move.tx) {
          WriteStep(inventory, l, a.move.tx);
        } else {
          EndToEnd.StepKeepsInvariant(inventory, l.system, a);
          OtherStepIsQuiet(inventory, l.system, a);
          QuietKeepsBooks(inventory, l, Step(inventory, l, m));
        }
      }
  }

  lemma {:induction false} RunsKeepBooks(inventory: Inventory, moves: seq<Move>)
    requires UniqueSeats(inventory.seats) && UniqueSeatIds(inventory.seats)
    ensures EndToEnd.Invariant(inventory, Run(inventory, moves).system) && BooksTrue(inventory, Run(inventory, moves))
  {
    if moves == [] {
      EndToEnd.RunsKeepInvariant(inventory, []);
    } else {
      RunsKeepBooks(inventory, moves[..|moves| - 1]);
      StepKeepsBooks(inventory, Run(inventory, moves[..|moves| - 1]), moves[|moves| - 1]);
    }
  }

  /**
   * In every run a booking that has accepted its hold carries the hold's inventory rows and prices seat by seat: its
   * total is their sum, and so is the amount that payment-service is asked for.
   */
  lemma TotalsInEveryRun(inventory: Inventory, moves: seq<Move>, b: Id)
    requires UniqueSeats(inventory.seats) && UniqueSeatIds(inventory.seats)
    requires var l := Run(inventory, moves);
             b in l.books && (l.books[b].lockExpiresAt.Some? || EndToEnd.Accepted(l.books[b].row.status))
    ensures var l := Run(inventory, moves);
            && b in l.system.requests && Resolve(inventory, l.system.requests[b]).Some?
            && var prices, lines := Resolve(inventory, l.system.requests[b]).value.Prices(),
                                    Resolve(inventory, l.system.requests[b]).value.lines;
               && b in l.orders && Saga.SeatsAsHeld(l.books[b].seats, l.orders[b].dto.seatIds, lines)
               && l.books[b].totalPrice == RupeeTotal(prices)
               && Sum(Service.Prices(l.books[b].seats)) == Sum(prices)
               && RoundTimes100(l.books[b].totalPrice) == Sum(prices)
  {
    RunsKeepBooks(inventory, moves);
    var l := Run(inventory, moves);
    assert BookTrue(inventory, l, b);
    PaymentAmountIsSeatSum(Resolve(inventory, l.system.requests[b]).value.Prices());
  }
}
