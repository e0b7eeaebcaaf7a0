/**
 * Runs of both services in which the callers of booking-service keep their order. A booking stranded between the two
 * transactions of its caller holds its seats for good.
 */
module StrandedSeats {
  import opened Prelude
  import opened Inventory
  import opened Allocations
  import opened BookingLifecycle
  import opened StuckBookings
  import Seats = SeatTransactions
  import Bookings = BookingRuns
  import HoldRuns
  import EndToEnd
  import opened Guarantees

  type System = EndToEnd.System

  ghost function Step(inventory: Inventory, s: System, a: EndToEnd.Action): System {
    if a.OnBookings? && EndToEnd.Allowed(s, a) then s.(bookings := CallerStep(s.bookings, a.move))
    else EndToEnd.Step(inventory, s, a)
  }

  ghost function Run(inventory: Inventory, actions: seq<EndToEnd.Action>): System {
    if actions == [] then EndToEnd.Init
    else Step(inventory, Run(inventory, actions[..|actions| - 1]), actions[|actions| - 1])
  }

  /** A step that hands over is two steps of the unrestricted runs. */
  lemma HandingOver(inventory: Inventory, s: System, a: EndToEnd.Action) returns (begin: EndToEnd.Action)
    requires a.OnBookings? && EndToEnd.Allowed(s, a) && HandsOver(s.bookings, a.move)
    ensures Step(inventory, s, a) == EndToEnd.Step(inventory, EndToEnd.Step(inventory, s, a), begin)
  {
    var tx := s.bookings.txs[a.move.tx];
    begin := EndToEnd.OnBookings(Bookings.Begin(a.move.tx, Second(tx.kind).value, tx.booking));
  }

  lemma OtherwiseTheSame(inventory: Inventory, s: System, a: EndToEnd.Action)
    requires !(a.OnBookings? && EndToEnd.Allowed(s, a) && HandsOver(s.bookings, a.move))
    ensures Step(inventory, s, a) == s || Step(inventory, s, a) == EndToEnd.Step(inventory, s, a)
  {
  }

  lemma StepKeepsInvariant(inventory: Inventory, s: System, a: EndToEnd.Action)
    requires EndToEnd.Invariant(inventory, s) && UniqueSeats(inventory.seats)
    ensures EndToEnd.Invariant(inventory, Step(inventory, s, a))
  {
    EndToEnd.StepKeepsInvariant(inventory, s, a);
    if a.OnBookings? && EndToEnd.Allowed(s, a) && HandsOver(s.bookings, a.move) {
      var begin := HandingOver(inventory, s, a);
      EndToEnd.StepKeepsInvariant(inventory, EndToEnd.Step(inventory, s, a), begin);
    } else {
      OtherwiseTheSame(inventory, s, a);
    }
  }

  lemma {:induction false} RunsKeepInvariant(inventory: Inventory, actions: seq<EndToEnd.Action>)
    requires UniqueSeats(inventory.seats)
    ensures EndToEnd.Invariant(inventory, Run(inventory, actions))
  {
    if actions != [] {
      RunsKeepInvariant(inventory, actions[..|actions| - 1]);
      StepKeepsInvariant(inventory, Run(inventory, actions[..|actions| - 1]), actions[|actions| - 1]);
    }
  }

  lemma BookingsOfRun(inventory: Inventory, actions: seq<EndToEnd.Action>)
    requires UniqueSeats(inventory.seats)
    ensures Bookings.Invariant(Run(inventory, actions).bookings)
  {
    RunsKeepInvariant(inventory, actions);
  }

  lemma RunContinues(inventory: Inventory, actions: seq<EndToEnd.Action>, a: EndToEnd.Action)
    ensures Run(inventory, actions + [a]) == Step(inventory, Run(inventory, actions), a)
  {
    assert (actions + [a])[..|actions|] == actions;
  }

  lemma BookingsGoOn(inventory: Inventory, s: System, move: Bookings.Action)
    requires EndToEnd.Allowed(s, EndToEnd.OnBookings(move))
    ensures Step(inventory, s, EndToEnd.OnBookings(move)) == s.(bookings := CallerStep(s.bookings, move))
  {
  }

  // ---- Stranded bookings ----

  ghost predicate Stranded(s: System, b: Id) {
    b in s.bookings.rows && Halfway(s.bookings.rows[b].status) && !UnderWay(s.bookings, b)
  }

  lemma StepKeepsStranded(inventory: Inventory, s: System, a: EndToEnd.Action, b: Id)
    requires Bookings.Invariant(s.bookings) && Stranded(s, b)
    ensures Stranded(Step(inventory, s, a), b)
    ensures Step(inventory, s, a).bookings.rows[b] == s.bookings.rows[b]
  {
    if EndToEnd.Allowed(s, a) {
      match a
      case Create(request) => StepKeepsStuck(s.bookings, Bookings.Create(request.booking), b);
      case OnSeats(_) =>
      case OnBookings(move) => StepKeepsStuck(s.bookings, move, b);
    }
  }

  /** Status, version and every seat are as they were. */
  ghost predicate KeepsSeats(inventory: Inventory, actions: seq<EndToEnd.Action>, more: seq<EndToEnd.Action>, b: Id) {
    var s, s' := Run(inventory, actions), Run(inventory, actions + more);
    && b in s.bookings.rows && b in s'.bookings.rows && s'.bookings.rows[b] == s.bookings.rows[b]
    && OwnsExactly(inventory, s', b)
  }

  lemma {:induction false} StrandedStays(inventory: Inventory, actions: seq<EndToEnd.Action>,
                                         more: seq<EndToEnd.Action>, b: Id)
    requires UniqueSeats(inventory.seats) && Stranded(Run(inventory, actions), b)
    ensures Stranded(Run(inventory, actions + more), b)
    ensures Run(inventory, actions + more).bookings.rows[b] == Run(inventory, actions).bookings.rows[b]
  {
    if more == [] {
      assert actions + more == actions;
    } else {
      var init, a := more[..|more| - 1], more[|more| - 1];
      StrandedStays(inventory, actions, init, b);
      BookingsOfRun(inventory, actions + init);
      StepKeepsStranded(inventory, Run(inventory, actions + init), a, b);
      RunContinues(inventory, actions + init, a);
      assert actions + more == actions + init + [a];
    }
  }

  lemma StrandedKeepsSeats(inventory: Inventory, actions: seq<EndToEnd.Action>, more: seq<EndToEnd.Action>, b: Id)
    requires UniqueSeats(inventory.seats) && Stranded(Run(inventory, actions), b)
    ensures KeepsSeats(inventory, actions, more, b)
  {
    StrandedStays(inventory, actions, more, b);
    RunsKeepInvariant(inventory, actions + more);
    LiveOwnsExactly(inventory, Run(inventory, actions + more), b);
  }

  /** The transaction of a caller that still holds it takes the booking on. */
  lemma CallerFinishes(inventory: Inventory, actions: seq<EndToEnd.Action>, b: Id)
    returns (more: seq<EndToEnd.Action>)
    requires UniqueSeats(inventory.seats)
    requires var s := Run(inventory, actions).bookings;
             b in s.rows && Halfway(s.rows[b].status) && UnderWay(s, b)
    ensures !KeepsSeats(inventory, actions, more, b)
  {
    var s := Run(inventory, actions).bookings;
    BookingsOfRun(inventory, actions);
    var t :| t in s.txs && s.txs[t].booking == b && s.rows[b].status in s.txs[t].kind.From() && IsSecond(s.txs[t].kind);
    var read, write := EndToEnd.OnBookings(Bookings.Read(t)), EndToEnd.OnBookings(Bookings.Write(t));
    assert Bookings.SeenInTrail(s.txs[t], s.trails);
    ReadThenWrite(s, t);
    RunContinues(inventory, actions, read);
    BookingsGoOn(inventory, Run(inventory, actions), Bookings.Read(t));
    RunContinues(inventory, actions + [read], write);
    BookingsGoOn(inventory, Run(inventory, actions + [read]), Bookings.Write(t));
    more := [read, write];
    assert actions + more == actions + [read] + [write];
  }

  /**
   * In every run of both services, a booking in CONFIRMING or CANCELLING keeps its status and each of its seats
   * through all continuations exactly when no caller is left that holds its second transaction.
   */
  lemma StrandedExactly(inventory: Inventory, actions: seq<EndToEnd.Action>, b: Id)
    requires UniqueSeats(inventory.seats)
    requires var s := Run(inventory, actions).bookings; b in s.rows && Halfway(s.rows[b].status)
    ensures (forall more :: KeepsSeats(inventory, actions, more, b))
            <==> !UnderWay(Run(inventory, actions).bookings, b)
  {
    if UnderWay(Run(inventory, actions).bookings, b) {
      var more := CallerFinishes(inventory, actions, b);
      assert !KeepsSeats(inventory, actions, more, b);
    } else {
      forall more ensures KeepsSeats(inventory, actions, more, b) {
        StrandedKeepsSeats(inventory, actions, more, b);
      }
    }
  }

  // ---- Such a booking ----

  lemma {:induction false} SameWithoutMoves(inventory: Inventory, actions: seq<EndToEnd.Action>)
    requires forall a :: a in actions ==> !a.OnBookings?
    ensures Run(inventory, actions) == EndToEnd.Run(inventory, actions)
  {
    if actions != [] {
      SameWithoutMoves(inventory, actions[..|actions| - 1]);
    }
  }

  /** The booking is created and its hold commits. */
  lemma CommittedFirst() returns (actions: seq<EndToEnd.Action>)
    ensures var s := Run(OneSeat, actions);
            && s.seats.allocs == Rows(OneHold, 1) && EndToEnd.Held(s.seats.replies, 3)
            && s.bookings.rows == map[3 := Row(PENDING, 1)] && s.bookings.txs == map[]
  {
    actions := HoldCommits();
    SameWithoutMoves(OneSeat, actions);
    OneReplyHolds();
  }

  lemma OneReplyHolds()
    ensures EndToEnd.Held([] + [Seats.SeatsHeld(OneHold, 1)], 3)
  {
    HoldRuns.CommittedAppends([], Seats.SeatsHeld(OneHold, 1));
    assert HoldRuns.Committed([] + [Seats.SeatsHeld(OneHold, 1)])[0] == OneHold;
  }

  /** One caller at a time: begin, read, write. */
  lemma OneCaller(actions: seq<EndToEnd.Action>, kind: Transition, b: Id) returns (longer: seq<EndToEnd.Action>)
    requires var s := Run(OneSeat, actions);
             && s.bookings.txs == map[] && b in s.bookings.rows && s.bookings.rows[b].status in kind.From()
             && EndToEnd.Held(s.seats.replies, b)
    requires !IsSecond(kind) && kind != RejectFailed
    ensures var s, s' := Run(OneSeat, actions), Run(OneSeat, longer);
            && s'.seats == s.seats && s'.requests == s.requests
            && s'.bookings.rows == s.bookings.rows[b := Row(kind.Target(), s.bookings.rows[b].version + 1)]
            && s'.bookings.txs == if Second(kind).Some?
                                  then map[0 := Bookings.Tx(Second(kind).value, b, None)] else map[]
  {
    var begin, read, write := EndToEnd.OnBookings(Bookings.Begin(0, kind, b)),
                              EndToEnd.OnBookings(Bookings.Read(0)), EndToEnd.OnBookings(Bookings.Write(0));
    UndisturbedSteps(Run(OneSeat, actions).bookings, kind, b);
    RunContinues(OneSeat, actions, begin);
    BookingsGoOn(OneSeat, Run(OneSeat, actions), Bookings.Begin(0, kind, b));
    RunContinues(OneSeat, actions + [begin], read);
    BookingsGoOn(OneSeat, Run(OneSeat, actions + [begin]), Bookings.Read(0));
    RunContinues(OneSeat, actions + [begin] + [read], write);
    BookingsGoOn(OneSeat, Run(OneSeat, actions + [begin] + [read]), Bookings.Write(0));
    longer := actions + [begin] + [read] + [write];
  }

  lemma ProcessDies(actions: seq<EndToEnd.Action>, tx: Bookings.Tx) returns (longer: seq<EndToEnd.Action>)
    requires Run(OneSeat, actions).bookings.txs == map[0 := tx]
    ensures var s := Run(OneSeat, actions); Run(OneSeat, longer) == s.(bookings := s.bookings.(txs := map[]))
  {
    var vanish := EndToEnd.OnBookings(Bookings.Vanish(0));
    VanishingEmpties(Run(OneSeat, actions).bookings, tx);
    RunContinues(OneSeat, actions, vanish);
    longer := actions + [vanish];
  }

  /** A cancellation that loses its second transaction never gives the seat back. */
  lemma CancellationCanStrand() returns (actions: seq<EndToEnd.Action>)
    ensures var s := Run(OneSeat, actions);
            && 3 in s.bookings.rows && s.bookings.rows[3] == Row(CANCELLING, 3)
            && s.seats.allocs == Rows(OneHold, 1) && s.seats.allocs[0].Active()
    ensures forall more :: KeepsSeats(OneSeat, actions, more, 3)
  {
    var committed := CommittedFirst();
    var held := OneCaller(committed, AcceptHeld, 3);
    var begun := OneCaller(held, StartCancelling, 3);
    actions := ProcessDies(begun, Bookings.Tx(FinishCancelling, 3, None));
    OneRequestResolves();
    StrandedExactly(OneSeat, actions, 3);
    assert Rows(OneHold, 1)[0].Active();
  }
}
