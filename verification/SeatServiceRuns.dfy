/**
 * The transactions of the inventory service run alone are runs of the interleaved machine, so whatever holds of
 * every run of the machine holds after every call of the service.
 */
module SeatServiceRuns {
  import opened Prelude
  import opened Inventory
  import opened Allocations
  import opened SeatTransactions
  import opened AuditTrail

  function RunFrom(inventory: Inventory, s: State, actions: seq<Action>): State {
    if actions == [] then s
    else Step(inventory, RunFrom(inventory, s, actions[..|actions| - 1]), actions[|actions| - 1])
  }

  lemma {:induction false} RunsJoin(inventory: Inventory, actions: seq<Action>, more: seq<Action>)
    ensures Run(inventory, actions + more) == RunFrom(inventory, Run(inventory, actions), more)
  {
    if more == [] {
      assert actions + more == actions;
    } else {
      var init := more[..|more| - 1];
      assert (actions + more)[..|actions + more| - 1] == actions + init;
      RunsJoin(inventory, actions, init);
    }
  }

  lemma RunFromAppends(inventory: Inventory, s: State, actions: seq<Action>, a: Action)
    ensures RunFrom(inventory, s, actions + [a]) == Step(inventory, RunFrom(inventory, s, actions), a)
  {
    assert (actions + [a])[..|actions|] == actions;
  }

  /** The machine shows these tables; it keeps no history rows. */
  ghost predicate Shows(s: State, t: Tables) {
    s.allocs == t.allocs && s.keys == t.keys && s.replies == t.replies
  }

  // ---- One transaction at a time ----

  /** The only transaction never waits. */
  lemma AdvanceAlone(inventory: Inventory, s: State, tx: Tx)
    requires s.txs == map[0 := tx]
    ensures Step(inventory, s, Advance(0)) == AdvanceTx(s, 0)
  {
    assert !Waits(s, 0);
  }

  /** The state with one open transaction. */
  ghost predicate Alone(s: State, s': State, tx: Tx) {
    s' == s.(txs := map[0 := tx])
  }

  lemma {:induction false} LocksRows(inventory: Inventory, s: State, s0: State, actions: seq<Action>, hold: Hold,
                                     expiresAt: int, order: seq<Id>, n: nat) returns (longer: seq<Action>)
    requires Alone(s, RunFrom(inventory, s0, actions), HoldTx(hold, expiresAt, order, Locking(n))) && n <= |order|
    ensures Alone(s, RunFrom(inventory, s0, longer), HoldTx(hold, expiresAt, order, Locking(|order|)))
    decreases |order| - n
  {
    longer := actions;
    if n < |order| {
      var s1 := RunFrom(inventory, s0, actions);
      AdvanceAlone(inventory, s1, HoldTx(hold, expiresAt, order, Locking(n)));
      RunFromAppends(inventory, s0, actions, Advance(0));
      longer := LocksRows(inventory, s, s0, actions + [Advance(0)], hold, expiresAt, order, n + 1);
    }
  }

  /** The overlap statement, after the last row lock. */
  lemma AsksOverlap(inventory: Inventory, s: State, s0: State, actions: seq<Action>, hold: Hold, expiresAt: int,
                    order: seq<Id>) returns (longer: seq<Action>)
    requires Alone(s, RunFrom(inventory, s0, actions), HoldTx(hold, expiresAt, order, Locking(|order|)))
    ensures var pc := if HasOverlappingAllocation(s.allocs, hold.schedule, hold.Seats(), hold.from, hold.to)
                      then Refused(SEGMENT_CONFLICT) else Inserting;
            Alone(s, RunFrom(inventory, s0, longer), HoldTx(hold, expiresAt, order, pc))
  {
    OverlapIgnoresOrder(s.allocs, hold);
    AdvanceAlone(inventory, RunFrom(inventory, s0, actions), HoldTx(hold, expiresAt, order, Locking(|order|)));
    RunFromAppends(inventory, s0, actions, Advance(0));
    longer := actions + [Advance(0)];
  }

  lemma RefusesHold(inventory: Inventory, s: State, s0: State, actions: seq<Action>, hold: Hold, expiresAt: int,
                    order: seq<Id>, reason: Reason) returns (longer: seq<Action>)
    requires s.txs == map[]
    requires Alone(s, RunFrom(inventory, s0, actions), HoldTx(hold, expiresAt, order, Refused(reason)))
    ensures RunFrom(inventory, s0, longer)
            == s.(replies := s.replies + [SeatsHoldFailed(hold.event, hold.booking, reason)])
  {
    AdvanceAlone(inventory, RunFrom(inventory, s0, actions), HoldTx(hold, expiresAt, order, Refused(reason)));
    RunFromAppends(inventory, s0, actions, Advance(0));
    longer := actions + [Advance(0)];
  }

  /** The insert of a hold that nothing overlaps, and its refusal if the booking has a row already. */
  lemma InsertsHold(inventory: Inventory, s: State, s0: State, actions: seq<Action>, hold: Hold, expiresAt: int,
                    order: seq<Id>, t: Tables) returns (longer: seq<Action>)
    requires s.txs == map[] && Shows(s, t) && HoldKey(hold.event) !in s.keys
    requires !HasOverlappingAllocation(s.allocs, hold.schedule, hold.Seats(), hold.from, hold.to)
    requires Alone(s, RunFrom(inventory, s0, actions), HoldTx(hold, expiresAt, order, Inserting))
    ensures var s' := RunFrom(inventory, s0, longer);
            s'.txs == map[] && s'.requests == s.requests && Shows(s', HoldDelivered(t, hold, expiresAt))
  {
    AdvanceAlone(inventory, RunFrom(inventory, s0, actions), HoldTx(hold, expiresAt, order, Inserting));
    RunFromAppends(inventory, s0, actions, Advance(0));
    longer := actions + [Advance(0)];
    if HasRowFor(s.allocs, hold.booking, hold.Seats()) {
      longer := RefusesHold(inventory, s, s0, longer, hold, expiresAt, order, INTERNAL_ERROR);
    }
  }

  /** From the last row lock to the end. */
  lemma FinishesHold(inventory: Inventory, s: State, s0: State, actions: seq<Action>, hold: Hold, expiresAt: int,
                     order: seq<Id>, t: Tables) returns (longer: seq<Action>)
    requires s.txs == map[] && Shows(s, t) && HoldKey(hold.event) !in s.keys
    requires Alone(s, RunFrom(inventory, s0, actions), HoldTx(hold, expiresAt, order, Locking(|order|)))
    ensures var s' := RunFrom(inventory, s0, longer);
            s'.txs == map[] && s'.requests == s.requests && Shows(s', HoldDelivered(t, hold, expiresAt))
  {
    longer := AsksOverlap(inventory, s, s0, actions, hold, expiresAt, order);
    if HasOverlappingAllocation(s.allocs, hold.schedule, hold.Seats(), hold.from, hold.to) {
      longer := RefusesHold(inventory, s, s0, longer, hold, expiresAt, order, SEGMENT_CONFLICT);
    } else {
      longer := InsertsHold(inventory, s, s0, longer, hold, expiresAt, order, t);
    }
  }

  lemma BeginsHold(inventory: Inventory, s: State, hold: Hold, expiresAt: int, order: seq<Id>)
    returns (actions: seq<Action>)
    requires s.txs == map[] && Scans(hold, order)
    requires hold.event in s.requests && Resolve(inventory, s.requests[hold.event]) == Some(hold)
    ensures Alone(s, RunFrom(inventory, s, actions), HoldTx(hold, expiresAt, order, Checking))
  {
    actions := [BeginHold(0, hold.event, expiresAt, order)];
    assert actions == [] + actions;
    RunFromAppends(inventory, s, [], actions[0]);
    assert Allowed(inventory, s, actions[0]);
  }

  /** The begin and the check of the event key. */
  lemma ChecksKey(inventory: Inventory, s: State, hold: Hold, expiresAt: int, order: seq<Id>)
    returns (actions: seq<Action>)
    requires s.txs == map[] && Scans(hold, order)
    requires hold.event in s.requests && Resolve(inventory, s.requests[hold.event]) == Some(hold)
    ensures if HoldKey(hold.event) in s.keys then RunFrom(inventory, s, actions) == s
            else Alone(s, RunFrom(inventory, s, actions), HoldTx(hold, expiresAt, order, Locking(0)))
  {
    var begin := BeginsHold(inventory, s, hold, expiresAt, order);
    AdvanceAlone(inventory, RunFrom(inventory, s, begin), HoldTx(hold, expiresAt, order, Checking));
    RunFromAppends(inventory, s, begin, Advance(0));
    actions := begin + [Advance(0)];
  }

  /**
   * A hold transaction of the service is a run of the machine in which nothing else happens, whatever order the
   * database scans the seats in.
   */
  lemma UndisturbedHold(inventory: Inventory, s: State, t: Tables, hold: Hold, expiresAt: int, order: seq<Id>)
    returns (actions: seq<Action>)
    requires s.txs == map[] && Shows(s, t) && Scans(hold, order)
    requires hold.event in s.requests && Resolve(inventory, s.requests[hold.event]) == Some(hold)
    ensures var s' := RunFrom(inventory, s, actions);
            s'.txs == map[] && s'.requests == s.requests && Shows(s', HoldDelivered(t, hold, expiresAt))
  {
    actions := ChecksKey(inventory, s, hold, expiresAt, order);
    if HoldKey(hold.event) !in s.keys {
      actions := LocksRows(inventory, s, s, actions, hold, expiresAt, order, 0);
      actions := FinishesHold(inventory, s, s, actions, hold, expiresAt, order, t);
    }
  }

  // ---- Confirm and cancel ----

  lemma WritesChange(inventory: Inventory, s: State, s0: State, actions: seq<Action>, change: Change, event: Id,
                     booking: Id, t: Tables) returns (longer: seq<Action>)
    requires s.txs == map[] && Shows(s, t) && change.Key(event) !in s.keys
    requires Alone(s, RunFrom(inventory, s0, actions),
                   StatusTx(change, event, booking, Writing(MatchingRows(s.allocs, booking, change.From()))))
    ensures var s' := RunFrom(inventory, s0, longer);
            s'.txs == map[] && s'.requests == s.requests && Shows(s', ChangeOnce(t, change, event, booking))
  {
    var tx := StatusTx(change, event, booking, Writing(MatchingRows(s.allocs, booking, change.From())));
    AdvanceAlone(inventory, RunFrom(inventory, s0, actions), tx);
    RunFromAppends(inventory, s0, actions, Advance(0));
    TargetsSetStatus(s.allocs, booking, change);
    longer := actions + [Advance(0)];
  }

  lemma ReadsRows(inventory: Inventory, s: State, s0: State, actions: seq<Action>, change: Change, event: Id,
                  booking: Id) returns (longer: seq<Action>)
    requires Alone(s, RunFrom(inventory, s0, actions), StatusTx(change, event, booking, Reading))
    ensures Alone(s, RunFrom(inventory, s0, longer),
                  StatusTx(change, event, booking, Writing(MatchingRows(s.allocs, booking, change.From()))))
  {
    AdvanceAlone(inventory, RunFrom(inventory, s0, actions), StatusTx(change, event, booking, Reading));
    RunFromAppends(inventory, s0, actions, Advance(0));
    longer := actions + [Advance(0)];
    if MatchingRows(s.allocs, booking, change.From()) != {} {
      AdvanceAlone(inventory, RunFrom(inventory, s0, longer), StatusTx(change, event, booking, Updating));
      RunFromAppends(inventory, s0, longer, Advance(0));
      longer := longer + [Advance(0)];
    }
  }

  /** A confirm or cancel transaction of the service is a run of the machine in which nothing else happens. */
  lemma UndisturbedChange(inventory: Inventory, s: State, t: Tables, change: Change, event: Id, booking: Id)
    returns (actions: seq<Action>)
    requires s.txs == map[] && Shows(s, t)
    ensures var s' := RunFrom(inventory, s, actions);
            s'.txs == map[] && s'.requests == s.requests && Shows(s', ChangeOnce(t, change, event, booking))
  {
    var begin := [BeginStatus(0, change, event, booking)];
    assert begin == [] + begin;
    RunFromAppends(inventory, s, [], begin[0]);
    var s1 := RunFrom(inventory, s, begin);
    assert Alone(s, s1, StatusTx(change, event, booking, Unchecked));
    AdvanceAlone(inventory, s1, StatusTx(change, event, booking, Unchecked));
    RunFromAppends(inventory, s, begin, Advance(0));
    actions := begin + [Advance(0)];
    if change.Key(event) !in s.keys {
      assert Alone(s, RunFrom(inventory, s, actions), StatusTx(change, event, booking, Reading));
      actions := ReadsRows(inventory, s, s, actions, change, event, booking);
      actions := WritesChange(inventory, s, s, actions, change, event, booking, t);
    }
  }

  // ---- Whole runs of the service ----

  /** The holds of the run answer published requests, each under its own event. */
  ghost predicate Published(inventory: Inventory, requests: map<Id, HoldRequest>, ops: seq<Op>) {
    forall i :: 0 <= i < |ops| && ops[i].HoldOp? ==>
      ops[i].hold.event in requests && Resolve(inventory, requests[ops[i].hold.event]) == Some(ops[i].hold)
  }

  function Deliver(t: Tables, op: Op): Tables {
    match op
    case HoldOp(hold, expiresAt) => HoldDelivered(t, hold, expiresAt)
    case ChangeOp(change, event, booking) => ChangeOnce(t, change, event, booking)
  }

  function DeliverAll(ops: seq<Op>): Tables {
    if ops == [] then Empty else Deliver(DeliverAll(ops[..|ops| - 1]), ops[|ops| - 1])
  }

  /** Any list of transactions, one after the other, is a run of the machine that ends with the same tables. */
  lemma {:induction false} ServiceRunIsARun(inventory: Inventory, start: seq<Action>, ops: seq<Op>)
    returns (actions: seq<Action>)
    requires var s := Run(inventory, start); s.txs == map[] && Shows(s, Empty)
    requires Published(inventory, Run(inventory, start).requests, ops)
    ensures var s' := Run(inventory, actions);
            s'.txs == map[] && s'.requests == Run(inventory, start).requests && Shows(s', DeliverAll(ops))
  {
    if ops == [] {
      actions := start;
    } else {
      var init, op := ops[..|ops| - 1], ops[|ops| - 1];
      assert forall i | 0 <= i < |init| :: init[i] == ops[i];
      var before := ServiceRunIsARun(inventory, start, init);
      var more;
      match op {
        case HoldOp(hold, expiresAt) =>
          more := UndisturbedHold(inventory, Run(inventory, before), DeliverAll(init), hold, expiresAt,
                                  SortedSeats(hold));
        case ChangeOp(change, event, booking) =>
          more := UndisturbedChange(inventory, Run(inventory, before), DeliverAll(init), change, event, booking);
      }
      RunsJoin(inventory, before, more);
      actions := before + more;
    }
  }

  /** So the tables after any calls of the service are safe, as those of every interleaved run are. */
  lemma ServiceIsSafe(inventory: Inventory, start: seq<Action>, ops: seq<Op>)
    requires UniqueSeats(inventory.seats)
    requires var s := Run(inventory, start); s.txs == map[] && Shows(s, Empty)
    requires Published(inventory, Run(inventory, start).requests, ops)
    ensures NoDoubleBooking(DeliverAll(ops).allocs)
  {
    var actions := ServiceRunIsARun(inventory, start, ops);
    NeverDoubleBooked(inventory, actions);
  }
}
