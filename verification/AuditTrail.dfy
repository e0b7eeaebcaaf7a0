/**
 * The three seat transactions run one at a time, with the history rows they write: the effect of handling
 * events in any order, and when the history of every allocation replays to its current status.
 */
module AuditTrail {
  import opened Prelude
  import opened Inventory
  import opened Allocations
  import opened SeatTransactions

  /** A row of seat_allocation_history; an allocation is named by its position in the table. */
  datatype History = History(allocation: nat, oldStatus: AllocationStatus, newStatus: AllocationStatus)

  datatype Tables = Tables(
    allocs: seq<Allocation>, history: seq<History>, keys: set<EventKey>, replies: seq<Reply>)

  /** One history row per row of the booking in the given statuses. */
  function ChangeLog(allocs: seq<Allocation>, booking: Id, statuses: set<AllocationStatus>, to: AllocationStatus)
    : seq<History>
  {
    if allocs == [] then []
    else
      var n := |allocs| - 1;
      ChangeLog(allocs[..n], booking, statuses, to)
      + (if Matches(allocs[n], booking, statuses) then [History(n, allocs[n].status, to)] else [])
  }

  /** A hold logs every row of its booking, whatever its status, as HELD to HELD. */
  function HoldLog(allocs: seq<Allocation>, booking: Id): seq<History> {
    if allocs == [] then []
    else
      var n := |allocs| - 1;
      HoldLog(allocs[..n], booking) + (if allocs[n].booking == booking then [History(n, HELD, HELD)] else [])
  }

  /** The hold transaction: nothing, or rows, history, key and reply together. */
  function HoldOnce(t: Tables, hold: Hold, expiresAt: int): Tables {
    if HoldKey(hold.event) in t.keys
       || HasOverlappingAllocation(t.allocs, hold.schedule, hold.Seats(), hold.from, hold.to)
       || HasRowFor(t.allocs, hold.booking, hold.Seats()) then t
    else
      var allocs := t.allocs + Rows(hold, expiresAt);
      Tables(allocs, t.history + HoldLog(allocs, hold.booking),
             t.keys + {HoldKey(hold.event)}, t.replies + [SeatsHeld(hold, expiresAt)])
  }

  /** What the transaction of a hold, run alone, leaves in the tables, its failure reply included. */
  function HoldDelivered(t: Tables, hold: Hold, expiresAt: int): Tables {
    if HoldKey(hold.event) in t.keys then t
    else if HasOverlappingAllocation(t.allocs, hold.schedule, hold.Seats(), hold.from, hold.to) then
      t.(replies := t.replies + [SeatsHoldFailed(hold.event, hold.booking, SEGMENT_CONFLICT)])
    else if HasRowFor(t.allocs, hold.booking, hold.Seats()) then
      t.(replies := t.replies + [SeatsHoldFailed(hold.event, hold.booking, INTERNAL_ERROR)])
    else HoldOnce(t, hold, expiresAt)
  }

  /** The confirm or cancel transaction: a recorded event is skipped, otherwise matching rows, history and key. */
  function ChangeOnce(t: Tables, change: Change, event: Id, booking: Id): Tables {
    if change.Key(event) in t.keys then t
    else
      t.(allocs := SetStatus(t.allocs, booking, change.From(), change.To()),
         history := t.history + ChangeLog(t.allocs, booking, change.From(), change.To()),
         keys := t.keys + {change.Key(event)})
  }

  // ---- Order and repetition do not matter ----

  /** Handling an event again changes nothing at all. */
  lemma ChangeIsIdempotent(t: Tables, change: Change, event: Id, booking: Id)
    ensures var once := ChangeOnce(t, change, event, booking); ChangeOnce(once, change, event, booking) == once
  {
  }

  /** A confirm and a cancel of one booking leave the same rows in either order. */
  lemma ChangesCommute(t: Tables, e1: Id, e2: Id, booking: Id)
    ensures ChangeOnce(ChangeOnce(t, Confirm, e1, booking), Cancel, e2, booking).allocs
            == ChangeOnce(ChangeOnce(t, Cancel, e2, booking), Confirm, e1, booking).allocs
  {
    var ab := ChangeOnce(ChangeOnce(t, Confirm, e1, booking), Cancel, e2, booking).allocs;
    var ba := ChangeOnce(ChangeOnce(t, Cancel, e2, booking), Confirm, e1, booking).allocs;
    assert forall i | 0 <= i < |t.allocs| :: ab[i] == ba[i];
  }

  datatype Delivery = Delivery(change: Change, event: Id)

  function HandleAll(t: Tables, booking: Id, deliveries: seq<Delivery>): Tables {
    if deliveries == [] then t
    else
      var d := deliveries[|deliveries| - 1];
      ChangeOnce(HandleAll(t, booking, deliveries[..|deliveries| - 1]), d.change, d.event, booking)
  }

  ghost predicate Delivers(deliveries: seq<Delivery>, change: Change) {
    exists i :: 0 <= i < |deliveries| && deliveries[i].change == change
  }

  /** What a row of the booking becomes once these kinds of event have been handled. */
  function Outcome(status: AllocationStatus, confirmed: bool, cancelled: bool): AllocationStatus {
    if cancelled && (status == HELD || status == CONFIRMED) then CANCELLED
    else if confirmed && status == HELD then CONFIRMED
    else status
  }

  ghost function Handled(a: Allocation, booking: Id, deliveries: seq<Delivery>): Allocation {
    if a.booking != booking then a
    else a.(status := Outcome(a.status, Delivers(deliveries, Confirm), Delivers(deliveries, Cancel)))
  }

  /** Any list of fresh deliveries, with repeats and in any order, has the effect of the kinds it contains. */
  lemma {:induction false} AnyOrderSameOutcome(t: Tables, booking: Id, deliveries: seq<Delivery>)
    requires forall d :: d in deliveries ==> d.change.Key(d.event) !in t.keys
    ensures var r := HandleAll(t, booking, deliveries);
            && |r.allocs| == |t.allocs|
            && (forall i :: 0 <= i < |t.allocs| ==> r.allocs[i] == Handled(t.allocs[i], booking, deliveries))
            && (forall k :: k in r.keys <==> k in t.keys || exists d :: d in deliveries && d.change.Key(d.event) == k)
  {
    if deliveries != [] {
      var n := |deliveries| - 1;
      var init, d := deliveries[..n], deliveries[n];
      AnyOrderSameOutcome(t, booking, init);
      var mid := HandleAll(t, booking, init);
      forall c: Change ensures Delivers(deliveries, c) <==> Delivers(init, c) || d.change == c {
        if Delivers(init, c) {
          var i :| 0 <= i < |init| && init[i].change == c;
          assert deliveries[i].change == c;
        }
      }
      assert forall x :: x in deliveries <==> x in init || x == d;
      if d.change.Key(d.event) in mid.keys {
        var x :| x in init && x.change.Key(x.event) == d.change.Key(d.event);
        assert x.change == d.change && Delivers(init, d.change);
      }
    }
  }

  // ---- The audit trail ----

  /** The history of one allocation, oldest first. */
  ghost function Entries(history: seq<History>, i: nat): seq<History> {
    if history == [] then []
    else
      var n := |history| - 1;
      Entries(history[..n], i) + (if history[n].allocation == i then [history[n]] else [])
  }

  /** The entries link up and replay to the status. */
  ghost predicate Replays(entries: seq<History>, status: AllocationStatus) {
    && entries != [] && entries[0].oldStatus == HELD
    && (forall k :: 0 < k < |entries| ==> entries[k].oldStatus == entries[k - 1].newStatus)
    && entries[|entries| - 1].newStatus == status
  }

  /** Every allocation's history is a chain ending in its current status. */
  ghost predicate Audited(t: Tables) {
    && (forall i: nat :: i < |t.allocs| ==> Replays(Entries(t.history, i), t.allocs[i].status))
    && (forall i: nat :: |t.allocs| <= i ==> Entries(t.history, i) == [])
  }

  lemma {:induction false} EntriesAppend(first: seq<History>, second: seq<History>, i: nat)
    ensures Entries(first + second, i) == Entries(first, i) + Entries(second, i)
  {
    if second == [] {
      assert first + second == first;
    } else {
      var n := |second| - 1;
      EntriesAppend(first, second[..n], i);
      assert (first + second)[..|first + second| - 1] == first + second[..n];
    }
  }

  lemma EntriesOfOne(e: History, i: nat)
    ensures Entries([e], i) == if e.allocation == i then [e] else []
  {
    assert [e][..0] == [];
  }

  lemma {:induction false} ChangeLogEntries(allocs: seq<Allocation>, booking: Id, statuses: set<AllocationStatus>,
                                            to: AllocationStatus, i: nat)
    ensures Entries(ChangeLog(allocs, booking, statuses, to), i)
            == if i < |allocs| && Matches(allocs[i], booking, statuses) then [History(i, allocs[i].status, to)] else []
  {
    if allocs != [] {
      var n := |allocs| - 1;
      var init := allocs[..n];
      ChangeLogEntries(init, booking, statuses, to, i);
      assert i < n ==> init[i] == allocs[i];
      if Matches(allocs[n], booking, statuses) {
        EntriesAppend(ChangeLog(init, booking, statuses, to), [History(n, allocs[n].status, to)], i);
        EntriesOfOne(History(n, allocs[n].status, to), i);
      } else {
        assert ChangeLog(allocs, booking, statuses, to) == ChangeLog(init, booking, statuses, to);
      }
    }
  }

  lemma {:induction false} HoldLogEntries(allocs: seq<Allocation>, booking: Id, i: nat)
    ensures Entries(HoldLog(allocs, booking), i)
            == if i < |allocs| && allocs[i].booking == booking then [History(i, HELD, HELD)] else []
  {
    if allocs != [] {
      var n := |allocs| - 1;
      var init := allocs[..n];
      HoldLogEntries(init, booking, i);
      if i < n {
        assert init[i] == allocs[i];
      }
      if allocs[n].booking == booking {
        EntriesAppend(HoldLog(init, booking), [History(n, HELD, HELD)], i);
        EntriesOfOne(History(n, HELD, HELD), i);
      } else {
        assert HoldLog(allocs, booking) == HoldLog(init, booking);
      }
    }
  }

  lemma ReplaysExtends(entries: seq<History>, e: History, status: AllocationStatus)
    requires Replays(entries, status)
    ensures Replays(entries + [e], e.newStatus) <==> e.oldStatus == status
  {
    var longer := entries + [e];
    assert longer[|entries|] == e && longer[|entries| - 1] == entries[|entries| - 1];
    assert forall k | 0 <= k < |entries| :: longer[k] == entries[k];
  }

  /** Confirming and cancelling keep the audit trail. */
  lemma ChangeKeepsAudit(t: Tables, change: Change, event: Id, booking: Id)
    requires Audited(t)
    ensures Audited(ChangeOnce(t, change, event, booking))
  {
    var r := ChangeOnce(t, change, event, booking);
    if r != t {
      forall i: nat
        ensures i < |r.allocs| ==> Replays(Entries(r.history, i), r.allocs[i].status)
        ensures |r.allocs| <= i ==> Entries(r.history, i) == []
      {
        EntriesAppend(t.history, ChangeLog(t.allocs, booking, change.From(), change.To()), i);
        ChangeLogEntries(t.allocs, booking, change.From(), change.To(), i);
        if i < |t.allocs| && Matches(t.allocs[i], booking, change.From()) {
          ReplaysExtends(Entries(t.history, i), History(i, t.allocs[i].status, change.To()), t.allocs[i].status);
        }
      }
    }
  }

  /** Every row the booking already has is still HELD. */
  ghost predicate OnlyHeldRows(allocs: seq<Allocation>, booking: Id) {
    forall i :: 0 <= i < |allocs| && allocs[i].booking == booking ==> allocs[i].status == HELD
  }

  lemma HoldEntries(t: Tables, hold: Hold, expiresAt: int, i: nat)
    ensures var allocs := t.allocs + Rows(hold, expiresAt);
            Entries(t.history + HoldLog(allocs, hold.booking), i)
            == Entries(t.history, i)
               + if i < |allocs| && allocs[i].booking == hold.booking then [History(i, HELD, HELD)] else []
  {
    var allocs := t.allocs + Rows(hold, expiresAt);
    EntriesAppend(t.history, HoldLog(allocs, hold.booking), i);
    HoldLogEntries(allocs, hold.booking, i);
  }

  /**
   * A committed hold logs all rows of its booking as HELD. So it keeps the audit trail exactly when every
   * row the booking already had is still HELD; with one hold event per booking there are none.
   */
  lemma HoldKeepsAuditExactly(t: Tables, hold: Hold, expiresAt: int)
    requires Audited(t) && HoldOnce(t, hold, expiresAt) != t
    ensures Audited(HoldOnce(t, hold, expiresAt)) <==> OnlyHeldRows(t.allocs, hold.booking)
  {
    var r, rows := HoldOnce(t, hold, expiresAt), Rows(hold, expiresAt);
    assert r.allocs == t.allocs + rows;
    if i: nat :| i < |t.allocs| && t.allocs[i].booking == hold.booking && t.allocs[i].status != HELD {
      HoldEntries(t, hold, expiresAt, i);
      ReplaysExtends(Entries(t.history, i), History(i, HELD, HELD), t.allocs[i].status);
      NotReplaysOther(Entries(t.history, i), History(i, HELD, HELD), t.allocs[i].status);
      assert r.allocs[i] == t.allocs[i];
    } else {
      forall i: nat
        ensures i < |r.allocs| ==> Replays(Entries(r.history, i), r.allocs[i].status)
        ensures |r.allocs| <= i ==> Entries(r.history, i) == []
      {
        HoldEntries(t, hold, expiresAt, i);
        if i < |t.allocs| {
          assert r.allocs[i] == t.allocs[i];
          if t.allocs[i].booking == hold.booking {
            ReplaysExtends(Entries(t.history, i), History(i, HELD, HELD), HELD);
          }
        } else if i < |r.allocs| {
          assert r.allocs[i] == rows[i - |t.allocs|];
        }
      }
    }
  }

  lemma NotReplaysOther(entries: seq<History>, e: History, status: AllocationStatus)
    requires Replays(entries, status) && e.oldStatus != status
    ensures forall s :: !Replays(entries + [e], s)
  {
    var longer := entries + [e];
    assert longer[|entries|] == e && longer[|entries| - 1] == entries[|entries| - 1];
  }

  // ---- Runs of whole transactions ----

  datatype Op = HoldOp(hold: Hold, expiresAt: int) | ChangeOp(change: Change, event: Id, booking: Id)

  const Empty := Tables([], [], {}, [])

  function Apply(t: Tables, op: Op): Tables {
    match op
    case HoldOp(hold, expiresAt) => HoldOnce(t, hold, expiresAt)
    case ChangeOp(change, event, booking) => ChangeOnce(t, change, event, booking)
  }

  function ApplyAll(ops: seq<Op>): Tables {
    if ops == [] then Empty else Apply(ApplyAll(ops[..|ops| - 1]), ops[|ops| - 1])
  }

  /** Deliveries of holds for one booking carry one event. */
  ghost predicate OneHoldEventPerBooking(ops: seq<Op>) {
    forall i, j :: 0 <= i < |ops| && 0 <= j < |ops| && ops[i].HoldOp? && ops[j].HoldOp? ==>
      (ops[i].hold.booking == ops[j].hold.booking ==> ops[i].hold.event == ops[j].hold.event)
  }

  ghost predicate HasKeyedHold(ops: seq<Op>, keys: set<EventKey>, booking: Id) {
    exists j :: 0 <= j < |ops| && ops[j].HoldOp? && ops[j].hold.booking == booking && HoldKey(ops[j].hold.event) in keys
  }

  /** Rows of a booking come from a delivered hold whose key is recorded. */
  ghost predicate RowsHaveKeys(t: Tables, ops: seq<Op>) {
    forall i :: 0 <= i < |t.allocs| ==> HasKeyedHold(ops, t.keys, t.allocs[i].booking)
  }

  lemma KeyedHoldPersists(ops: seq<Op>, op: Op, keys: set<EventKey>, more: set<EventKey>, booking: Id)
    requires HasKeyedHold(ops, keys, booking) && keys <= more
    ensures HasKeyedHold(ops + [op], more, booking)
  {
    var j :| 0 <= j < |ops| && ops[j].HoldOp? && ops[j].hold.booking == booking && HoldKey(ops[j].hold.event) in keys;
    assert (ops + [op])[j] == ops[j];
  }

  lemma RowsKeepKeys(t: Tables, ops: seq<Op>, op: Op)
    requires RowsHaveKeys(t, ops)
    ensures RowsHaveKeys(Apply(t, op), ops + [op])
  {
    var r, all := Apply(t, op), ops + [op];
    forall i | 0 <= i < |r.allocs| ensures HasKeyedHold(all, r.keys, r.allocs[i].booking) {
      if i < |t.allocs| {
        assert r.allocs[i].booking == t.allocs[i].booking;
        KeyedHoldPersists(ops, op, t.keys, r.keys, t.allocs[i].booking);
      } else {
        assert all[|ops|] == op && r.allocs[i] == Rows(op.hold, op.expiresAt)[i - |t.allocs|];
      }
    }
  }

  /** The four lives of an allocation: held; confirmed; cancelled from either. */
  ghost predicate LifeOf(entries: seq<History>, i: nat, status: AllocationStatus) {
    var held, confirmed := History(i, HELD, HELD), History(i, HELD, CONFIRMED);
    match status
    case HELD => entries == [held]
    case CONFIRMED => entries == [held, confirmed]
    case CANCELLED =>
      entries == [held, History(i, HELD, CANCELLED)] || entries == [held, confirmed, History(i, CONFIRMED, CANCELLED)]
    case EXPIRED => false
  }

  ghost predicate AllLives(t: Tables) {
    && (forall i: nat :: i < |t.allocs| ==> LifeOf(Entries(t.history, i), i, t.allocs[i].status))
    && (forall i: nat :: |t.allocs| <= i ==> Entries(t.history, i) == [])
  }

  lemma ChangeKeepsLives(t: Tables, change: Change, event: Id, booking: Id)
    requires AllLives(t)
    ensures AllLives(ChangeOnce(t, change, event, booking))
  {
    var r := ChangeOnce(t, change, event, booking);
    if r != t {
      forall i: nat
        ensures i < |r.allocs| ==> LifeOf(Entries(r.history, i), i, r.allocs[i].status)
        ensures |r.allocs| <= i ==> Entries(r.history, i) == []
      {
        EntriesAppend(t.history, ChangeLog(t.allocs, booking, change.From(), change.To()), i);
        ChangeLogEntries(t.allocs, booking, change.From(), change.To(), i);
        if i < |t.allocs| && Matches(t.allocs[i], booking, change.From()) {
          LifeGoesOn(Entries(t.history, i), i, t.allocs[i].status, change);
        }
      }
    }
  }

  /** A matching change leads from one of the four lives to another. */
  lemma LifeGoesOn(entries: seq<History>, i: nat, status: AllocationStatus, change: Change)
    requires LifeOf(entries, i, status) && status in change.From()
    ensures LifeOf(entries + [History(i, status, change.To())], i, change.To())
  {
  }

  lemma HoldKeepsLives(t: Tables, hold: Hold, expiresAt: int)
    requires AllLives(t)
    requires forall i :: 0 <= i < |t.allocs| ==> t.allocs[i].booking != hold.booking
    ensures AllLives(HoldOnce(t, hold, expiresAt))
  {
    var r, rows := HoldOnce(t, hold, expiresAt), Rows(hold, expiresAt);
    if r != t {
      forall i: nat
        ensures i < |r.allocs| ==> LifeOf(Entries(r.history, i), i, r.allocs[i].status)
        ensures |r.allocs| <= i ==> Entries(r.history, i) == []
      {
        HoldEntries(t, hold, expiresAt, i);
        if i < |t.allocs| {
          assert r.allocs[i] == t.allocs[i];
        } else if i < |r.allocs| {
          assert r.allocs[i] == rows[i - |t.allocs|];
        }
      }
    }
  }

  /** A hold whose key is not recorded belongs to a booking without rows. */
  lemma UnrecordedBookingIsNew(t: Tables, ops: seq<Op>, hold: Hold, expiresAt: int)
    requires OneHoldEventPerBooking(ops + [HoldOp(hold, expiresAt)]) && RowsHaveKeys(t, ops)
    requires HoldKey(hold.event) !in t.keys
    ensures forall i :: 0 <= i < |t.allocs| ==> t.allocs[i].booking != hold.booking
  {
    var all := ops + [HoldOp(hold, expiresAt)];
    forall i | 0 <= i < |t.allocs| ensures t.allocs[i].booking != hold.booking {
      assert HasKeyedHold(ops, t.keys, t.allocs[i].booking);
      var j :| 0 <= j < |ops| && ops[j].HoldOp? && ops[j].hold.booking == t.allocs[i].booking
               && HoldKey(ops[j].hold.event) in t.keys;
      assert all[j] == ops[j] && all[|ops|].hold == hold;
    }
  }

  lemma {:induction false} RunsHaveLives(ops: seq<Op>)
    requires OneHoldEventPerBooking(ops)
    ensures AllLives(ApplyAll(ops)) && RowsHaveKeys(ApplyAll(ops), ops)
  {
    if ops != [] {
      var n := |ops| - 1;
      var init, op := ops[..n], ops[n];
      assert ops == init + [op];
      assert OneHoldEventPerBooking(init) by {
        assert forall i | 0 <= i < n :: init[i] == ops[i];
      }
      RunsHaveLives(init);
      var t := ApplyAll(init);
      RowsKeepKeys(t, init, op);
      match op
      case ChangeOp(change, event, booking) => ChangeKeepsLives(t, change, event, booking);
      case HoldOp(hold, expiresAt) =>
        if HoldKey(hold.event) !in t.keys {
          UnrecordedBookingIsNew(t, init, hold, expiresAt);
          HoldKeepsLives(t, hold, expiresAt);
        }
    }
  }

  /** With one hold event per booking, the history of every allocation in every run is one of four chains. */
  lemma RunsAreAudited(ops: seq<Op>)
    requires OneHoldEventPerBooking(ops)
    ensures AllLives(ApplyAll(ops)) && Audited(ApplyAll(ops))
  {
    RunsHaveLives(ops);
    var t := ApplyAll(ops);
    forall i: nat | i < |t.allocs| ensures Replays(Entries(t.history, i), t.allocs[i].status) {
      assert LifeOf(Entries(t.history, i), i, t.allocs[i].status);
    }
  }
}
