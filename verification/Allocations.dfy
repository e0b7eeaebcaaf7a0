/** The seat_allocations table: its overlap query, its guarded bulk updates, and the safety property. */
module Allocations {
  import opened Prelude
  import opened Inventory

  datatype AllocationStatus = HELD | CONFIRMED | CANCELLED | EXPIRED

  datatype Allocation = Allocation(
    schedule: Id, seat: Id, booking: Id, from: int, to: int,
    status: AllocationStatus, holdExpiresAt: int, price: nat)
  {
    predicate Active() {
      status == HELD || status == CONFIRMED
    }

    /** The row's half-open segment covers leg l, the stretch from stop l to stop l + 1. */
    predicate Covers(l: int) {
      from <= l < to
    }

    /** The where-clause of `hasOverlappingAllocation`. */
    predicate Clashes(schedule': Id, seats: seq<Id>, from': int, to': int) {
      schedule == schedule' && seat in seats && from < to' && to > from' && Active()
    }
  }

  predicate HasOverlappingAllocation(allocs: seq<Allocation>, schedule: Id, seats: seq<Id>, from: int, to: int) {
    exists i :: 0 <= i < |allocs| && allocs[i].Clashes(schedule, seats, from, to)
  }

  /** The unique index on (booking, seat) refuses the rows of this hold. */
  predicate HasRowFor(allocs: seq<Allocation>, booking: Id, seats: seq<Id>) {
    exists i :: 0 <= i < |allocs| && allocs[i].booking == booking && allocs[i].seat in seats
  }

  /** The rows a hold inserts, one per requested seat. */
  function Rows(hold: Hold, expiresAt: int): (rows: seq<Allocation>)
    ensures |rows| == |hold.lines|
  {
    seq(|hold.lines|, i requires 0 <= i < |hold.lines| =>
      Allocation(hold.schedule, hold.Seats()[i], hold.booking, hold.from, hold.to, HELD, expiresAt, hold.Prices()[i]))
  }

  /** Row a is what line i of the hold asks for, held until this time. */
  ghost predicate HeldFor(a: Allocation, hold: Hold, i: nat, until: int) {
    && i < |hold.lines|
    && a.booking == hold.booking && a.schedule == hold.schedule && a.seat == hold.lines[i].seat
    && a.from == hold.from && a.to == hold.to && a.price == hold.lines[i].price
    && a.status == HELD && a.holdExpiresAt == until
  }

  /** The table has gained one held row per line of the hold, in order. */
  ghost predicate Inserts(before: seq<Allocation>, after: seq<Allocation>, hold: Hold, until: int) {
    && before <= after && |after| == |before| + |hold.lines|
    && forall k :: |before| <= k < |after| ==> HeldFor(after[k], hold, k - |before|, until)
  }

  lemma RowIsHeld(hold: Hold, expiresAt: int, i: nat, a: Allocation)
    requires i < |hold.lines|
    ensures a == Rows(hold, expiresAt)[i] <==> HeldFor(a, hold, i, expiresAt)
  {
    assert hold.Seats()[i] == hold.lines[i].seat && hold.Prices()[i] == hold.lines[i].price;
  }

  /** The insert of a hold adds exactly the rows that its lines ask for, held until the given time. */
  lemma RowsAreInserted(allocs: seq<Allocation>, hold: Hold, expiresAt: int, after: seq<Allocation>)
    ensures after == allocs + Rows(hold, expiresAt) <==> Inserts(allocs, after, hold, expiresAt)
  {
    var all, n := allocs + Rows(hold, expiresAt), |allocs|;
    if |after| == |all| && allocs <= after {
      forall k | n <= k < |after| ensures after[k] == all[k] <==> HeldFor(after[k], hold, k - n, expiresAt) {
        RowIsHeld(hold, expiresAt, k - n, after[k]);
      }
      assert after == all <==> forall k :: n <= k < |after| ==> after[k] == all[k] by {
        assert forall k | 0 <= k < n :: after[k] == allocs[k] == all[k];
      }
    }
  }

  /** The unique index: a booking has at most one row per seat. */
  ghost predicate OneRowEach(allocs: seq<Allocation>) {
    forall i, j :: 0 <= i < j < |allocs| ==>
                     !(allocs[i].booking == allocs[j].booking && allocs[i].seat == allocs[j].seat)
  }

  /** The rows of a hold for distinct seats respect the index exactly when the booking has no row on its seats. */
  lemma HoldKeepsOneRowEach(allocs: seq<Allocation>, hold: Hold, expiresAt: int)
    requires OneRowEach(allocs) && Distinct(hold.Seats())
    ensures OneRowEach(allocs + Rows(hold, expiresAt)) <==> !HasRowFor(allocs, hold.booking, hold.Seats())
  {
    var rows, seats := Rows(hold, expiresAt), hold.Seats();
    var after := allocs + rows;
    if i :| 0 <= i < |allocs| && allocs[i].booking == hold.booking && allocs[i].seat in seats {
      var k :| 0 <= k < |seats| && seats[k] == allocs[i].seat;
      assert after[i] == allocs[i] && after[|allocs| + k] == rows[k];
    } else {
      forall i, j | 0 <= i < j < |after|
        ensures !(after[i].booking == after[j].booking && after[i].seat == after[j].seat)
      {
        if j >= |allocs| {
          assert after[j] == rows[j - |allocs|] && rows[j - |allocs|].seat == seats[j - |allocs|];
          assert i >= |allocs| ==> rows[i - |allocs|].seat == seats[i - |allocs|];
        }
      }
    }
  }

  predicate Matches(a: Allocation, booking: Id, statuses: set<AllocationStatus>) {
    a.booking == booking && a.status in statuses
  }

  /** `updateMany` on the rows of a booking in one of the given statuses. */
  function SetStatus(allocs: seq<Allocation>, booking: Id, statuses: set<AllocationStatus>, status: AllocationStatus)
    : (r: seq<Allocation>)
    ensures |r| == |allocs|
  {
    seq(|allocs|, i requires 0 <= i < |allocs| =>
      if Matches(allocs[i], booking, statuses) then allocs[i].(status := status) else allocs[i])
  }

  // ---- Safety ----

  ghost predicate Disjoint(a: Allocation, b: Allocation) {
    a.schedule == b.schedule && a.seat == b.seat && a.Active() && b.Active()
    ==> a.to <= b.from || b.to <= a.from
  }

  /** No double booking: active rows of one schedule and seat never overlap. */
  ghost predicate NoDoubleBooking(allocs: seq<Allocation>) {
    && (forall i :: 0 <= i < |allocs| ==> allocs[i].from < allocs[i].to)
    && (forall i, j :: 0 <= i < j < |allocs| ==> Disjoint(allocs[i], allocs[j]))
  }

  /** Inserting the rows of a hold keeps the safety property exactly when the overlap query finds nothing. */
  lemma HoldKeepsNoDoubleBooking(allocs: seq<Allocation>, hold: Hold, expiresAt: int)
    requires NoDoubleBooking(allocs) && WellFormed(hold)
    ensures NoDoubleBooking(allocs + Rows(hold, expiresAt))
            <==> !HasOverlappingAllocation(allocs, hold.schedule, hold.Seats(), hold.from, hold.to)
  {
    var all, rows, n := allocs + Rows(hold, expiresAt), Rows(hold, expiresAt), |allocs|;
    assert forall i | 0 <= i < n :: all[i] == allocs[i];
    assert forall k | 0 <= k < |rows| :: all[n + k] == rows[k];
    if i :| 0 <= i < n && allocs[i].Clashes(hold.schedule, hold.Seats(), hold.from, hold.to) {
      var k :| 0 <= k < |hold.Seats()| && hold.Seats()[k] == allocs[i].seat;
      assert !Disjoint(all[i], all[n + k]);
    } else {
      forall i, j | 0 <= i < j < |all| ensures Disjoint(all[i], all[j]) {
        if i < n <= j {
          assert all[j] == rows[j - n] && rows[j - n].seat in hold.Seats();
          assert !allocs[i].Clashes(hold.schedule, hold.Seats(), hold.from, hold.to);
        } else if n <= i {
          assert all[i] == rows[i - n] && all[j] == rows[j - n];
          assert hold.Seats()[i - n] != hold.Seats()[j - n];
        }
      }
      assert forall j | n <= j < |all| :: all[j] == rows[j - n];
    }
  }

  /** Changing statuses without making an inactive row active keeps the safety property. */
  lemma StatusChangeKeepsNoDoubleBooking(before: seq<Allocation>, after: seq<Allocation>)
    requires NoDoubleBooking(before) && |after| == |before|
    requires forall i :: 0 <= i < |before| ==>
      after[i] == before[i].(status := after[i].status) && (after[i].Active() ==> before[i].Active())
    ensures NoDoubleBooking(after)
  {
    forall i, j | 0 <= i < j < |after| ensures Disjoint(after[i], after[j]) {
      assert Disjoint(before[i], before[j]);
    }
  }
}
