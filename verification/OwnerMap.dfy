/**
 * The interval table refines a plain owner map from (schedule, seat, leg) to booking, and a seat never
 * carries more legs than its route has.
 */
module OwnerMap {
  import opened Prelude
  import opened Inventory
  import opened Allocations

  datatype Cell = Cell(schedule: Id, seat: Id, leg: int)

  type Owners = map<Cell, Id>

  ghost function CellRange(schedule: Id, seat: Id, from: int, to: int): set<Cell> {
    set l: int | from <= l < to :: Cell(schedule, seat, l)
  }

  ghost function CellsOf(a: Allocation): set<Cell> {
    CellRange(a.schedule, a.seat, a.from, a.to)
  }

  ghost function Claim(cells: set<Cell>, booking: Id): Owners {
    map c | c in cells :: booking
  }

  /** The owner map a table stands for. */
  ghost function Abstract(allocs: seq<Allocation>): Owners {
    if allocs == [] then map[]
    else
      var a := allocs[|allocs| - 1];
      Abstract(allocs[..|allocs| - 1]) + (if a.Active() then Claim(CellsOf(a), a.booking) else map[])
  }

  ghost predicate OwnsAt(a: Allocation, c: Cell) {
    a.Active() && a.schedule == c.schedule && a.seat == c.seat && a.Covers(c.leg)
  }

  /** A cell is owned exactly when some active row covers it, and then by that row's booking. */
  lemma {:induction false} AbstractMeaning(allocs: seq<Allocation>, c: Cell)
    requires NoDoubleBooking(allocs)
    ensures c in Abstract(allocs) <==> exists i :: 0 <= i < |allocs| && OwnsAt(allocs[i], c)
    ensures forall i :: 0 <= i < |allocs| && OwnsAt(allocs[i], c) ==>
              c in Abstract(allocs) && Abstract(allocs)[c] == allocs[i].booking
  {
    if allocs != [] {
      var n := |allocs| - 1;
      var a, init := allocs[n], allocs[..n];
      assert forall i | 0 <= i < n :: init[i] == allocs[i];
      AbstractMeaning(init, c);
      assert OwnsAt(a, c) <==> a.Active() && c in CellsOf(a);
      if OwnsAt(a, c) {
        forall i | 0 <= i < n ensures !OwnsAt(allocs[i], c) {
          assert Disjoint(allocs[i], a);
        }
      }
    }
  }

  /** All cells a hold asks for. */
  ghost function Requested(hold: Hold): set<Cell> {
    set k: int, l: int | 0 <= k < |hold.Seats()| && hold.from <= l < hold.to :: Cell(hold.schedule, hold.Seats()[k], l)
  }

  ghost predicate Free(owners: Owners, cells: set<Cell>) {
    forall c :: c in cells ==> c !in owners
  }

  lemma OwnedCellClashes(allocs: seq<Allocation>, hold: Hold, c: Cell)
    requires NoDoubleBooking(allocs) && c in Requested(hold)
    ensures c in Abstract(allocs) ==>
              exists i :: 0 <= i < |allocs| && allocs[i].Clashes(hold.schedule, hold.Seats(), hold.from, hold.to)
  {
    AbstractMeaning(allocs, c);
    if c in Abstract(allocs) {
      var i :| 0 <= i < |allocs| && OwnsAt(allocs[i], c);
      assert allocs[i].Clashes(hold.schedule, hold.Seats(), hold.from, hold.to);
    }
  }

  /** The overlap query answers the question "is any requested cell taken?". */
  lemma OverlapQueryIsFreeness(allocs: seq<Allocation>, hold: Hold)
    requires NoDoubleBooking(allocs) && WellFormed(hold)
    ensures HasOverlappingAllocation(allocs, hold.schedule, hold.Seats(), hold.from, hold.to)
            <==> !Free(Abstract(allocs), Requested(hold))
  {
    if i :| 0 <= i < |allocs| && allocs[i].Clashes(hold.schedule, hold.Seats(), hold.from, hold.to) {
      var a := allocs[i];
      var k :| 0 <= k < |hold.Seats()| && hold.Seats()[k] == a.seat;
      var l := if a.from < hold.from then hold.from else a.from;
      var c := Cell(hold.schedule, hold.Seats()[k], l);
      assert OwnsAt(a, c);
      AbstractMeaning(allocs, c);
      assert c in Requested(hold);
    } else {
      forall c | c in Requested(hold) ensures c !in Abstract(allocs) {
        OwnedCellClashes(allocs, hold, c);
      }
    }
  }

  ghost predicate OwnedIn(allocs: seq<Allocation>, c: Cell) {
    exists i :: 0 <= i < |allocs| && OwnsAt(allocs[i], c)
  }

  lemma RowsOwn(hold: Hold, expiresAt: int, c: Cell)
    requires WellFormed(hold)
    ensures OwnedIn(Rows(hold, expiresAt), c) <==> c in Requested(hold)
  {
    var rows := Rows(hold, expiresAt);
    if c in Requested(hold) {
      var k :| 0 <= k < |hold.Seats()| && c.seat == hold.Seats()[k];
      assert OwnsAt(rows[k], c);
    }
    if k :| 0 <= k < |rows| && OwnsAt(rows[k], c) {
      assert c == Cell(hold.schedule, hold.Seats()[k], c.leg);
    }
  }

  lemma OwnedInConcat(first: seq<Allocation>, second: seq<Allocation>, c: Cell)
    ensures OwnedIn(first + second, c) <==> OwnedIn(first, c) || OwnedIn(second, c)
  {
    var all := first + second;
    if i :| 0 <= i < |first| && OwnsAt(first[i], c) {
      assert OwnsAt(all[i], c);
    }
    if k :| 0 <= k < |second| && OwnsAt(second[k], c) {
      assert OwnsAt(all[|first| + k], c);
    }
  }

  /** A committed hold claims exactly the requested cells. */
  lemma HoldClaims(allocs: seq<Allocation>, hold: Hold, expiresAt: int)
    requires NoDoubleBooking(allocs) && WellFormed(hold)
    requires Free(Abstract(allocs), Requested(hold))
    ensures var after := allocs + Rows(hold, expiresAt);
            NoDoubleBooking(after) && Abstract(after) == Abstract(allocs) + Claim(Requested(hold), hold.booking)
  {
    var rows := Rows(hold, expiresAt);
    var after := allocs + rows;
    OverlapQueryIsFreeness(allocs, hold);
    HoldKeepsNoDoubleBooking(allocs, hold, expiresAt);
    forall c
      ensures c in Abstract(after) <==> c in Abstract(allocs) || c in Requested(hold)
      ensures c in Requested(hold) ==> Abstract(after)[c] == hold.booking
      ensures c in Abstract(allocs) ==> Abstract(after)[c] == Abstract(allocs)[c]
    {
      HoldClaimsCell(allocs, hold, expiresAt, c);
    }
  }

  lemma HoldClaimsCell(allocs: seq<Allocation>, hold: Hold, expiresAt: int, c: Cell)
    requires NoDoubleBooking(allocs) && WellFormed(hold)
    requires NoDoubleBooking(allocs + Rows(hold, expiresAt))
    ensures var after := Abstract(allocs + Rows(hold, expiresAt));
            && (c in after <==> c in Abstract(allocs) || c in Requested(hold))
            && (c in Requested(hold) ==> after[c] == hold.booking)
            && (c in Abstract(allocs) ==> after[c] == Abstract(allocs)[c])
  {
    var rows := Rows(hold, expiresAt);
    var all := allocs + rows;
    AbstractMeaning(allocs, c);
    AbstractMeaning(all, c);
    OwnedInConcat(allocs, rows, c);
    RowsOwn(hold, expiresAt, c);
    assert OwnedIn(all, c) <==> c in Abstract(all);
    assert OwnedIn(allocs, c) <==> c in Abstract(allocs);
    if i :| 0 <= i < |allocs| && OwnsAt(allocs[i], c) {
      assert OwnsAt(all[i], c);
    }
    if k :| 0 <= k < |rows| && OwnsAt(rows[k], c) {
      assert OwnsAt(all[|allocs| + k], c);
    }
  }

  lemma ConfirmKeepsOwners(allocs: seq<Allocation>, booking: Id)
    requires NoDoubleBooking(allocs)
    ensures var after := SetStatus(allocs, booking, {HELD}, CONFIRMED);
            NoDoubleBooking(after) && Abstract(after) == Abstract(allocs)
  {
    var after := SetStatus(allocs, booking, {HELD}, CONFIRMED);
    StatusChangeKeepsNoDoubleBooking(allocs, after);
    forall c
      ensures c in Abstract(after) <==> c in Abstract(allocs)
      ensures c in Abstract(allocs) ==> Abstract(after)[c] == Abstract(allocs)[c]
    {
      AbstractMeaning(allocs, c);
      AbstractMeaning(after, c);
      assert forall i | 0 <= i < |allocs| :: OwnsAt(after[i], c) == OwnsAt(allocs[i], c);
    }
  }

  ghost function Release(owners: Owners, booking: Id): Owners {
    map c | c in owners && owners[c] != booking :: owners[c]
  }

  /** Cancelling frees exactly the booking's own cells. */
  lemma CancelReleases(allocs: seq<Allocation>, booking: Id)
    requires NoDoubleBooking(allocs)
    ensures var after := SetStatus(allocs, booking, {HELD, CONFIRMED}, CANCELLED);
            NoDoubleBooking(after) && Abstract(after) == Release(Abstract(allocs), booking)
  {
    var after := SetStatus(allocs, booking, {HELD, CONFIRMED}, CANCELLED);
    StatusChangeKeepsNoDoubleBooking(allocs, after);
    forall c
      ensures c in Abstract(after) <==> c in Abstract(allocs) && Abstract(allocs)[c] != booking
      ensures c in Abstract(after) ==> Abstract(after)[c] == Abstract(allocs)[c]
    {
      AbstractMeaning(allocs, c);
      AbstractMeaning(after, c);
      assert forall i | 0 <= i < |allocs| ::
          OwnsAt(after[i], c) <==> OwnsAt(allocs[i], c) && allocs[i].booking != booking;
    }
  }

  // ---- Capacity ----

  ghost predicate OnSeat(a: Allocation, schedule: Id, seat: Id) {
    a.Active() && a.schedule == schedule && a.seat == seat
  }

  /** Total length of the active rows of one schedule and seat. */
  ghost function BookedLegs(allocs: seq<Allocation>, schedule: Id, seat: Id): int {
    if allocs == [] then 0
    else
      var a := allocs[|allocs| - 1];
      BookedLegs(allocs[..|allocs| - 1], schedule, seat) + (if OnSeat(a, schedule, seat) then a.to - a.from else 0)
  }

  /** The cells of one seat that its active rows cover. */
  ghost function CoveredCells(allocs: seq<Allocation>, schedule: Id, seat: Id): set<Cell> {
    if allocs == [] then {}
    else
      var a := allocs[|allocs| - 1];
      CoveredCells(allocs[..|allocs| - 1], schedule, seat)
      + (if OnSeat(a, schedule, seat) then CellsOf(a) else {})
  }

  lemma {:induction false} CellCount(schedule: Id, seat: Id, from: int, length: nat)
    ensures |CellRange(schedule, seat, from, from + length)| == length
  {
    var cells := CellRange(schedule, seat, from, from + length);
    if length > 0 {
      CellCount(schedule, seat, from, length - 1);
      var last := Cell(schedule, seat, from + length - 1);
      assert cells == CellRange(schedule, seat, from, from + length - 1) + {last};
    } else {
      assert cells == {};
    }
  }

  lemma {:induction false} CoveredCellsMeaning(allocs: seq<Allocation>, schedule: Id, seat: Id, c: Cell)
    ensures c in CoveredCells(allocs, schedule, seat)
            <==> exists i :: 0 <= i < |allocs| && OnSeat(allocs[i], schedule, seat) && c in CellsOf(allocs[i])
  {
    if allocs != [] {
      var n := |allocs| - 1;
      CoveredCellsMeaning(allocs[..n], schedule, seat, c);
      assert forall i | 0 <= i < n :: allocs[..n][i] == allocs[i];
    }
  }

  lemma NewCellsAreFresh(init: seq<Allocation>, a: Allocation, schedule: Id, seat: Id)
    requires NoDoubleBooking(init + [a]) && OnSeat(a, schedule, seat)
    ensures CoveredCells(init, schedule, seat) !! CellsOf(a)
  {
    var all := init + [a];
    forall c | c in CoveredCells(init, schedule, seat) ensures c !in CellsOf(a) {
      CoveredCellsMeaning(init, schedule, seat, c);
      var i :| 0 <= i < |init| && OnSeat(init[i], schedule, seat) && c in CellsOf(init[i]);
      assert Disjoint(all[i], all[|init|]);
    }
  }

  /** The rows of a seat are pairwise disjoint, so their lengths add up to the number of cells they cover. */
  lemma {:induction false} BookedLegsAreCovered(allocs: seq<Allocation>, schedule: Id, seat: Id)
    requires NoDoubleBooking(allocs)
    ensures BookedLegs(allocs, schedule, seat) == |CoveredCells(allocs, schedule, seat)|
  {
    if allocs != [] {
      var n := |allocs| - 1;
      var init, a := allocs[..n], allocs[n];
      assert allocs == init + [a];
      assert NoDoubleBooking(init) by {
        assert forall i | 0 <= i < n :: init[i] == allocs[i];
      }
      BookedLegsAreCovered(init, schedule, seat);
      if OnSeat(a, schedule, seat) {
        CellCount(schedule, seat, a.from, a.to - a.from);
        NewCellsAreFresh(init, a, schedule, seat);
      }
    }
  }

  ghost predicate IsStop(stops: seq<RouteStop>, schedule: Id, sequence: int) {
    exists s :: s in stops && s.schedule == schedule && s.sequence == sequence
  }

  /** Every row runs between two stops of its schedule's route. */
  ghost predicate OnRoute(allocs: seq<Allocation>, stops: seq<RouteStop>) {
    forall i :: 0 <= i < |allocs| ==>
      && IsStop(stops, allocs[i].schedule, allocs[i].from)
      && IsStop(stops, allocs[i].schedule, allocs[i].to)
  }

  /** No seat is booked for more legs than lie between the first and the last stop of its route. */
  lemma CapacityBound(allocs: seq<Allocation>, stops: seq<RouteStop>, schedule: Id, seat: Id, first: int, last: int)
    requires NoDoubleBooking(allocs) && OnRoute(allocs, stops)
    requires first <= last
    requires forall s :: s in stops && s.schedule == schedule ==> first <= s.sequence <= last
    ensures BookedLegs(allocs, schedule, seat) <= last - first
  {
    BookedLegsAreCovered(allocs, schedule, seat);
    CellCount(schedule, seat, first, last - first);
    forall c | c in CoveredCells(allocs, schedule, seat) ensures c in CellRange(schedule, seat, first, last) {
      CoveredCellsMeaning(allocs, schedule, seat, c);
      var i :| 0 <= i < |allocs| && OnSeat(allocs[i], schedule, seat) && c in CellsOf(allocs[i]);
      assert IsStop(stops, allocs[i].schedule, allocs[i].from) && IsStop(stops, allocs[i].schedule, allocs[i].to);
    }
    SubsetCount(CoveredCells(allocs, schedule, seat), CellRange(schedule, seat, first, last));
  }
}
