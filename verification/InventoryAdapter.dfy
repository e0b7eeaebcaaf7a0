/** Booking-side seat ids turned into inventory rows, and back again in the reply to the hold. */
module InventoryAdapter {
  import opened Prelude
  import opened Inventory

  /** One entry of the batch reply. */
  datatype SeatDetail = SeatDetail(seatId: Id, seatInventoryId: Id)

  // ---- Inventory side ----

  /** `@@unique([scheduleId, seatId])`. */
  ghost predicate UniqueSeatIds(seats: seq<Seat>) {
    forall i, j :: 0 <= i < j < |seats| && seats[i].schedule == seats[j].schedule ==> seats[i].seatId != seats[j].seatId
  }

  function FindByScheduleAndSeats(seats: seq<Seat>, schedule: Id, seatIds: seq<Id>): (r: seq<Seat>)
    ensures forall s :: s in r <==> s in seats && s.schedule == schedule && s.seatId in seatIds
  {
    if seats == [] then []
    else
      var rest := FindByScheduleAndSeats(seats[1..], schedule, seatIds);
      if seats[0].schedule == schedule && seats[0].seatId in seatIds then [seats[0]] + rest else rest
  }

  function GetSeatsDetailsBatch(seats: seq<Seat>, schedule: Id, seatIds: seq<Id>): (r: seq<SeatDetail>)
    ensures |r| == |FindByScheduleAndSeats(seats, schedule, seatIds)|
  {
    var found := FindByScheduleAndSeats(seats, schedule, seatIds);
    seq(|found|, i requires 0 <= i < |found| => SeatDetail(found[i].seatId, found[i].id))
  }

  // ---- Booking side ----

  /** `new Map(entries).get(id)`: the last entry wins. */
  function Lookup(reply: seq<SeatDetail>, seatId: Id): (r: Option<Id>)
    ensures r.Some? ==> SeatDetail(seatId, r.value) in reply
    ensures r.None? ==> forall d :: d in reply ==> d.seatId != seatId
  {
    if reply == [] then None
    else if reply[|reply| - 1].seatId == seatId then Some(reply[|reply| - 1].seatInventoryId)
    else Lookup(reply[..|reply| - 1], seatId)
  }

  /** The reply lists this inventory row for each seat, in the order of the request. */
  ghost predicate Listing(reply: seq<SeatDetail>, seatIds: seq<Id>, ids: seq<Id>) {
    |ids| == |seatIds| && forall i :: 0 <= i < |seatIds| ==> SeatDetail(seatIds[i], ids[i]) in reply
  }

  function ResolveSeatInventoryIds(reply: seq<SeatDetail>, seatIds: seq<Id>): (r: Option<seq<Id>>)
    ensures r.Some? ==> Listing(reply, seatIds, r.value)
  {
    if |reply| != |seatIds| || exists id :: id in seatIds && Lookup(reply, id).None? then None
    else Some(seq(|seatIds|, i requires 0 <= i < |seatIds| =>
      match Lookup(reply, seatIds[i])
      case Some(id) => id
      case None => 0))
  }

  ghost predicate HasSeat(seats: seq<Seat>, schedule: Id, seatId: Id) {
    exists s :: s in seats && s.schedule == schedule && s.seatId == seatId
  }

  function PublicIds(seats: seq<Seat>): (r: seq<Id>)
    ensures |r| == |seats|
  {
    seq(|seats|, i requires 0 <= i < |seats| => seats[i].seatId)
  }

  lemma {:induction false} FoundHaveDistinctIds(seats: seq<Seat>, schedule: Id, seatIds: seq<Id>)
    requires UniqueSeatIds(seats)
    ensures Distinct(PublicIds(FindByScheduleAndSeats(seats, schedule, seatIds)))
  {
    if seats != [] {
      var first, tail := seats[0], seats[1..];
      assert forall i | 0 <= i < |tail| :: tail[i] == seats[i + 1];
      FoundHaveDistinctIds(tail, schedule, seatIds);
      var rest := FindByScheduleAndSeats(tail, schedule, seatIds);
      if first.schedule == schedule && first.seatId in seatIds {
        forall s | s in rest ensures s.seatId != first.seatId {
          OthersDiffer(seats, schedule, s);
        }
        FirstIsNew(first, rest);
        assert FindByScheduleAndSeats(seats, schedule, seatIds) == [first] + rest;
      }
    }
  }

  lemma OthersDiffer(seats: seq<Seat>, schedule: Id, s: Seat)
    requires UniqueSeatIds(seats) && seats != [] && seats[0].schedule == schedule
    requires s in seats[1..] && s.schedule == schedule
    ensures s.seatId != seats[0].seatId
  {
    var k :| 0 <= k < |seats[1..]| && seats[1..][k] == s;
    assert seats[1 + k] == s;
  }

  lemma FirstIsNew(first: Seat, rest: seq<Seat>)
    requires Distinct(PublicIds(rest)) && forall s :: s in rest ==> s.seatId != first.seatId
    ensures Distinct(PublicIds([first] + rest))
  {
    assert PublicIds([first] + rest) == [first.seatId] + PublicIds(rest);
    forall j | 0 <= j < |rest| ensures PublicIds(rest)[j] != first.seatId {
      assert rest[j] in rest;
    }
  }

  lemma PublicIdsMeaning(seats: seq<Seat>, schedule: Id, seatIds: seq<Id>, id: Id)
    ensures id in PublicIds(FindByScheduleAndSeats(seats, schedule, seatIds)) <==>
              id in seatIds && HasSeat(seats, schedule, id)
  {
    var found := FindByScheduleAndSeats(seats, schedule, seatIds);
    if id in PublicIds(found) {
      var i :| 0 <= i < |found| && PublicIds(found)[i] == id;
      assert found[i] in found;
    }
    if id in seatIds && HasSeat(seats, schedule, id) {
      var s :| s in seats && s.schedule == schedule && s.seatId == id;
      var i :| 0 <= i < |found| && found[i] == s;
      assert PublicIds(found)[i] == id;
    }
  }

  lemma ReplyCovers(seats: seq<Seat>, schedule: Id, seatIds: seq<Id>, id: Id)
    ensures id in PublicIds(FindByScheduleAndSeats(seats, schedule, seatIds)) ==>
              exists d :: d in GetSeatsDetailsBatch(seats, schedule, seatIds) && d.seatId == id
  {
    var ids := PublicIds(FindByScheduleAndSeats(seats, schedule, seatIds));
    if id in ids {
      var i :| 0 <= i < |ids| && ids[i] == id;
      assert GetSeatsDetailsBatch(seats, schedule, seatIds)[i] in GetSeatsDetailsBatch(seats, schedule, seatIds);
    }
  }

  lemma LookupFindsSeat(seats: seq<Seat>, schedule: Id, seatIds: seq<Id>, id: Id)
    requires UniqueSeatIds(seats)
    ensures var r := Lookup(GetSeatsDetailsBatch(seats, schedule, seatIds), id);
            && (r.Some? <==> id in seatIds && HasSeat(seats, schedule, id))
            && (r.Some? ==> exists s :: s in seats && s.schedule == schedule && s.seatId == id && s.id == r.value)
  {
    var found := FindByScheduleAndSeats(seats, schedule, seatIds);
    var reply := GetSeatsDetailsBatch(seats, schedule, seatIds);
    PublicIdsMeaning(seats, schedule, seatIds, id);
    ReplyCovers(seats, schedule, seatIds, id);
    var r := Lookup(reply, id);
    if r.Some? {
      var i :| 0 <= i < |reply| && reply[i] == SeatDetail(id, r.value);
      assert found[i] in found && PublicIds(found)[i] == id;
    }
  }

  /** Against the inventory's own table, resolution succeeds exactly for distinct seats of the schedule. */
  lemma ResolutionAccepts(seats: seq<Seat>, schedule: Id, seatIds: seq<Id>)
    requires UniqueSeatIds(seats)
    ensures ResolveSeatInventoryIds(GetSeatsDetailsBatch(seats, schedule, seatIds), seatIds).Some? <==>
              Distinct(seatIds) && forall id :: id in seatIds ==> HasSeat(seats, schedule, id)
  {
    var ids := PublicIds(FindByScheduleAndSeats(seats, schedule, seatIds));
    var reply := GetSeatsDetailsBatch(seats, schedule, seatIds);
    FoundHaveDistinctIds(seats, schedule, seatIds);
    ElementsCount(ids);
    ElementsCount(seatIds);
    forall id ensures id in ids <==> id in seatIds && HasSeat(seats, schedule, id) {
      PublicIdsMeaning(seats, schedule, seatIds, id);
    }
    forall id | id in seatIds ensures Lookup(reply, id).Some? <==> HasSeat(seats, schedule, id) {
      LookupFindsSeat(seats, schedule, seatIds, id);
    }
    if forall id :: id in seatIds ==> HasSeat(seats, schedule, id) {
      assert Elements(ids) == Elements(seatIds);
    }
  }

  /** Entry i of the resolution is the inventory row of seat i. */
  lemma ResolutionKeepsOrder(seats: seq<Seat>, schedule: Id, seatIds: seq<Id>, i: nat)
    requires UniqueSeatIds(seats) && i < |seatIds|
    requires ResolveSeatInventoryIds(GetSeatsDetailsBatch(seats, schedule, seatIds), seatIds).Some?
    ensures var r := ResolveSeatInventoryIds(GetSeatsDetailsBatch(seats, schedule, seatIds), seatIds).value;
            && |r| == |seatIds|
            && exists s :: s in seats && s.schedule == schedule && s.seatId == seatIds[i] && s.id == r[i]
  {
    assert seatIds[i] in seatIds;
    LookupFindsSeat(seats, schedule, seatIds, seatIds[i]);
  }

  /** The hold made from resolved ids carries, line by line, the seat ids the booking started from. */
  lemma HoldReturnsTheSeatIds(inventory: Inventory, request: HoldRequest, seatIds: seq<Id>)
    requires UniqueSeats(inventory.seats) && UniqueSeatIds(inventory.seats)
    requires ResolveSeatInventoryIds(GetSeatsDetailsBatch(inventory.seats, request.schedule, seatIds), seatIds)
             == Some(request.seats)
    requires Resolve(inventory, request).Some?
    ensures var lines := Resolve(inventory, request).value.lines;
            |lines| == |seatIds| && forall i :: 0 <= i < |lines| ==>
              lines[i].seatId == seatIds[i] && lines[i].seat == request.seats[i]
  {
    var lines := Resolve(inventory, request).value.lines;
    var found := FindManyByIds(inventory.seats, request.schedule, request.seats);
    forall i | 0 <= i < |lines| ensures lines[i].seatId == seatIds[i] && lines[i].seat == request.seats[i] {
      ResolutionKeepsOrder(inventory.seats, request.schedule, seatIds, i);
      var s :| s in inventory.seats && s.schedule == request.schedule
               && s.seatId == seatIds[i] && s.id == request.seats[i];
      assert request.seats[i] in request.seats;
      assert s in found;
      var hit := SeatWithId(found, request.seats[i]);
      assert hit.Some? && hit.value in inventory.seats && hit.value.id == s.id;
      var p :| 0 <= p < |inventory.seats| && inventory.seats[p] == hit.value;
      var q :| 0 <= q < |inventory.seats| && inventory.seats[q] == s;
      assert p == q;
    }
  }
}
