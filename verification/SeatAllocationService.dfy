/** The inventory-side service: `holdSeats`, `confirmSeats` and `cancelSeats` on its tables and Redis locks. */
module SeatAllocationService {
  import opened Prelude
  import opened Inventory
  import opened Allocations
  import opened SeatTransactions
  import opened AuditTrail
  import opened LockStore
  import opened OwnerMap

  /** `inv:lock:seat:{schedule}:{seat}:{from}:{to}`. */
  datatype SegmentKey = SegmentKey(schedule: Id, seat: Id, from: int, to: int)

  datatype HoldOutcome = Accepted(hold: Hold, holdExpiresAt: int) | Failed(reason: Reason) | Duplicate

  function LockKeys(schedule: Id, seats: seq<Id>, segment: Segment): (keys: seq<SegmentKey>)
    ensures |keys| == |seats|
  {
    var order := Sort(seats, ById);
    seq(|order|, i requires 0 <= i < |order| =>
      SegmentKey(schedule, order[i], segment.from.sequence, segment.to.sequence))
  }

  /** Redis will grant the locks of this request: no seat repeats and no key is taken. */
  ghost predicate LocksGrantable(held: map<SegmentKey, Id>, schedule: Id, seats: seq<Id>, segment: Segment) {
    && Distinct(seats)
    && (forall id :: id in seats ==>
          SegmentKey(schedule, id, segment.from.sequence, segment.to.sequence) !in held)
  }

  lemma LockKeysMeaning(held: map<SegmentKey, Id>, schedule: Id, seats: seq<Id>, segment: Segment)
    ensures var keys := LockKeys(schedule, seats, segment);
            LocksGrantable(held, schedule, seats, segment) <==> Distinct(keys) && forall k :: k in keys ==> k !in held
  {
    var keys, order := LockKeys(schedule, seats, segment), Sort(seats, ById);
    SortKeepsElements(seats, ById);
    ElementsCount(seats);
    ElementsCount(order);
    assert Distinct(seats) <==> Distinct(order);
    assert Distinct(order) <==> Distinct(keys) by {
      assert forall i | 0 <= i < |order| :: keys[i].seat == order[i];
    }
    forall id ensures id in seats <==> SegmentKey(schedule, id, segment.from.sequence, segment.to.sequence) in keys {
      assert id in seats <==> id in Elements(order);
      if i :| 0 <= i < |order| && order[i] == id {
        assert keys[i].seat == id;
      }
    }
    assert forall k | k in keys :: k == SegmentKey(schedule, k.seat, segment.from.sequence, segment.to.sequence);
  }

  /** The keys are taken in ascending order of their seats. */
  lemma LockKeysInOrder(schedule: Id, seats: seq<Id>, segment: Segment)
    ensures var keys := LockKeys(schedule, seats, segment);
            && (forall i, j :: 0 <= i < j < |keys| ==> keys[i].seat <= keys[j].seat)
            && (forall id :: id in seats <==> exists i :: 0 <= i < |keys| && keys[i].seat == id)
  {
    var keys, order := LockKeys(schedule, seats, segment), Sort(seats, ById);
    SortOrdered(seats, ById);
    SortKeepsElements(seats, ById);
    forall i, j | 0 <= i < j < |keys| ensures keys[i].seat <= keys[j].seat {
      assert ById(order[i], order[j]);
    }
    forall id ensures id in seats <==> exists i :: 0 <= i < |keys| && keys[i].seat == id {
      assert id in seats <==> id in Elements(order);
      if i :| 0 <= i < |order| && order[i] == id {
        assert keys[i].seat == id;
      }
    }
  }

  /** What stands in the way of a resolved hold in its transaction: a taken cell, or a row of the same booking. */
  ghost function CommitObstacle(owners: Owners, allocs: seq<Allocation>, hold: Hold): Option<Reason> {
    if !Free(owners, Requested(hold)) then Some(SEGMENT_CONFLICT)
    else if HasRowFor(allocs, hold.booking, hold.Seats()) then Some(INTERNAL_ERROR)
    else None
  }

  /** What stands in the way of a hold that has its Redis locks; None when it will commit. */
  ghost function LateObstacle(inventory: Inventory, owners: Owners, allocs: seq<Allocation>, request: HoldRequest)
    : Option<Reason>
  {
    if exists id :: id in request.seats && !Listed(inventory.seats, request.schedule, id) then Some(SEAT_NOT_FOUND)
    else if Resolve(inventory, request).None? then Some(SEGMENT_CONFLICT)
    else CommitObstacle(owners, allocs, Resolve(inventory, request).value)
  }

  /** The first thing that stands in the way of a hold; None when it will commit. */
  ghost function Obstacle(inventory: Inventory, active: set<Id>, held: map<SegmentKey, Id>, owners: Owners,
                          allocs: seq<Allocation>, request: HoldRequest): Option<Reason>
  {
    var segment := ResolveSegment(inventory.stops, request);
    if request.schedule !in active then Some(SCHEDULE_NOT_FOUND)
    else if segment.None? then Some(SEGMENT_CONFLICT)
    else if !LocksGrantable(held, request.schedule, request.seats, segment.value) then Some(SEAT_ALREADY_HELD)
    else LateObstacle(inventory, owners, allocs, request)
  }

  /** The hold that the request means, when its locks are free, its cells are free and its booking has no row there. */
  ghost predicate MayHold(inventory: Inventory, active: set<Id>, held: map<SegmentKey, Id>, owners: Owners,
                          allocs: seq<Allocation>, request: HoldRequest, hold: Hold)
  {
    && request.schedule in active && Distinct(request.seats)
    && (exists from, to, distance :: HoldMeans(inventory, request, hold, from, to, distance))
    && (forall id :: id in request.seats ==> SegmentKey(request.schedule, id, hold.from, hold.to) !in held)
    && Free(owners, Requested(hold))
    && (forall a :: a in allocs && a.booking == request.booking ==> a.seat !in request.seats)
  }

  ghost predicate Holdable(inventory: Inventory, active: set<Id>, held: map<SegmentKey, Id>, owners: Owners,
                           allocs: seq<Allocation>, request: HoldRequest)
  {
    exists hold :: MayHold(inventory, active, held, owners, allocs, request, hold)
  }

  /** The stops a request means are found, in route order. */
  ghost predicate Travels(stops: seq<RouteStop>, request: HoldRequest, from: RouteStop, to: RouteStop) {
    && Means(stops, request.schedule, request.fromSequence, request.fromStation, from)
    && Means(stops, request.schedule, request.toSequence, request.toStation, to)
    && from.sequence < to.sequence
  }

  lemma TravelsResolves(stops: seq<RouteStop>, request: HoldRequest, from: RouteStop, to: RouteStop)
    requires UniqueStops(stops)
    ensures Travels(stops, request, from, to) <==>
              ResolveSegment(stops, request).Some? && ResolveSegment(stops, request).value.from == from
              && ResolveSegment(stops, request).value.to == to
  {
    var length := to.distanceFromStart - from.distanceFromStart;
    ResolveSegmentExactly(stops, request, from, to, if length < 0 then 0 else length);
    if ResolveSegment(stops, request).Some? {
      var segment := ResolveSegment(stops, request).value;
      ResolveSegmentExactly(stops, request, segment.from, segment.to, segment.distance);
    }
  }

  lemma ResolvedTravels(inventory: Inventory, request: HoldRequest)
    requires UniqueSeats(inventory.seats) && UniqueStops(inventory.stops)
    requires Resolve(inventory, request).Some?
    ensures var hold, segment := Resolve(inventory, request).value, ResolveSegment(inventory.stops, request).value;
            && hold.from == segment.from.sequence && hold.to == segment.to.sequence
            && hold.Seats() == request.seats && hold.booking == request.booking
  {
    ResolvedIsWellFormed(inventory, request);
  }

  lemma NoRowForBooking(allocs: seq<Allocation>, booking: Id, seats: seq<Id>)
    ensures HasRowFor(allocs, booking, seats) <==> exists a :: a in allocs && a.booking == booking && a.seat in seats
  {
    if a :| a in allocs && a.booking == booking && a.seat in seats {
      var i :| 0 <= i < |allocs| && allocs[i] == a;
    }
  }

  /** Nothing stands in the way exactly of the hold that the request means and may have. */
  lemma NoObstacleExactly(inventory: Inventory, active: set<Id>, held: map<SegmentKey, Id>, owners: Owners,
                          allocs: seq<Allocation>, request: HoldRequest)
    requires UniqueSeats(inventory.seats) && UniqueStops(inventory.stops)
    ensures Obstacle(inventory, active, held, owners, allocs, request).None? <==>
              Holdable(inventory, active, held, owners, allocs, request)
  {
    NoRowForBooking(allocs, request.booking, request.seats);
    if Resolve(inventory, request).Some? {
      var hold := Resolve(inventory, request).value;
      ResolvesExactly(inventory, request, hold);
      ResolvedTravels(inventory, request);
      FetchSeatMapAccepts(inventory.seats, request.schedule, request.seats);
      assert Obstacle(inventory, active, held, owners, allocs, request).None? <==>
             MayHold(inventory, active, held, owners, allocs, request, hold);
    } else {
      ObstacleWithoutHold(inventory, active, held, owners, allocs, request);
    }
    if hold :| MayHold(inventory, active, held, owners, allocs, request, hold) {
      ResolvesExactly(inventory, request, hold);
    }
  }

  lemma ObstacleWithoutHold(inventory: Inventory, active: set<Id>, held: map<SegmentKey, Id>, owners: Owners,
                            allocs: seq<Allocation>, request: HoldRequest)
    requires UniqueSeats(inventory.seats) && Resolve(inventory, request).None?
    ensures Obstacle(inventory, active, held, owners, allocs, request).Some?
  {
    FetchSeatMapAccepts(inventory.seats, request.schedule, request.seats);
  }

  /** The request is for a running schedule, and its stops are found in order. */
  ghost predicate Journeys(inventory: Inventory, active: set<Id>, request: HoldRequest,
                           from: RouteStop, to: RouteStop)
  {
    request.schedule in active && Travels(inventory.stops, request, from, to)
  }

  /** Some seat is named twice, or locked on this very segment by another hold. */
  ghost predicate LockedOut(held: map<SegmentKey, Id>, request: HoldRequest, from: RouteStop, to: RouteStop) {
    || !Distinct(request.seats)
    || exists id :: id in request.seats && SegmentKey(request.schedule, id, from.sequence, to.sequence) in held
  }

  ghost predicate Unlisted(inventory: Inventory, request: HoldRequest) {
    exists id :: id in request.seats
                 && !exists s :: s in inventory.seats && s.schedule == request.schedule && s.id == id
  }

  /** The cells are free, but the booking has a row on one of the seats already. */
  ghost predicate RowInTheWay(inventory: Inventory, owners: Owners, allocs: seq<Allocation>, request: HoldRequest) {
    && (exists a :: a in allocs && a.booking == request.booking && a.seat in request.seats)
    && exists hold, from, to, distance ::
         HoldMeans(inventory, request, hold, from, to, distance) && Free(owners, Requested(hold))
  }

  lemma RowInTheWayExactly(inventory: Inventory, owners: Owners, allocs: seq<Allocation>, request: HoldRequest)
    requires UniqueSeats(inventory.seats) && UniqueStops(inventory.stops) && Resolve(inventory, request).Some?
    ensures var hold := Resolve(inventory, request).value;
            RowInTheWay(inventory, owners, allocs, request) <==>
              HasRowFor(allocs, hold.booking, hold.Seats()) && Free(owners, Requested(hold))
  {
    ResolvedTravels(inventory, request);
    NoRowForBooking(allocs, request.booking, request.seats);
    FetchSeatMapAccepts(inventory.seats, request.schedule, request.seats);
    var from, to, distance := ResolvedMeans(inventory, request);
    if hold, from', to', distance': nat :|
      HoldMeans(inventory, request, hold, from', to', distance') && Free(owners, Requested(hold))
    {
      MeaningResolves(inventory, request, hold, from', to', distance');
    }
  }

  lemma UnlistedExactly(inventory: Inventory, request: HoldRequest)
    requires UniqueSeats(inventory.seats) && Distinct(request.seats) && ResolveSegment(inventory.stops, request).Some?
    ensures Unlisted(inventory, request) <==> Resolve(inventory, request).None?
    ensures Unlisted(inventory, request) <==>
              exists id :: id in request.seats && !Listed(inventory.seats, request.schedule, id)
  {
    FetchSeatMapAccepts(inventory.seats, request.schedule, request.seats);
  }

  /** Which failure a request gets whose stops are found. */
  lemma ObstacleOnJourney(inventory: Inventory, active: set<Id>, held: map<SegmentKey, Id>, owners: Owners,
                          allocs: seq<Allocation>, request: HoldRequest, from: RouteStop, to: RouteStop)
    requires UniqueSeats(inventory.seats) && UniqueStops(inventory.stops)
    requires Journeys(inventory, active, request, from, to)
    ensures var obstacle := Obstacle(inventory, active, held, owners, allocs, request);
            if LockedOut(held, request, from, to) then obstacle == Some(SEAT_ALREADY_HELD)
            else if Unlisted(inventory, request) then obstacle == Some(SEAT_NOT_FOUND)
            else if RowInTheWay(inventory, owners, allocs, request) then obstacle == Some(INTERNAL_ERROR)
            else obstacle in {None, Some(SEGMENT_CONFLICT)}
  {
    TravelsResolves(inventory.stops, request, from, to);
    if !LockedOut(held, request, from, to) {
      UnlistedExactly(inventory, request);
      if !Unlisted(inventory, request) {
        RowInTheWayExactly(inventory, owners, allocs, request);
      }
    }
  }

  /** Without such stops the schedule does not run, or the journey makes no sense. */
  lemma ObstacleWithoutJourney(inventory: Inventory, active: set<Id>, held: map<SegmentKey, Id>, owners: Owners,
                               allocs: seq<Allocation>, request: HoldRequest)
    requires UniqueStops(inventory.stops)
    requires forall from, to :: !Journeys(inventory, active, request, from, to)
    ensures Obstacle(inventory, active, held, owners, allocs, request)
            == Some(if request.schedule in active then SEGMENT_CONFLICT else SCHEDULE_NOT_FOUND)
  {
    var segment := ResolveSegment(inventory.stops, request);
    if segment.Some? {
      TravelsResolves(inventory.stops, request, segment.value.from, segment.value.to);
      assert !Journeys(inventory, active, request, segment.value.from, segment.value.to);
    }
  }

  lemma LateObstacleCases(inventory: Inventory, owners: Owners, allocs: seq<Allocation>, request: HoldRequest)
    requires UniqueSeats(inventory.seats) && Distinct(request.seats)
    requires ResolveSegment(inventory.stops, request).Some?
    ensures FetchSeatMap(inventory.seats, request.schedule, request.seats).None? ==>
              LateObstacle(inventory, owners, allocs, request) == Some(SEAT_NOT_FOUND)
    ensures FetchSeatMap(inventory.seats, request.schedule, request.seats).Some? ==>
              && Resolve(inventory, request).Some?
              && LateObstacle(inventory, owners, allocs, request)
                 == CommitObstacle(owners, allocs, Resolve(inventory, request).value)
  {
    FetchSeatMapAccepts(inventory.seats, request.schedule, request.seats);
    ResolvedIsWellFormed(inventory, request);
  }

  /** The overlap query, on the sorted or the requested list, finds something exactly when a cell is taken. */
  lemma OverlapDecides(inventory: Inventory, allocs: seq<Allocation>, request: HoldRequest, hold: Hold)
    requires UniqueSeats(inventory.seats) && NoDoubleBooking(allocs) && Resolve(inventory, request) == Some(hold)
    ensures HasOverlappingAllocation(allocs, hold.schedule, SortedSeats(hold), hold.from, hold.to)
            <==> !Free(Abstract(allocs), Requested(hold))
    ensures HasOverlappingAllocation(allocs, hold.schedule, hold.Seats(), hold.from, hold.to)
            <==> !Free(Abstract(allocs), Requested(hold))
    ensures hold.event == request.event && hold.booking == request.booking && WellFormed(hold)
  {
    ResolvedIsWellFormed(inventory, request);
    OverlapQueryIsFreeness(allocs, hold);
    OverlapIgnoresOrder(allocs, hold);
  }

  lemma HoldOnceCommits(t: Tables, hold: Hold, expiresAt: int)
    requires HoldKey(hold.event) !in t.keys && !HasRowFor(t.allocs, hold.booking, hold.Seats())
    requires !HasOverlappingAllocation(t.allocs, hold.schedule, hold.Seats(), hold.from, hold.to)
    ensures var allocs := t.allocs + Rows(hold, expiresAt);
            HoldOnce(t, hold, expiresAt)
            == Tables.Tables(allocs, t.history + HoldLog(allocs, hold.booking),
                             t.keys + {HoldKey(hold.event)}, t.replies + [SeatsHeld(hold, expiresAt)])
    ensures HoldOnce(t, hold, expiresAt) != t
  {
    assert HoldKey(hold.event) in HoldOnce(t, hold, expiresAt).keys;
  }

  /**
   * A resolved hold commits exactly when its event is new, every requested cell is free and its booking has no row
   * on these seats; then it claims exactly its cells.
   */
  lemma HoldDecision(inventory: Inventory, t: Tables, request: HoldRequest, hold: Hold, expiresAt: int)
    requires UniqueSeats(inventory.seats) && NoDoubleBooking(t.allocs) && Resolve(inventory, request) == Some(hold)
    ensures HoldOnce(t, hold, expiresAt) != t <==>
              && HoldKey(request.event) !in t.keys && Free(Abstract(t.allocs), Requested(hold))
              && !HasRowFor(t.allocs, request.booking, request.seats)
    ensures HoldOnce(t, hold, expiresAt) != t ==>
              var after := HoldOnce(t, hold, expiresAt).allocs;
              NoDoubleBooking(after)
              && Abstract(after) == Abstract(t.allocs) + Claim(Requested(hold), request.booking)
  {
    OverlapDecides(inventory, t.allocs, request, hold);
    ResolvedIsWellFormed(inventory, request);
    if HoldKey(hold.event) !in t.keys && Free(Abstract(t.allocs), Requested(hold))
       && !HasRowFor(t.allocs, hold.booking, hold.Seats())
    {
      HoldOnceCommits(t, hold, expiresAt);
      HoldClaims(t.allocs, hold, expiresAt);
    }
  }

  /** The tables after a transaction run alone, told by what stood in the hold's way, are those of its delivery. */
  lemma DeliveredByObstacle(inventory: Inventory, t: Tables, t': Tables, request: HoldRequest, hold: Hold,
                            expiresAt: int)
    requires UniqueSeats(inventory.seats) && NoDoubleBooking(t.allocs) && Resolve(inventory, request) == Some(hold)
    requires HoldKey(request.event) in t.keys ==> t' == t
    requires HoldKey(request.event) !in t.keys ==>
               match CommitObstacle(Abstract(t.allocs), t.allocs, hold)
               case Some(reason) =>
                 t' == t.(replies := t.replies + [SeatsHoldFailed(request.event, request.booking, reason)])
               case None => t' == HoldOnce(t, hold, expiresAt)
    ensures t' == HoldDelivered(t, hold, expiresAt)
  {
    OverlapDecides(inventory, t.allocs, request, hold);
  }

  /** Without a matching row, the bulk update and its history change nothing. */
  lemma {:induction false} NothingToChange(allocs: seq<Allocation>, booking: Id, statuses: set<AllocationStatus>,
                                           to: AllocationStatus)
    requires MatchingRows(allocs, booking, statuses) == {}
    ensures SetStatus(allocs, booking, statuses, to) == allocs && ChangeLog(allocs, booking, statuses, to) == []
  {
    forall i: nat | i < |allocs| ensures !Matches(allocs[i], booking, statuses) {
      assert i !in MatchingRows(allocs, booking, statuses);
    }
    if allocs != [] {
      var init := allocs[..|allocs| - 1];
      assert MatchingRows(init, booking, statuses) == {} by {
        forall i: nat | i < |init| ensures !Matches(init[i], booking, statuses) {
          assert init[i] == allocs[i];
        }
      }
      NothingToChange(init, booking, statuses, to);
    }
  }

  /** The booking's rows in one of these statuses have turned to this one; everything else is as it was. */
  ghost predicate Turned(before: seq<Allocation>, after: seq<Allocation>, booking: Id,
                         statuses: set<AllocationStatus>, to: AllocationStatus)
  {
    && |after| == |before|
    && forall i :: 0 <= i < |before| ==>
         after[i] == if before[i].booking == booking && before[i].status in statuses
                     then before[i].(status := to) else before[i]
  }

  class SeatAllocationService {
    const inventory: Inventory
    const locks: LockStore<SegmentKey>
    var activeSchedules: set<Id>
    var allocs: seq<Allocation>
    var history: seq<History>
    var keys: set<EventKey>
    var replies: seq<Reply>

    ghost predicate Valid()
      reads this
    {
      && UniqueSeats(inventory.seats) && UniqueStops(inventory.stops)
      && NoDoubleBooking(allocs) && OneRowEach(allocs)
    }

    ghost function View(): Tables
      reads this
    {
      Tables.Tables(allocs, history, keys, replies)
    }

    constructor (inventory: Inventory, active: set<Id>)
      requires UniqueSeats(inventory.seats) && UniqueStops(inventory.stops)
      ensures Valid() && View() == Empty && this.inventory == inventory && activeSchedules == active
      ensures fresh(locks) && locks.held == map[]
    {
      this.inventory := inventory;
      locks := new LockStore<SegmentKey>();
      activeSchedules := active;
      allocs, history, keys, replies := [], [], {}, [];
    }

    /** `fail`: one failure reply, nothing else. */
    method Fail(request: HoldRequest, reason: Reason) returns (outcome: HoldOutcome)
      requires Valid()
      modifies this`replies
      ensures Valid() && outcome == Failed(reason)
      ensures View() == old(View()).(
                          replies := old(replies) + [SeatsHoldFailed(request.event, request.booking, reason)])
    {
      replies := replies + [SeatsHoldFailed(request.event, request.booking, reason)];
      return Failed(reason);
    }

    /** The outcome of a delivery, given what stood in its way. */
    twostate predicate Answered(request: HoldRequest, obstacle: Option<Reason>, now: int, outcome: HoldOutcome)
      reads this
    {
      match obstacle
      case Some(reason) =>
        && outcome == Failed(reason)
        && View() == old(View()).(replies := old(replies) + [SeatsHoldFailed(request.event, request.booking, reason)])
      case None =>
        && outcome.Accepted?
        && Resolve(inventory, request) == Some(outcome.hold) && outcome.holdExpiresAt == now + request.ttlMs
        && View() == HoldOnce(old(View()), outcome.hold, outcome.holdExpiresAt) != old(View())
        && Abstract(allocs) == old(Abstract(allocs)) + Claim(Requested(outcome.hold), request.booking)
        && Inserts(old(allocs), allocs, outcome.hold, now + request.ttlMs)
        && replies == old(replies) + [SeatsHeld(outcome.hold, now + request.ttlMs)]
        && keys == old(keys) + {HoldKey(request.event)}
    }

    /** Rows, history, key and reply of a hold that nothing stands in the way of. */
    method WriteHold(hold: Hold, holdExpiresAt: int)
      requires Valid() && WellFormed(hold)
      requires HoldKey(hold.event) !in keys && !HasRowFor(allocs, hold.booking, hold.Seats())
      requires !HasOverlappingAllocation(allocs, hold.schedule, hold.Seats(), hold.from, hold.to)
      modifies this`allocs, this`history, this`keys, this`replies
      ensures Valid() && View() == HoldOnce(old(View()), hold, holdExpiresAt) != old(View())
      ensures Abstract(allocs) == old(Abstract(allocs)) + Claim(Requested(hold), hold.booking)
      ensures Inserts(old(allocs), allocs, hold, holdExpiresAt)
      ensures replies == old(replies) + [SeatsHeld(hold, holdExpiresAt)] && keys == old(keys) + {HoldKey(hold.event)}
    {
      RowsAreInserted(allocs, hold, holdExpiresAt, allocs + Rows(hold, holdExpiresAt));
      HoldKeepsOneRowEach(allocs, hold, holdExpiresAt);
      OverlapQueryIsFreeness(allocs, hold);
      HoldClaims(allocs, hold, holdExpiresAt);
      HoldOnceCommits(View(), hold, holdExpiresAt);
      allocs := allocs + Rows(hold, holdExpiresAt);
      history := history + HoldLog(allocs, hold.booking);
      keys := keys + {HoldKey(hold.event)};
      replies := replies + [SeatsHeld(hold, holdExpiresAt)];
    }

    /** The statements after the check of the event key: row locks, overlap query, insert. */
    method WriteUnlessTaken(request: HoldRequest, hold: Hold, now: int) returns (outcome: HoldOutcome)
      requires Valid() && Resolve(inventory, request) == Some(hold) && HoldKey(request.event) !in keys
      modifies this`allocs, this`history, this`keys, this`replies
      ensures Valid()
      ensures Answered(request, CommitObstacle(old(Abstract(allocs)), old(allocs), hold), now, outcome)
    {
      var holdExpiresAt := now + request.ttlMs;
      ghost var obstacle := CommitObstacle(Abstract(allocs), allocs, hold);
      OverlapDecides(inventory, allocs, request, hold);
      if HasOverlappingAllocation(allocs, hold.schedule, SortedSeats(hold), hold.from, hold.to) {
        assert obstacle == Some(SEGMENT_CONFLICT);
        outcome := Fail(request, SEGMENT_CONFLICT);
      } else if HasRowFor(allocs, hold.booking, hold.Seats()) {
        assert obstacle == Some(INTERNAL_ERROR);
        outcome := Fail(request, INTERNAL_ERROR);
      } else {
        assert obstacle == None;
        WriteHold(hold, holdExpiresAt);
        outcome := Accepted(hold, holdExpiresAt);
      }
    }

    /**
     * `commitHoldTransaction`, run alone. A key recorded since the fast check answers as held and writes nothing.
     * Otherwise it commits exactly when the requested cells are free and the booking has no row on these seats,
     * and then claims exactly those cells.
     */
    method CommitHoldTransaction(request: HoldRequest, hold: Hold, now: int) returns (outcome: HoldOutcome)
      requires Valid() && Resolve(inventory, request) == Some(hold)
      modifies this`allocs, this`history, this`keys, this`replies
      ensures Valid()
      ensures HoldKey(request.event) in old(keys) ==>
                outcome == Accepted(hold, now + request.ttlMs) && View() == old(View())
      ensures HoldKey(request.event) !in old(keys) ==>
                Answered(request, CommitObstacle(old(Abstract(allocs)), old(allocs), hold), now, outcome)
      ensures View() == HoldDelivered(old(View()), hold, now + request.ttlMs)
    {
      ghost var before := View();
      if HoldKey(request.event) in keys {
        outcome := Accepted(hold, now + request.ttlMs);
      } else {
        outcome := WriteUnlessTaken(request, hold, now);
      }
      DeliveredByObstacle(inventory, before, View(), request, hold, now + request.ttlMs);
    }

    /** The part of `holdSeats` that runs with the Redis locks taken. */
    method HoldLocked(request: HoldRequest, now: int) returns (outcome: HoldOutcome)
      requires Valid() && HoldKey(request.event) !in keys
      requires Distinct(request.seats) && ResolveSegment(inventory.stops, request).Some?
      modifies this`allocs, this`history, this`keys, this`replies
      ensures Valid()
      ensures Answered(request, LateObstacle(inventory, old(Abstract(allocs)), old(allocs), request), now, outcome)
    {
      LateObstacleCases(inventory, Abstract(allocs), allocs, request);
      var found := FetchSeatMap(inventory.seats, request.schedule, request.seats);
      if found.None? {
        outcome := Fail(request, SEAT_NOT_FOUND);
      } else {
        outcome := CommitHoldTransaction(request, Resolve(inventory, request).value, now);
      }
    }

    /** A hold request whose event is new: schedule, segment, Redis locks, then the part that runs under them. */
    method AttemptHold(request: HoldRequest, now: int) returns (outcome: HoldOutcome)
      requires Valid() && HoldKey(request.event) !in keys
      modifies this`allocs, this`history, this`keys, this`replies, locks
      ensures Valid() && locks.held == old(locks.held)
      ensures Answered(request,
                       Obstacle(inventory, activeSchedules, old(locks.held), old(Abstract(allocs)),
                                old(allocs), request),
                       now, outcome)
    {
      if request.schedule !in activeSchedules {
        outcome := Fail(request, SCHEDULE_NOT_FOUND);
        return;
      }
      var segment := ResolveSegment(inventory.stops, request);
      if segment.None? {
        outcome := Fail(request, SEGMENT_CONFLICT);
        return;
      }
      var lockKeys := LockKeys(request.schedule, request.seats, segment.value);
      LockKeysMeaning(locks.held, request.schedule, request.seats, segment.value);
      var acquired := locks.Acquire(lockKeys, request.booking);
      if !acquired {
        outcome := Fail(request, SEAT_ALREADY_HELD);
        return;
      }
      outcome := HoldLocked(request, now);
      var _ := locks.Release(lockKeys, request.booking);
      ReleaseUndoesGrant(old(locks.held), lockKeys, request.booking);
    }

    /** One delivery of a hold request. */
    method HoldSeats(request: HoldRequest, now: int) returns (outcome: HoldOutcome)
      requires Valid()
      modifies this`allocs, this`history, this`keys, this`replies, locks
      ensures Valid() && locks.held == old(locks.held)
      ensures outcome.Duplicate? <==> HoldKey(request.event) in old(keys)
      ensures outcome.Duplicate? ==> View() == old(View())
      ensures !outcome.Duplicate? ==>
                Answered(request,
                         Obstacle(inventory, activeSchedules, old(locks.held), old(Abstract(allocs)),
                                  old(allocs), request),
                         now, outcome)
      ensures outcome.Accepted? <==>
                && HoldKey(request.event) !in old(keys)
                && Holdable(inventory, activeSchedules, old(locks.held), old(Abstract(allocs)), old(allocs), request)
    {
      ghost var obstacle := Obstacle(inventory, activeSchedules, locks.held, Abstract(allocs), allocs, request);
      NoObstacleExactly(inventory, activeSchedules, locks.held, Abstract(allocs), allocs, request);
      if HoldKey(request.event) in keys {
        return Duplicate;
      }
      outcome := AttemptHold(request, now);
      assert outcome.Accepted? <==> obstacle.None?;
    }

    /** One delivery of a confirm event: the booking's HELD rows become CONFIRMED, and no cell changes hands. */
    method ConfirmSeats(event: Id, booking: Id)
      requires Valid()
      modifies this`allocs, this`history, this`keys
      ensures Valid() && View() == ChangeOnce(old(View()), Confirm, event, booking)
      ensures Abstract(allocs) == old(Abstract(allocs))
      ensures ConfirmKey(event) !in old(keys) ==> Turned(old(allocs), allocs, booking, {HELD}, CONFIRMED)
      ensures keys == old(keys) + {ConfirmKey(event)}
    {
      ConfirmKeepsOwners(allocs, booking);
      if ConfirmKey(event) in keys {
        return;
      }
      if MatchingRows(allocs, booking, {HELD}) == {} {
        NothingToChange(allocs, booking, {HELD}, CONFIRMED);
      } else {
        history := history + ChangeLog(allocs, booking, {HELD}, CONFIRMED);
        allocs := SetStatus(allocs, booking, {HELD}, CONFIRMED);
      }
      keys := keys + {ConfirmKey(event)};
    }

    /** One delivery of a release event: unless it was handled before, exactly the booking's cells become free. */
    method CancelSeats(event: Id, booking: Id)
      requires Valid()
      modifies this`allocs, this`history, this`keys
      ensures Valid() && View() == ChangeOnce(old(View()), Cancel, event, booking)
      ensures Abstract(allocs) == if CancelKey(event) in old(keys) then old(Abstract(allocs))
                                  else Release(old(Abstract(allocs)), booking)
      ensures CancelKey(event) !in old(keys) ==> Turned(old(allocs), allocs, booking, {HELD, CONFIRMED}, CANCELLED)
      ensures keys == old(keys) + {CancelKey(event)}
    {
      CancelReleases(allocs, booking);
      if CancelKey(event) in keys {
        return;
      }
      if MatchingRows(allocs, booking, {HELD, CONFIRMED}) == {} {
        NothingToChange(allocs, booking, {HELD, CONFIRMED}, CANCELLED);
      } else {
        history := history + ChangeLog(allocs, booking, {HELD, CONFIRMED}, CANCELLED);
        allocs := SetStatus(allocs, booking, {HELD, CONFIRMED}, CANCELLED);
      }
      keys := keys + {CancelKey(event)};
    }
  }
}
