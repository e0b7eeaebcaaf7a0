/**
 * What a hold request means against the schedule projection: the segment it resolves to, the seats it
 * names and what they cost. The projection tables do not change while bookings run.
 */
module Inventory {
  import opened Prelude
  import Money

  const MAX_POSTGRES_INT := 2147483647

  datatype RouteStop = RouteStop(schedule: Id, station: Id, sequence: int, distanceFromStart: int)
  datatype Seat = Seat(id: Id, schedule: Id, coach: Id, seatId: Id, seatNumber: nat, pricePerKm: nat)
  datatype Inventory = Projected(stops: seq<RouteStop>, seats: seq<Seat>)

  /** `HoldSeatsRequestedV1`. */
  datatype HoldRequest = HoldRequest(
    event: Id, booking: Id, schedule: Id, seats: seq<Id>, fromStation: Id, toStation: Id,
    fromSequence: int, toSequence: int, ttlMs: nat)

  /** One requested seat: its inventory row, the public seat id and the price of the journey. */
  datatype Line = Line(seat: Id, seatId: Id, price: nat)

  /** The same request once its segment and its seats have been resolved. */
  datatype Hold = Hold(event: Id, booking: Id, schedule: Id, lines: seq<Line>, from: int, to: int)
  {
    function Seats(): (r: seq<Id>)
      ensures |r| == |lines|
    {
      seq(|lines|, i requires 0 <= i < |lines| => lines[i].seat)
    }

    function Prices(): (r: seq<nat>)
      ensures |r| == |lines|
    {
      seq(|lines|, i requires 0 <= i < |lines| => lines[i].price)
    }
  }

  /** The primary key of seat_inventory. */
  ghost predicate UniqueSeats(seats: seq<Seat>) {
    forall i, j :: 0 <= i < j < |seats| ==> seats[i].id != seats[j].id
  }

  // ---- Segment ----

  function StopAt(stops: seq<RouteStop>, schedule: Id, sequence: int): (r: Option<RouteStop>)
    ensures r.Some? ==> r.value in stops && r.value.schedule == schedule && r.value.sequence == sequence
    ensures r.None? ==> forall s :: s in stops ==> s.schedule != schedule || s.sequence != sequence
  {
    if stops == [] then None
    else if stops[0].schedule == schedule && stops[0].sequence == sequence then Some(stops[0])
    else StopAt(stops[1..], schedule, sequence)
  }

  function StopOfStation(stops: seq<RouteStop>, schedule: Id, station: Id): (r: Option<RouteStop>)
    ensures r.Some? ==> r.value in stops && r.value.schedule == schedule && r.value.station == station
    ensures r.None? ==> forall s :: s in stops ==> s.schedule != schedule || s.station != station
  {
    if stops == [] then None
    else if stops[0].schedule == schedule && stops[0].station == station then Some(stops[0])
    else StopOfStation(stops[1..], schedule, station)
  }

  /** A stop by sequence number when that is a usable number, else by station. */
  function ResolveStop(stops: seq<RouteStop>, schedule: Id, sequence: int, station: Id): (r: Option<RouteStop>)
    ensures r.Some? ==> r.value in stops && r.value.schedule == schedule
  {
    var bySequence :=
      if 0 < sequence <= MAX_POSTGRES_INT then StopAt(stops, schedule, sequence) else None;
    if bySequence.Some? then bySequence else StopOfStation(stops, schedule, station)
  }

  datatype Segment = Segment(from: RouteStop, to: RouteStop, distance: nat)

  function ResolveSegment(stops: seq<RouteStop>, request: HoldRequest): (r: Option<Segment>)
    ensures r.Some? ==>
      && r.value.from in stops && r.value.to in stops
      && r.value.from.schedule == r.value.to.schedule == request.schedule
      && r.value.from.sequence < r.value.to.sequence
  {
    var from := ResolveStop(stops, request.schedule, request.fromSequence, request.fromStation);
    var to := ResolveStop(stops, request.schedule, request.toSequence, request.toStation);
    if from.None? || to.None? || from.value.sequence >= to.value.sequence then None
    else
      var length := to.value.distanceFromStart - from.value.distanceFromStart;
      Some(Segment(from.value, to.value, if length < 0 then 0 else length))
  }

  /** The unique indexes of route_stops: one stop per sequence number and per station of a schedule. */
  ghost predicate UniqueStops(stops: seq<RouteStop>) {
    forall s, t :: s in stops && t in stops && s.schedule == t.schedule ==>
                     (s.sequence == t.sequence || s.station == t.station ==> s == t)
  }

  ghost predicate HasSequence(stops: seq<RouteStop>, schedule: Id, sequence: int) {
    0 < sequence <= 2147483647 && exists s :: s in stops && s.schedule == schedule && s.sequence == sequence
  }

  /** The stop a request means: the one with its sequence number if there is one, else the one at its station. */
  ghost predicate Means(stops: seq<RouteStop>, schedule: Id, sequence: int, station: Id, stop: RouteStop) {
    && stop in stops && stop.schedule == schedule
    && if HasSequence(stops, schedule, sequence) then stop.sequence == sequence else stop.station == station
  }

  lemma ResolveStopExactly(stops: seq<RouteStop>, schedule: Id, sequence: int, station: Id, stop: RouteStop)
    requires UniqueStops(stops)
    ensures ResolveStop(stops, schedule, sequence, station) == Some(stop) <==>
              Means(stops, schedule, sequence, station, stop)
  {
  }

  /** A request resolves exactly to the two stops it means, in route order, and the distance between them. */
  lemma ResolveSegmentExactly(stops: seq<RouteStop>, request: HoldRequest,
                              from: RouteStop, to: RouteStop, distance: nat)
    requires UniqueStops(stops)
    ensures ResolveSegment(stops, request) == Some(Segment(from, to, distance)) <==>
              && Means(stops, request.schedule, request.fromSequence, request.fromStation, from)
              && Means(stops, request.schedule, request.toSequence, request.toStation, to)
              && from.sequence < to.sequence
              && (to.distanceFromStart >= from.distanceFromStart ==>
                    distance == to.distanceFromStart - from.distanceFromStart)
              && (to.distanceFromStart < from.distanceFromStart ==> distance == 0)
  {
    ResolveStopExactly(stops, request.schedule, request.fromSequence, request.fromStation, from);
    ResolveStopExactly(stops, request.schedule, request.toSequence, request.toStation, to);
  }

  // ---- Seats ----

  /** `findManyByIds`: the rows of a schedule whose id is in the list, each once, in table order. */
  function FindManyByIds(seats: seq<Seat>, schedule: Id, ids: seq<Id>): (r: seq<Seat>)
    ensures forall s :: s in r <==> s in seats && s.schedule == schedule && s.id in ids
  {
    if seats == [] then []
    else
      (if seats[0].schedule == schedule && seats[0].id in ids then [seats[0]] else [])
      + FindManyByIds(seats[1..], schedule, ids)
  }

  /** `fetchSeatMap`: the rows, or None unless as many rows came back as ids were asked for. */
  function FetchSeatMap(seats: seq<Seat>, schedule: Id, ids: seq<Id>): Option<seq<Seat>> {
    var found := FindManyByIds(seats, schedule, ids);
    if |found| != |ids| then None else Some(found)
  }

  predicate Listed(seats: seq<Seat>, schedule: Id, id: Id) {
    exists s :: s in seats && s.schedule == schedule && s.id == id
  }

  ghost function IdsOf(seats: seq<Seat>): seq<Id> {
    seq(|seats|, i requires 0 <= i < |seats| => seats[i].id)
  }

  lemma {:induction false} FoundSeatsAreUnique(seats: seq<Seat>, schedule: Id, ids: seq<Id>)
    requires UniqueSeats(seats)
    ensures Distinct(IdsOf(FindManyByIds(seats, schedule, ids)))
  {
    if seats != [] {
      FoundSeatsAreUnique(seats[1..], schedule, ids);
      var rest := FindManyByIds(seats[1..], schedule, ids);
      forall j | 0 <= j < |rest| ensures rest[j].id != seats[0].id {
        assert rest[j] in seats[1..];
      }
      var all := FindManyByIds(seats, schedule, ids);
      assert all == rest || all == [seats[0]] + rest;
      assert IdsOf(all) == IdsOf(rest) || IdsOf(all) == [seats[0].id] + IdsOf(rest);
      assert forall j | 0 <= j < |rest| :: IdsOf(rest)[j] != seats[0].id;
    }
  }

  /**
   * The length check alone rejects repeated ids and unknown ids: a pigeonhole argument over the primary key.
   */
  lemma FetchSeatMapAccepts(seats: seq<Seat>, schedule: Id, ids: seq<Id>)
    requires UniqueSeats(seats)
    ensures FetchSeatMap(seats, schedule, ids).Some?
            <==> Distinct(ids) && forall id :: id in ids ==> Listed(seats, schedule, id)
  {
    var found := FindManyByIds(seats, schedule, ids);
    var foundIds := IdsOf(found);
    FoundSeatsAreUnique(seats, schedule, ids);
    ElementsCount(foundIds);
    ElementsCount(ids);
    forall id ensures id in foundIds <==> id in ids && Listed(seats, schedule, id) {
      if id in foundIds {
        var i :| 0 <= i < |foundIds| && foundIds[i] == id;
        assert found[i] in found;
      }
      if id in ids && Listed(seats, schedule, id) {
        var s :| s in seats && s.schedule == schedule && s.id == id;
        var i :| 0 <= i < |found| && found[i] == s;
        assert foundIds[i] == id;
      }
    }
    var named, wanted := Elements(foundIds), Elements(ids);
    assert named <= wanted;
    SubsetCount(named, wanted);
    if forall id :: id in ids ==> Listed(seats, schedule, id) {
      assert named == wanted;
    } else {
      var id :| id in ids && !Listed(seats, schedule, id);
      assert id in wanted && id !in named;
    }
  }

  lemma {:induction false} SubsetCount<T>(a: set<T>, b: set<T>)
    requires a <= b
    ensures |a| <= |b|
    ensures |a| == |b| ==> a == b
  {
    assert b == a + (b - a);
    assert |b| == |a| + |b - a|;
  }

  // ---- The resolved hold ----

  function SeatWithId(seats: seq<Seat>, id: Id): (r: Option<Seat>)
    ensures r.Some? ==> r.value in seats && r.value.id == id
    ensures r.None? ==> forall s :: s in seats ==> s.id != id
  {
    if seats == [] then None
    else if seats[0].id == id then Some(seats[0]) else SeatWithId(seats[1..], id)
  }

  /** One line per requested seat, in the order of the request. */
  function Lines(found: seq<Seat>, ids: seq<Id>, distance: nat): (r: seq<Line>)
    ensures |r| == |ids|
  {
    seq(|ids|, i requires 0 <= i < |ids| =>
      match SeatWithId(found, ids[i])
      case Some(seat) => Line(ids[i], seat.seatId, Money.SeatPrice(distance, seat.pricePerKm))
      case None => Line(ids[i], 0, 0))
  }

  /** Steps 3 and 5 of `holdSeats`; None when either of them ends the hold. */
  function Resolve(inventory: Inventory, request: HoldRequest): (r: Option<Hold>) {
    var segment := ResolveSegment(inventory.stops, request);
    var found := FetchSeatMap(inventory.seats, request.schedule, request.seats);
    if segment.None? || found.None? then None
    else
      Some(Hold(request.event, request.booking, request.schedule,
                Lines(found.value, request.seats, segment.value.distance),
                segment.value.from.sequence, segment.value.to.sequence))
  }

  lemma ResolveKeepsIds(inventory: Inventory, request: HoldRequest)
    requires Resolve(inventory, request).Some?
    ensures var hold := Resolve(inventory, request).value;
            hold.event == request.event && hold.booking == request.booking && hold.schedule == request.schedule
  {
  }

  ghost predicate WellFormed(hold: Hold) {
    hold.from < hold.to && Distinct(hold.Seats())
  }

  /** A resolved hold is for exactly the requested seats, each once, and a non-empty segment of the route. */
  lemma ResolvedIsWellFormed(inventory: Inventory, request: HoldRequest)
    requires UniqueSeats(inventory.seats)
    ensures var r := Resolve(inventory, request);
            r.Some? ==> WellFormed(r.value) && r.value.Seats() == request.seats
  {
    FetchSeatMapAccepts(inventory.seats, request.schedule, request.seats);
    var r := Resolve(inventory, request);
    if r.Some? {
      assert r.value.Seats() == request.seats;
    }
  }

  // ---- What a resolved hold says ----

  /** So many kilometres from one stop to the other, and none when the numbers run backwards. */
  ghost predicate Apart(from: RouteStop, to: RouteStop, distance: nat) {
    && (to.distanceFromStart >= from.distanceFromStart ==> distance == to.distanceFromStart - from.distanceFromStart)
    && (to.distanceFromStart < from.distanceFromStart ==> distance == 0)
  }

  /** The line names a seat of the schedule, by both its ids, and its fare. */
  ghost predicate LineMeans(seats: seq<Seat>, schedule: Id, id: Id, distance: nat, line: Line) {
    exists s :: s in seats && s.schedule == schedule && s.id == id
                && line.seat == s.id && line.seatId == s.seatId && Money.IsFare(distance, s.pricePerKm, line.price)
  }

  /** The hold travels between these stops and has one line per requested seat, in order. */
  ghost predicate HoldMeans(inventory: Inventory, request: HoldRequest, hold: Hold, from: RouteStop, to: RouteStop,
                            distance: nat)
  {
    && hold.event == request.event && hold.booking == request.booking && hold.schedule == request.schedule
    && Means(inventory.stops, request.schedule, request.fromSequence, request.fromStation, from)
    && Means(inventory.stops, request.schedule, request.toSequence, request.toStation, to)
    && hold.from == from.sequence < to.sequence == hold.to && Apart(from, to, distance)
    && |hold.lines| == |request.seats|
    && forall i :: 0 <= i < |hold.lines| ==>
         LineMeans(inventory.seats, request.schedule, request.seats[i], distance, hold.lines[i])
  }

  lemma SameSeat(seats: seq<Seat>, s: Seat, t: Seat)
    requires UniqueSeats(seats) && s in seats && t in seats && s.id == t.id
    ensures s == t
  {
    var i :| 0 <= i < |seats| && seats[i] == s;
    var j :| 0 <= j < |seats| && seats[j] == t;
    assert i == j;
  }

  lemma LineExactly(seats: seq<Seat>, schedule: Id, ids: seq<Id>, distance: nat, i: nat, line: Line)
    requires UniqueSeats(seats) && i < |ids| && Listed(seats, schedule, ids[i])
    ensures line == Lines(FindManyByIds(seats, schedule, ids), ids, distance)[i] <==>
              LineMeans(seats, schedule, ids[i], distance, line)
  {
    var found := FindManyByIds(seats, schedule, ids);
    var s :| s in seats && s.schedule == schedule && s.id == ids[i];
    assert ids[i] in ids && s in found;
    var hit := SeatWithId(found, ids[i]);
    SameSeat(seats, s, hit.value);
    Money.SeatPriceIsFare(distance, s.pricePerKm, line.price);
    if LineMeans(seats, schedule, ids[i], distance, line) {
      var t :| t in seats && t.schedule == schedule && t.id == ids[i] && line.seat == t.id
               && line.seatId == t.seatId && Money.IsFare(distance, t.pricePerKm, line.price);
      SameSeat(seats, s, t);
    }
  }

  lemma SegmentMeans(inventory: Inventory, request: HoldRequest)
    requires UniqueStops(inventory.stops) && ResolveSegment(inventory.stops, request).Some?
    ensures var segment := ResolveSegment(inventory.stops, request).value;
            && Means(inventory.stops, request.schedule, request.fromSequence, request.fromStation, segment.from)
            && Means(inventory.stops, request.schedule, request.toSequence, request.toStation, segment.to)
            && segment.from.sequence < segment.to.sequence && Apart(segment.from, segment.to, segment.distance)
  {
    var segment := ResolveSegment(inventory.stops, request).value;
    ResolveSegmentExactly(inventory.stops, request, segment.from, segment.to, segment.distance);
  }

  /** The hold a request resolves to is for the stops it means, its seats, and their fares over that distance. */
  lemma ResolvedMeans(inventory: Inventory, request: HoldRequest)
    returns (from: RouteStop, to: RouteStop, distance: nat)
    requires UniqueSeats(inventory.seats) && UniqueStops(inventory.stops) && Resolve(inventory, request).Some?
    ensures HoldMeans(inventory, request, Resolve(inventory, request).value, from, to, distance)
  {
    var hold, segment := Resolve(inventory, request).value, ResolveSegment(inventory.stops, request).value;
    from, to, distance := segment.from, segment.to, segment.distance;
    SegmentMeans(inventory, request);
    FetchSeatMapAccepts(inventory.seats, request.schedule, request.seats);
    forall i | 0 <= i < |hold.lines|
      ensures LineMeans(inventory.seats, request.schedule, request.seats[i], distance, hold.lines[i])
    {
      assert request.seats[i] in request.seats;
      LineExactly(inventory.seats, request.schedule, request.seats, distance, i, hold.lines[i]);
    }
  }

  lemma MeaningResolves(inventory: Inventory, request: HoldRequest, hold: Hold, from: RouteStop, to: RouteStop,
                        distance: nat)
    requires UniqueSeats(inventory.seats) && UniqueStops(inventory.stops) && Distinct(request.seats)
    requires HoldMeans(inventory, request, hold, from, to, distance)
    ensures Resolve(inventory, request) == Some(hold)
  {
    var seats, ids := inventory.seats, request.seats;
    forall id | id in ids ensures Listed(seats, request.schedule, id) {
      var i :| 0 <= i < |ids| && ids[i] == id;
      assert LineMeans(seats, request.schedule, ids[i], distance, hold.lines[i]);
    }
    FetchSeatMapAccepts(seats, request.schedule, ids);
    ResolveSegmentExactly(inventory.stops, request, from, to, distance);
    var lines := Lines(FindManyByIds(seats, request.schedule, ids), ids, distance);
    forall i | 0 <= i < |lines| ensures lines[i] == hold.lines[i] {
      assert ids[i] in ids && LineMeans(seats, request.schedule, ids[i], distance, hold.lines[i]);
      LineExactly(seats, request.schedule, ids, distance, i, hold.lines[i]);
    }
    assert lines == hold.lines;
  }

  /** A request resolves exactly to the hold it means, and only when it names no seat twice. */
  lemma ResolvesExactly(inventory: Inventory, request: HoldRequest, hold: Hold)
    requires UniqueSeats(inventory.seats) && UniqueStops(inventory.stops)
    ensures Resolve(inventory, request) == Some(hold) <==>
              Distinct(request.seats)
              && exists from, to, distance :: HoldMeans(inventory, request, hold, from, to, distance)
  {
    if Resolve(inventory, request) == Some(hold) {
      var from, to, distance := ResolvedMeans(inventory, request);
      FetchSeatMapAccepts(inventory.seats, request.schedule, request.seats);
    }
    if from, to, distance: nat :|
      HoldMeans(inventory, request, hold, from, to, distance) && Distinct(request.seats)
    {
      MeaningResolves(inventory, request, hold, from, to, distance);
    }
  }
}
