/** The seat map: which seats are shown as taken on a segment, and how they are grouped into coaches. */
module SeatMap {
  import opened Prelude
  import opened Inventory
  import opened Allocations
  import EndToEnd
  import Guarantees
  import Money

  datatype SeatStatus = AVAILABLE | SEAT_HELD | BOOKED

  datatype CoachSeat = CoachSeat(seatId: Id, seatNumber: nat, price: nat, isBooked: bool, status: SeatStatus)

  datatype Coach = Coach(coachId: Id, totalSeats: nat, seats: seq<CoachSeat>)

  // ---- Which seats are taken ----

  /** The where-clause of `findActiveAllocationsBySegment`. */
  predicate Shown(a: Allocation, schedule: Id, from: int, to: int, now: int) {
    && a.schedule == schedule
    && (a.status == CONFIRMED || (a.status == HELD && a.holdExpiresAt > now))
    && a.from < to && a.to > from
  }

  function FindShown(allocs: seq<Allocation>, schedule: Id, from: int, to: int, now: int): (r: seq<Allocation>)
    ensures forall a :: a in r <==> a in allocs && Shown(a, schedule, from, to, now)
  {
    if allocs == [] then []
    else
      (if Shown(allocs[0], schedule, from, to, now) then [allocs[0]] else [])
      + FindShown(allocs[1..], schedule, from, to, now)
  }

  /** The status map: a later row overwrites an earlier one of the same seat. */
  method StatusBySeat(rows: seq<Allocation>) returns (statuses: map<Id, AllocationStatus>)
    ensures forall id :: id in statuses <==> exists a :: a in rows && a.seat == id
    ensures forall id :: id in statuses ==>
              LastHas(rows, id, statuses[id])
  {
    statuses := map[];
    for n := 0 to |rows|
      invariant forall id :: id in statuses <==> exists i :: 0 <= i < n && rows[i].seat == id
      invariant forall id :: id in statuses ==>
                  exists i :: 0 <= i < n && rows[i].seat == id && rows[i].status == statuses[id]
                              && forall j :: i < j < n ==> rows[j].seat != id
    {
      statuses := statuses[rows[n].seat := rows[n].status];
    }
  }

  function StatusOf(statuses: map<Id, AllocationStatus>, id: Id): SeatStatus {
    if id !in statuses then AVAILABLE
    else if statuses[id] == CONFIRMED then BOOKED
    else if statuses[id] == HELD then SEAT_HELD
    else AVAILABLE
  }

  function Entry(seat: Seat, statuses: map<Id, AllocationStatus>, distance: nat): CoachSeat {
    var status := StatusOf(statuses, seat.id);
    CoachSeat(seat.seatId, seat.seatNumber, Money.DisplayedPrice(distance, seat.pricePerKm),
              status != AVAILABLE, status)
  }

  /** The last row of this seat has this status. */
  ghost predicate LastHas(rows: seq<Allocation>, id: Id, status: AllocationStatus) {
    exists i :: 0 <= i < |rows| && rows[i].seat == id && rows[i].status == status
                && forall j :: i < j < |rows| ==> rows[j].seat != id
  }

  /** The map the rows of a segment produce: each seat that has a row, with the status of its last one. */
  ghost predicate StatusesOf(statuses: map<Id, AllocationStatus>, rows: seq<Allocation>) {
    && (forall id :: id in statuses <==> exists a :: a in rows && a.seat == id)
    && (forall id :: id in statuses ==> LastHas(rows, id, statuses[id]))
  }

  /** The seat under its public id, at its fare over this distance, and marked by its status in the map. */
  ghost predicate EntryMeans(seat: Seat, statuses: map<Id, AllocationStatus>, distance: nat, entry: CoachSeat) {
    && entry.seatId == seat.seatId && entry.seatNumber == seat.seatNumber
    && (distance > 0 ==> entry.price % 100 == 0 && Money.IsFare(distance, seat.pricePerKm, entry.price / 100))
    && (distance == 0 ==> entry.price == seat.pricePerKm)
    && (entry.status == BOOKED <==> seat.id in statuses && statuses[seat.id] == CONFIRMED)
    && (entry.status == SEAT_HELD <==> seat.id in statuses && statuses[seat.id] == HELD)
    && (entry.isBooked <==> entry.status != AVAILABLE)
  }

  lemma EntryIsMeant(seat: Seat, statuses: map<Id, AllocationStatus>, distance: nat)
    ensures EntryMeans(seat, statuses, distance, Entry(seat, statuses, distance))
  {
    Money.SeatPriceIsFare(distance, seat.pricePerKm, Money.SeatPrice(distance, seat.pricePerKm));
  }

  /**
   * A seat is shown as taken exactly when a CONFIRMED or unexpired HELD row overlaps the segment, and every
   * seat shown as taken would be refused by the overlap check of a hold.
   */
  lemma TakenMeansRefused(allocs: seq<Allocation>, schedule: Id, from: int, to: int, now: int,
                          statuses: map<Id, AllocationStatus>, seat: Seat, distance: nat)
    requires StatusesOf(statuses, FindShown(allocs, schedule, from, to, now))
    ensures Entry(seat, statuses, distance).isBooked
            <==> exists a :: a in allocs && a.seat == seat.id && Shown(a, schedule, from, to, now)
    ensures Entry(seat, statuses, distance).isBooked ==>
              HasOverlappingAllocation(allocs, schedule, [seat.id], from, to)
  {
    var rows := FindShown(allocs, schedule, from, to, now);
    if seat.id in statuses {
      assert LastHas(rows, seat.id, statuses[seat.id]);
      var k :| 0 <= k < |rows| && rows[k].seat == seat.id && rows[k].status == statuses[seat.id];
      var a := rows[k];
      assert a in rows;
      assert Shown(a, schedule, from, to, now);
      var i :| 0 <= i < |allocs| && allocs[i] == a;
      assert allocs[i].Clashes(schedule, [seat.id], from, to);
    }
  }

  /** An expired hold is not shown but still blocks. */
  ghost predicate ExpiredHold(a: Allocation, schedule: Id, from: int, to: int, now: int) {
    a.schedule == schedule && a.status == HELD && a.holdExpiresAt <= now && a.from < to && a.to > from
  }

  /** A seat shown as available is refused exactly when an expired hold still lies on the segment. */
  lemma AvailableButRefused(allocs: seq<Allocation>, schedule: Id, from: int, to: int, now: int,
                            statuses: map<Id, AllocationStatus>, seat: Seat, distance: nat)
    requires StatusesOf(statuses, FindShown(allocs, schedule, from, to, now))
    requires !Entry(seat, statuses, distance).isBooked
    ensures HasOverlappingAllocation(allocs, schedule, [seat.id], from, to)
            <==> exists a :: a in allocs && a.seat == seat.id && ExpiredHold(a, schedule, from, to, now)
  {
    TakenMeansRefused(allocs, schedule, from, to, now, statuses, seat, distance);
    if i :| 0 <= i < |allocs| && allocs[i].Clashes(schedule, [seat.id], from, to) {
      assert allocs[i] in allocs && !Shown(allocs[i], schedule, from, to, now);
      assert ExpiredHold(allocs[i], schedule, from, to, now);
    }
    if a :| a in allocs && a.seat == seat.id && ExpiredHold(a, schedule, from, to, now) {
      var i :| 0 <= i < |allocs| && allocs[i] == a;
      assert allocs[i].Clashes(schedule, [seat.id], from, to);
    }
  }

  /** A reachable table: the only seat is held until 1, so at 2 the map shows it as available and a hold is refused. */
  lemma ExpiredHoldStillRefuses() returns (actions: seq<EndToEnd.Action>)
    ensures var allocs := EndToEnd.Run(Guarantees.OneSeat, actions).seats.allocs;
            && StatusesOf(map[], FindShown(allocs, 1, 1, 2, 2))
            && Entry(Guarantees.OneSeat.seats[0], map[], 100).status == AVAILABLE
            && HasOverlappingAllocation(allocs, 1, [5], 1, 2)
  {
    actions := Guarantees.HoldCommits();
    var allocs := EndToEnd.Run(Guarantees.OneSeat, actions).seats.allocs;
    assert Guarantees.OneHold.Seats() == [5];
    assert allocs[0] == Rows(Guarantees.OneHold, 1)[0];
    assert ExpiredHold(allocs[0], 1, 1, 2, 2) && allocs[0].seat == 5;
    AvailableButRefused(allocs, 1, 1, 2, 2, map[], Guarantees.OneSeat.seats[0], 100);
  }

  lemma OverlapIsOneRow(allocs: seq<Allocation>, i: nat, j: nat)
    requires NoDoubleBooking(allocs) && i < |allocs| && j < |allocs| && allocs[i].Active() && allocs[j].Active()
    requires allocs[i].schedule == allocs[j].schedule && allocs[i].seat == allocs[j].seat
    requires allocs[i].from < allocs[j].to && allocs[j].from < allocs[i].to
    ensures i == j
  {
  }

  /** A seat that has just been held is marked from the commit until its hold expires, and is on offer after that. */
  lemma FreshHoldIsMarked(before: seq<Allocation>, after: seq<Allocation>, hold: Hold, until: int, i: nat,
                          from: int, to: int, now: int, statuses: map<Id, AllocationStatus>, seat: Seat, distance: nat)
    requires Inserts(before, after, hold, until) && NoDoubleBooking(after)
    requires i < |hold.lines| && seat.id == hold.lines[i].seat && hold.from <= from < to <= hold.to
    requires StatusesOf(statuses, FindShown(after, hold.schedule, from, to, now))
    ensures Entry(seat, statuses, distance).status == if now < until then SEAT_HELD else AVAILABLE
  {
    var rows, n := FindShown(after, hold.schedule, from, to, now), |before| + i;
    var a := after[n];
    assert HeldFor(a, hold, i, until);
    forall b | b in after && b.seat == seat.id && Shown(b, hold.schedule, from, to, now) ensures b == a {
      var k :| 0 <= k < |after| && after[k] == b;
      OverlapIsOneRow(after, k, n);
    }
    if now < until {
      assert a in rows;
    }
    if seat.id in statuses {
      assert LastHas(rows, seat.id, statuses[seat.id]);
      var k :| 0 <= k < |rows| && rows[k].seat == seat.id && rows[k].status == statuses[seat.id];
      assert rows[k] in rows;
    }
  }

  /** The map and the hold of one journey compute one fare; they differ only in how they round a bare rate. */
  lemma MapShowsHoldPrice(inventory: Inventory, request: HoldRequest, hold: Hold, from: RouteStop, to: RouteStop,
                          distance: nat, i: nat, seat: Seat, statuses: map<Id, AllocationStatus>)
    requires UniqueSeats(inventory.seats) && HoldMeans(inventory, request, hold, from, to, distance)
    requires i < |hold.lines| && seat in inventory.seats && seat.id == hold.lines[i].seat
    ensures Entry(seat, statuses, distance).seatId == hold.lines[i].seatId
    ensures Entry(seat, statuses, distance).price == 100 * hold.lines[i].price
            <==> distance > 0 || seat.pricePerKm % 100 == 0
  {
    assert LineMeans(inventory.seats, request.schedule, request.seats[i], distance, hold.lines[i]);
    var s :| s in inventory.seats && s.schedule == request.schedule && s.id == request.seats[i]
             && hold.lines[i].seat == s.id && hold.lines[i].seatId == s.seatId
             && Money.IsFare(distance, s.pricePerKm, hold.lines[i].price);
    SameSeat(inventory.seats, s, seat);
    Money.SeatPriceIsFare(distance, s.pricePerKm, hold.lines[i].price);
    Money.DisplayedPriceIsCharged(distance, s.pricePerKm);
  }

  // ---- Grouping ----

  /** The seats of one coach, in their original order. */
  function SeatsOf(seats: seq<Seat>, coach: Id): seq<Seat> {
    if seats == [] then []
    else
      var n := |seats| - 1;
      SeatsOf(seats[..n], coach) + (if seats[n].coach == coach then [seats[n]] else [])
  }

  /** The coaches in order of first appearance. */
  function FirstSeen(seats: seq<Seat>): seq<Id> {
    if seats == [] then []
    else
      var before := FirstSeen(seats[..|seats| - 1]);
      if seats[|seats| - 1].coach in before then before else before + [seats[|seats| - 1].coach]
  }

  function EntriesOf(seats: seq<Seat>, statuses: map<Id, AllocationStatus>, distance: nat): (r: seq<CoachSeat>)
    ensures |r| == |seats|
  {
    seq(|seats|, i requires 0 <= i < |seats| => Entry(seats[i], statuses, distance))
  }

  function CoachOf(seats: seq<Seat>, coach: Id, statuses: map<Id, AllocationStatus>, distance: nat): Coach {
    Coach(coach, |SeatsOf(seats, coach)|, EntriesOf(SeatsOf(seats, coach), statuses, distance))
  }

  /** Reading the next seat appends it to its own coach and leaves the other coaches alone. */
  lemma OneMoreEntry(seats: seq<Seat>, n: nat, c: Id, statuses: map<Id, AllocationStatus>, distance: nat)
    requires n < |seats|
    ensures var before := CoachOf(seats[..n], c, statuses, distance);
            var after := CoachOf(seats[..n + 1], c, statuses, distance);
            && (seats[n].coach != c ==> after == before)
            && (seats[n].coach == c ==>
                  after == Coach(c, before.totalSeats + 1, before.seats + [Entry(seats[n], statuses, distance)]))
    ensures c !in FirstSeen(seats[..n]) ==> CoachOf(seats[..n], c, statuses, distance) == Coach(c, 0, [])
  {
    assert seats[..n + 1][..n] == seats[..n];
    UnseenIsEmpty(seats[..n], c);
  }

  /** The grouping by coach: one coach per id that occurs, with its seats in order. */
  ghost function Grouped(seats: seq<Seat>, statuses: map<Id, AllocationStatus>, distance: nat): map<Id, Coach> {
    map c | c in Elements(FirstSeen(seats)) :: CoachOf(seats, c, statuses, distance)
  }

  lemma FirstSeenGrows(seats: seq<Seat>, n: nat)
    requires n < |seats|
    ensures FirstSeen(seats[..n + 1])
            == FirstSeen(seats[..n]) + if seats[n].coach in FirstSeen(seats[..n]) then [] else [seats[n].coach]
  {
    assert seats[..n + 1][..n] == seats[..n];
  }

  /** A coach with one more seat. */
  function Extended(coach: Coach, entry: CoachSeat): Coach {
    coach.(seats := coach.seats + [entry], totalSeats := |coach.seats| + 1)
  }

  function Lookup(coaches: map<Id, Coach>, id: Id): Coach {
    if id in coaches then coaches[id] else Coach(id, 0, [])
  }

  lemma GroupedAt(seats: seq<Seat>, n: nat, statuses: map<Id, AllocationStatus>, distance: nat, c: Id)
    requires n < |seats|
    ensures var before, after := Grouped(seats[..n], statuses, distance), Grouped(seats[..n + 1], statuses, distance);
            && (c in after <==> c in before || c == seats[n].coach)
            && (c in after ==>
                  after[c] == if c == seats[n].coach
                          then Extended(Lookup(before, c), Entry(seats[n], statuses, distance))
                              else before[c])
  {
    FirstSeenGrows(seats, n);
    OneMoreEntry(seats, n, c, statuses, distance);
  }

  lemma GroupedGrows(seats: seq<Seat>, n: nat, statuses: map<Id, AllocationStatus>, distance: nat)
    requires n < |seats|
    ensures var id, before := seats[n].coach, Grouped(seats[..n], statuses, distance);
            Grouped(seats[..n + 1], statuses, distance)
            == before[id := Extended(Lookup(before, id), Entry(seats[n], statuses, distance))]
  {
    var id := seats[n].coach;
    var before := Grouped(seats[..n], statuses, distance);
    var after := Grouped(seats[..n + 1], statuses, distance);
    forall c
      ensures c in after <==> c in before || c == id
      ensures c in after ==>
                after[c] == if c == id
                            then Extended(Lookup(before, c), Entry(seats[n], statuses, distance))
                            else before[c]
    {
      GroupedAt(seats, n, statuses, distance, c);
    }
  }

  method BuildCoachesMap(seats: seq<Seat>, statuses: map<Id, AllocationStatus>, distance: nat)
    returns (coachesById: map<Id, Coach>, coachOrder: seq<Id>)
    ensures coachOrder == FirstSeen(seats)
    ensures coachesById == Grouped(seats, statuses, distance)
  {
    coachesById, coachOrder := map[], [];
    for n := 0 to |seats|
      invariant coachOrder == FirstSeen(seats[..n])
      invariant coachesById == Grouped(seats[..n], statuses, distance)
    {
      var seat := seats[n];
      GroupedGrows(seats, n, statuses, distance);
      FirstSeenGrows(seats, n);
      var coach := Coach(seat.coach, 0, []);
      if seat.coach in coachesById {
        coach := coachesById[seat.coach];
      } else {
        coachOrder := coachOrder + [seat.coach];
      }
      coach := coach.(seats := coach.seats + [Entry(seat, statuses, distance)]);
      coachesById := coachesById[seat.coach := coach.(totalSeats := |coach.seats|)];
    }
    assert seats[..|seats|] == seats;
  }

  datatype Answer = ScheduleNotFound | ScheduleInactive | Ok(coaches: seq<Coach>)

  function SegmentDistance(from: RouteStop, to: RouteStop): nat {
    var length := to.distanceFromStart - from.distanceFromStart;
    if length < 0 then 0 else length
  }

  /** The coaches of the answer, for the status map that the shown rows of the segment produce. */
  ghost predicate ShowsCoaches(coaches: seq<Coach>, seats: seq<Seat>, allocs: seq<Allocation>, schedule: Id,
                               from: RouteStop, to: RouteStop, now: int)
  {
    exists statuses, distance ::
      && StatusesOf(statuses, FindShown(allocs, schedule, from.sequence, to.sequence, now))
      && Apart(from, to, distance)
      && |coaches| == |FirstSeen(seats)|
      && forall k :: 0 <= k < |coaches| ==>
           CoachMeans(coaches[k], FirstSeen(seats)[k], SeatsOf(seats, FirstSeen(seats)[k]), statuses, distance)
  }

  /** The coach lists these seats in order. */
  ghost predicate CoachMeans(coach: Coach, id: Id, seats: seq<Seat>, statuses: map<Id, AllocationStatus>,
                             distance: nat)
  {
    && coach.coachId == id && coach.totalSeats == |coach.seats| == |seats|
    && forall i :: 0 <= i < |seats| ==> EntryMeans(seats[i], statuses, distance, coach.seats[i])
  }

  lemma CoachIsMeant(seats: seq<Seat>, id: Id, statuses: map<Id, AllocationStatus>, distance: nat)
    ensures CoachMeans(CoachOf(seats, id, statuses, distance), id, SeatsOf(seats, id), statuses, distance)
  {
    var own := SeatsOf(seats, id);
    forall i | 0 <= i < |own| ensures EntryMeans(own[i], statuses, distance, EntriesOf(own, statuses, distance)[i]) {
      EntryIsMeant(own[i], statuses, distance);
    }
  }

  lemma GroupsAreShown(coaches: seq<Coach>, seats: seq<Seat>, allocs: seq<Allocation>, schedule: Id,
                       from: RouteStop, to: RouteStop, now: int, statuses: map<Id, AllocationStatus>)
    requires StatusesOf(statuses, FindShown(allocs, schedule, from.sequence, to.sequence, now))
    requires |coaches| == |FirstSeen(seats)| && forall k :: 0 <= k < |coaches| ==>
               coaches[k] == CoachOf(seats, FirstSeen(seats)[k], statuses, SegmentDistance(from, to))
    ensures ShowsCoaches(coaches, seats, allocs, schedule, from, to, now)
  {
    var distance := SegmentDistance(from, to);
    forall k | 0 <= k < |coaches|
      ensures CoachMeans(coaches[k], FirstSeen(seats)[k], SeatsOf(seats, FirstSeen(seats)[k]), statuses, distance)
    {
      CoachIsMeant(seats, FirstSeen(seats)[k], statuses, distance);
    }
    assert Apart(from, to, distance);
  }

  /**
   * `getSeatMapData`: `active` is None for an unknown schedule, and the stops are the first ones found for the two
   * station names. Stops that are missing or not in route order answer as an inactive schedule.
   */
  method GetSeatMap(active: Option<bool>, fromStop: Option<RouteStop>, toStop: Option<RouteStop>, seats: seq<Seat>,
                    allocs: seq<Allocation>, schedule: Id, now: int) returns (answer: Answer)
    ensures answer.ScheduleNotFound? <==> active.None?
    ensures answer.Ok? <==> active == Some(true) && fromStop.Some? && toStop.Some?
                            && fromStop.value.sequence < toStop.value.sequence
    ensures answer.Ok? ==> ShowsCoaches(answer.coaches, seats, allocs, schedule, fromStop.value, toStop.value, now)
  {
    if active.None? {
      return ScheduleNotFound;
    }
    if !active.value || fromStop.None? || toStop.None? || fromStop.value.sequence >= toStop.value.sequence {
      return ScheduleInactive;
    }
    var from, to := fromStop.value, toStop.value;
    var statuses := StatusBySeat(FindShown(allocs, schedule, from.sequence, to.sequence, now));
    var coachesById, coachOrder := BuildCoachesMap(seats, statuses, SegmentDistance(from, to));
    var coaches := seq(|coachOrder|, k requires 0 <= k < |coachOrder| => coachesById[coachOrder[k]]);
    GroupsAreShown(coaches, seats, allocs, schedule, from, to, now, statuses);
    return Ok(coaches);
  }

  lemma {:induction false} UnseenIsEmpty(seats: seq<Seat>, c: Id)
    ensures c in FirstSeen(seats) <==> SeatsOf(seats, c) != []
  {
    if seats != [] {
      UnseenIsEmpty(seats[..|seats| - 1], c);
    }
  }

  /** Coaches are listed once each, and reading more seats only appends to the list. */
  lemma {:induction false} CoachOrderIsFirstAppearance(seats: seq<Seat>, n: nat)
    requires n <= |seats|
    ensures Distinct(FirstSeen(seats)) && FirstSeen(seats[..n]) <= FirstSeen(seats)
    ensures forall c :: c in FirstSeen(seats) <==> exists i :: 0 <= i < |seats| && seats[i].coach == c
  {
    if seats != [] {
      var init := seats[..|seats| - 1];
      CoachOrderIsFirstAppearance(init, if n < |seats| then n else n - 1);
      if n < |seats| {
        assert init[..n] == seats[..n];
      } else {
        assert seats[..n] == seats;
      }
      forall c ensures c in FirstSeen(seats) <==> exists i :: 0 <= i < |seats| && seats[i].coach == c {
        assert c in FirstSeen(init) <==> exists i :: 0 <= i < |init| && init[i].coach == c;
        if i :| 0 <= i < |seats| && seats[i].coach == c {
          assert i < |init| ==> init[i].coach == c;
        }
        if i :| 0 <= i < |init| && init[i].coach == c {
          assert seats[i].coach == c;
        }
        assert seats[|seats| - 1].coach in FirstSeen(seats);
      }
    } else {
      assert seats[..n] == seats;
    }
  }

  ghost function Flatten(seats: seq<Seat>, coaches: seq<Id>): seq<Seat> {
    if coaches == [] then []
    else Flatten(seats, coaches[..|coaches| - 1]) + SeatsOf(seats, coaches[|coaches| - 1])
  }

  ghost function Extra(seat: Seat, coaches: seq<Id>): multiset<Seat> {
    if seat.coach in coaches then multiset{seat} else multiset{}
  }

  lemma OneMoreInCoach(seats: seq<Seat>, seat: Seat, c: Id)
    ensures multiset(SeatsOf(seats + [seat], c))
            == multiset(SeatsOf(seats, c)) + Extra(seat, [c])
  {
    assert (seats + [seat])[..|seats|] == seats;
  }

  lemma FlattenLast(seats: seq<Seat>, coaches: seq<Id>)
    requires coaches != []
    ensures multiset(Flatten(seats, coaches))
            == multiset(Flatten(seats, coaches[..|coaches| - 1])) + multiset(SeatsOf(seats, coaches[|coaches| - 1]))
  {
  }

  lemma ExtraOneMore(seat: Seat, coaches: seq<Id>, c: Id)
    requires Distinct(coaches + [c])
    ensures Distinct(coaches)
    ensures Extra(seat, coaches + [c]) == Extra(seat, coaches) + Extra(seat, [c])
  {
    DistinctOneMore(coaches, c);
  }

  lemma {:induction false} OneMoreSeat(seats: seq<Seat>, seat: Seat, coaches: seq<Id>)
    requires Distinct(coaches)
    ensures multiset(Flatten(seats + [seat], coaches)) == multiset(Flatten(seats, coaches)) + Extra(seat, coaches)
  {
    if coaches != [] {
      var init, c := coaches[..|coaches| - 1], coaches[|coaches| - 1];
      assert coaches == init + [c];
      ExtraOneMore(seat, init, c);
      OneMoreSeat(seats, seat, init);
      OneMoreInCoach(seats, seat, c);
      FlattenLast(seats, coaches);
      FlattenLast(seats + [seat], coaches);
    }
  }

  lemma {:induction false} NoSeats(coaches: seq<Id>)
    ensures Flatten([], coaches) == []
  {
    if coaches != [] {
      NoSeats(coaches[..|coaches| - 1]);
    }
  }

  lemma {:induction false} GroupingKeepsAll(seats: seq<Seat>, coaches: seq<Id>)
    requires Distinct(coaches) && forall s :: s in seats ==> s.coach in coaches
    ensures multiset(Flatten(seats, coaches)) == multiset(seats)
  {
    if seats == [] {
      NoSeats(coaches);
    } else {
      var init, last := seats[..|seats| - 1], seats[|seats| - 1];
      assert seats == init + [last];
      assert last in seats && forall s :: s in init ==> s in seats;
      GroupingKeepsAll(init, coaches);
      OneMoreSeat(init, last, coaches);
      assert Extra(last, coaches) == multiset{last};
    }
  }

  /** Grouping is a partition: the coaches together contain every seat as often as the input does. */
  lemma GroupingIsPartition(seats: seq<Seat>)
    ensures multiset(Flatten(seats, FirstSeen(seats))) == multiset(seats)
    ensures forall c, s :: s in SeatsOf(seats, c) ==> s.coach == c
  {
    CoachOrderIsFirstAppearance(seats, 0);
    GroupingKeepsAll(seats, FirstSeen(seats));
    forall c, s | s in SeatsOf(seats, c) ensures s.coach == c {
      SeatsOfCoach(seats, c, s);
    }
  }

  lemma {:induction false} SeatsOfCoach(seats: seq<Seat>, c: Id, s: Seat)
    requires s in SeatsOf(seats, c)
    ensures s.coach == c
  {
    if s in SeatsOf(seats[..|seats| - 1], c) {
      SeatsOfCoach(seats[..|seats| - 1], c, s);
    }
  }
}
