/** Why the scans must share an order: two holds that lock the same two seats the other way round. */
module CrossedScans {
  import opened Prelude
  import opened Inventory
  import opened Allocations
  import opened SeatTransactions

  /** Each hold has locked one of the two seats and wants the other. */
  ghost predicate Crossed(s: State, x: Id, y: Id) {
    && s.txs.Keys == {0, 1}
    && s.txs[0].HoldTx? && s.txs[0].order == [x, y] && s.txs[0].pc == Locking(1)
    && s.txs[1].HoldTx? && s.txs[1].order == [y, x] && s.txs[1].pc == Locking(1)
  }

  /** Two transactions are running, and both wait. */
  ghost predicate AllWait(s: State) {
    s.txs.Keys == {0, 1} && forall t :: t in s.txs ==> Waits(s, t)
  }

  lemma CrossedWait(s: State, x: Id, y: Id)
    requires Crossed(s, x, y)
    ensures AllWait(s)
  {
    assert [x, y][..1] == [x] && [y, x][..1] == [y];
    assert x in Locked(s.txs[0]) && y in Locked(s.txs[1]);
  }

  lemma RunContinues(inventory: Inventory, actions: seq<Action>, a: Action)
    ensures Run(inventory, actions + [a]) == Step(inventory, Run(inventory, actions), a)
  {
    assert (actions + [a])[..|actions|] == actions;
  }

  /** Both requests are published and resolve to holds of the two seats. */
  ghost predicate BothWant(inventory: Inventory, s: State, h1: Hold, h2: Hold, x: Id, y: Id) {
    && h1.event in s.requests && Resolve(inventory, s.requests[h1.event]) == Some(h1) && Scans(h1, [x, y])
    && h2.event in s.requests && Resolve(inventory, s.requests[h2.event]) == Some(h2) && Scans(h2, [y, x])
    && HoldKey(h1.event) !in s.keys && HoldKey(h2.event) !in s.keys
  }

  /** A hold takes the first seat of its scan. */
  lemma TakesFirst(inventory: Inventory, actions: seq<Action>, t: Id, hold: Hold, order: seq<Id>)
    returns (longer: seq<Action>)
    requires var s := Run(inventory, actions);
             && t !in s.txs && hold.event in s.requests && Resolve(inventory, s.requests[hold.event]) == Some(hold)
             && HoldKey(hold.event) !in s.keys && Scans(hold, order) && order != []
             && forall u :: u in s.txs ==> order[0] !in Locked(s.txs[u])
    ensures var s := Run(inventory, actions);
            Run(inventory, longer) == s.(txs := s.txs[t := HoldTx(hold, 0, order, Locking(1))])
  {
    var s, begin := Run(inventory, actions), BeginHold(t, hold.event, 0, order);
    var a1 := actions + [begin];
    var a2 := a1 + [Advance(t)];
    longer := a2 + [Advance(t)];
    RunContinues(inventory, actions, begin);
    RunContinues(inventory, a1, Advance(t));
    RunContinues(inventory, a2, Advance(t));
    assert Run(inventory, a1).txs == s.txs[t := HoldTx(hold, 0, order, Checking)];
    assert Run(inventory, a2).txs == s.txs[t := HoldTx(hold, 0, order, Locking(0))];
    assert !Waits(Run(inventory, a2), t);
  }

  /**
   * From any state without transactions, two new holds of the same two seats can come to wait for each other for
   * ever when the database scans the seats in different orders: neither has a next statement.
   */
  lemma CrossedScansDeadlock(inventory: Inventory, actions: seq<Action>, h1: Hold, h2: Hold, x: Id, y: Id)
    returns (longer: seq<Action>)
    requires Run(inventory, actions).txs == map[] && x != y
    requires BothWant(inventory, Run(inventory, actions), h1, h2, x, y)
    ensures var s := Run(inventory, longer);
            AllWait(s) && forall t: Id :: Step(inventory, s, Advance(t)) == s
  {
    longer := BothCross(inventory, actions, h1, h2, x, y);
    CrossedWait(Run(inventory, longer), x, y);
    StuckForGood(inventory, Run(inventory, longer));
  }

  lemma BothCross(inventory: Inventory, actions: seq<Action>, h1: Hold, h2: Hold, x: Id, y: Id)
    returns (longer: seq<Action>)
    requires Run(inventory, actions).txs == map[] && x != y
    requires BothWant(inventory, Run(inventory, actions), h1, h2, x, y)
    ensures Crossed(Run(inventory, longer), x, y)
  {
    var s := Run(inventory, actions);
    var first := TakesFirst(inventory, actions, 0, h1, [x, y]);
    assert s.txs[0 := HoldTx(h1, 0, [x, y], Locking(1))] == map[0 := HoldTx(h1, 0, [x, y], Locking(1))];
    longer := SecondCrosses(inventory, s, first, h1, h2, x, y);
  }

  lemma SecondCrosses(inventory: Inventory, s: State, first: seq<Action>, h1: Hold, h2: Hold, x: Id, y: Id)
    returns (longer: seq<Action>)
    requires x != y && BothWant(inventory, s, h1, h2, x, y)
    requires Run(inventory, first) == s.(txs := map[0 := HoldTx(h1, 0, [x, y], Locking(1))])
    ensures Crossed(Run(inventory, longer), x, y)
  {
    assert Locked(HoldTx(h1, 0, [x, y], Locking(1))) == {x} by {
      assert [x, y][..1] == [x];
    }
    longer := TakesFirst(inventory, first, 1, h2, [y, x]);
  }

  lemma StuckForGood(inventory: Inventory, s: State)
    requires AllWait(s)
    ensures forall t: Id :: Step(inventory, s, Advance(t)) == s
  {
  }

  // ---- Two seats of one train ----

  const TwoSeats := Projected(
    [RouteStop(1, 10, 1, 0), RouteStop(1, 20, 2, 100)], [Seat(5, 1, 1, 50, 1, 10000), Seat(6, 1, 1, 60, 2, 10000)])

  function RequestOf(event: Id): HoldRequest {
    HoldRequest(event, event, 1, [5, 6], 10, 20, 1, 2, 600000)
  }

  function HoldOf(event: Id): Hold {
    Hold(event, event, 1, [Line(5, 50, 10000), Line(6, 60, 10000)], 1, 2)
  }

  lemma TwoSeatsResolve(event: Id)
    ensures Resolve(TwoSeats, RequestOf(event)) == Some(HoldOf(event))
  {
    var stops, seats := TwoSeats.stops, TwoSeats.seats;
    assert stops[1..] == [RouteStop(1, 20, 2, 100)];
    assert StopAt(stops, 1, 1) == Some(stops[0]);
    assert StopAt(stops, 1, 2) == StopAt(stops[1..], 1, 2) == Some(stops[1]);
    assert ResolveSegment(stops, RequestOf(event)) == Some(Segment(stops[0], stops[1], 100));
    TwoSeatsFound();
  }

  lemma TwoSeatsFound()
    ensures UniqueSeats(TwoSeats.seats) && FetchSeatMap(TwoSeats.seats, 1, [5, 6]) == Some(TwoSeats.seats)
    ensures Lines(TwoSeats.seats, [5, 6], 100) == [Line(5, 50, 10000), Line(6, 60, 10000)]
  {
    var seats := TwoSeats.seats;
    assert seats[1..] == [seats[1]] && seats[1..][1..] == [];
    assert FindManyByIds(seats[1..], 1, [5, 6]) == seats[1..];
    assert FindManyByIds(seats, 1, [5, 6]) == seats;
    assert SeatWithId(seats, 5) == Some(seats[0]);
    assert SeatWithId(seats, 6) == SeatWithId(seats[1..], 6) == Some(seats[1]);
    assert [5, 6][1..] == [6];
    assert Lines(seats, [6], 100) == [Line(6, 60, 10000)];
  }

  lemma BothScans()
    ensures Scans(HoldOf(7), [5, 6]) && Scans(HoldOf(8), [6, 5])
  {
    assert HoldOf(7).Seats() == [5, 6] && HoldOf(8).Seats() == [5, 6];
    assert multiset([6, 5]) == multiset([5, 6]);
  }

  /** Two bookings ask for both seats. */
  lemma BothPublished() returns (actions: seq<Action>)
    ensures Run(TwoSeats, actions).txs == map[]
    ensures BothWant(TwoSeats, Run(TwoSeats, actions), HoldOf(7), HoldOf(8), 5, 6)
  {
    TwoSeatsResolve(7);
    TwoSeatsResolve(8);
    RunContinues(TwoSeats, [], Publish(RequestOf(7)));
    RunContinues(TwoSeats, [] + [Publish(RequestOf(7))], Publish(RequestOf(8)));
    actions := [] + [Publish(RequestOf(7))] + [Publish(RequestOf(8))];
    assert Run(TwoSeats, actions) == Init.(requests := map[7 := RequestOf(7), 8 := RequestOf(8)]);
    BothScans();
  }

  /** So without a common order a reachable state can have only waiting transactions. */
  lemma DeadlockWithoutOrder() returns (actions: seq<Action>)
    ensures UniqueSeats(TwoSeats.seats)
    ensures AllWait(Run(TwoSeats, actions))
  {
    TwoSeatsFound();
    var published := BothPublished();
    actions := CrossedScansDeadlock(TwoSeats, published, HoldOf(7), HoldOf(8), 5, 6);
  }
}
