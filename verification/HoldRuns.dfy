/** What every run of the interleaved seat transactions guarantees: progress, at-most-once holds, capacity. */
module HoldRuns {
  import opened Prelude
  import opened Inventory
  import opened Allocations
  import opened SeatTransactions
  import OwnerMap

  // ---- Progress ----

  ghost predicate Wants(tx: Tx) {
    tx.HoldTx? && tx.pc.Locking? && tx.pc.taken < |tx.order|
  }

  /** The seat a hold asks for next. */
  ghost function Wanted(tx: Tx): Id
    requires Wants(tx)
  {
    tx.order[tx.pc.taken]
  }

  /** Every hold under way locks its seats in this order. */
  ghost predicate ScansInOrder(txs: map<Id, Tx>, le: (Id, Id) -> bool) {
    forall t :: t in txs && txs[t].HoldTx? ==> Ordered(txs[t].order, le)
  }

  /** Every hold of the run is begun with its seats in this order. */
  ghost predicate BeginsInOrder(actions: seq<Action>, le: (Id, Id) -> bool) {
    forall a :: a in actions && a.BeginHold? ==> Ordered(a.order, le)
  }

  /** A statement does not change the order of its scan. */
  lemma AdvanceKeepsOrder(s: State, t: Id)
    requires t in s.txs && t in AdvanceTx(s, t).txs && AdvanceTx(s, t).txs[t].HoldTx?
    ensures s.txs[t].HoldTx? && AdvanceTx(s, t).txs[t].order == s.txs[t].order
  {
  }

  lemma StepKeepsScans(inventory: Inventory, s: State, a: Action, le: (Id, Id) -> bool)
    requires ScansInOrder(s.txs, le) && (a.BeginHold? ==> Ordered(a.order, le))
    ensures ScansInOrder(Step(inventory, s, a).txs, le)
  {
    var s', t := Step(inventory, s, a), Actor(a);
    StepFrame(inventory, s, a);
    if Moves(inventory, s, a) && t in s'.txs && s'.txs[t].HoldTx? {
      AdvanceKeepsOrder(s, t);
    }
    forall u | u in s'.txs && s'.txs[u].HoldTx? ensures Ordered(s'.txs[u].order, le) {
      assert u != t ==> s'.txs[u] == s.txs[u];
    }
  }

  lemma {:induction false} RunsScanInOrder(inventory: Inventory, actions: seq<Action>, le: (Id, Id) -> bool)
    requires BeginsInOrder(actions, le)
    ensures ScansInOrder(Run(inventory, actions).txs, le)
  {
    if actions != [] {
      RunsScanInOrder(inventory, actions[..|actions| - 1], le);
      StepKeepsScans(inventory, Run(inventory, actions[..|actions| - 1]), actions[|actions| - 1], le);
    }
  }

  lemma {:induction false} LargestWanted(txs: map<Id, Tx>, ids: set<Id>, le: (Id, Id) -> bool) returns (t: Id)
    requires ids != {} && TotalOrder(le)
    requires forall u: Id :: u in ids ==> u in txs && Wants(txs[u])
    ensures t in ids && forall u: Id :: u in ids ==> le(Wanted(txs[u]), Wanted(txs[t]))
    decreases ids
  {
    t :| t in ids;
    var rest := ids - {t};
    assert forall u :: u in ids ==> u == t || u in rest;
    if rest != {} {
      var r := LargestWanted(txs, rest, le);
      if !le(Wanted(txs[r]), Wanted(txs[t])) {
        t := r;
      }
    }
  }

  /** A hold that waits wants a seat that comes after every seat it has. */
  lemma WantsAboveLocked(inventory: Inventory, s: State, t: Id, seat: Id, le: (Id, Id) -> bool)
    requires TxsResolved(inventory, s) && ScansInOrder(s.txs, le)
    requires t in s.txs && Wants(s.txs[t]) && seat in Locked(s.txs[t])
    ensures le(seat, Wanted(s.txs[t])) && seat != Wanted(s.txs[t])
  {
    var tx := s.txs[t];
    assert ResolvedTx(inventory, s, tx);
    ScansSameSeats(tx.hold, tx.order);
    ElementsCount(tx.hold.Seats());
    ElementsCount(tx.order);
    var k :| 0 <= k < tx.pc.taken && tx.order[k] == seat;
    assert le(tx.order[k], tx.order[tx.pc.taken]);
  }

  /** No wait cycle: while transactions are running, one of them can take its next statement. */
  lemma SomeoneCanStep(inventory: Inventory, s: State, le: (Id, Id) -> bool)
    requires TotalOrder(le) && TxsResolved(inventory, s) && ScansInOrder(s.txs, le) && s.txs != map[]
    ensures exists t :: t in s.txs && !Waits(s, t)
  {
    if st :| st in s.txs && s.txs[st].StatusTx? {
      if Waits(s, st) {
        // It waits for an update that has only its commit left.
        var tx := s.txs[st];
        var u :| u in s.txs && MatchingRows(s.allocs, tx.booking, tx.change.From()) * Targets(s.txs[u]) != {};
        var i :| i in MatchingRows(s.allocs, tx.booking, tx.change.From()) * Targets(s.txs[u]);
        assert i in Targets(s.txs[u]) && !Waits(s, u);
      }
    } else if t :| t in s.txs && !Wants(s.txs[t]) {
      assert !Waits(s, t);
    } else {
      assert s.txs.Keys != {} by {
        var t :| t in s.txs;
      }
      var t := LargestWanted(s.txs, s.txs.Keys, le);
      if Waits(s, t) {
        var u :| u in s.txs && u != t && Wanted(s.txs[t]) in Locked(s.txs[u]);
        WantsAboveLocked(inventory, s, u, Wanted(s.txs[t]), le);
      }
    }
  }

  /** Whatever total order the scans share, some transaction can always step. */
  lemma DeadlockFree(inventory: Inventory, actions: seq<Action>, le: (Id, Id) -> bool)
    requires UniqueSeats(inventory.seats) && TotalOrder(le) && BeginsInOrder(actions, le)
    ensures var s := Run(inventory, actions);
            s.txs != map[] ==> exists t :: t in s.txs && !Waits(s, t)
  {
    NeverDoubleBooked(inventory, actions);
    RunsScanInOrder(inventory, actions, le);
    var s := Run(inventory, actions);
    if s.txs != map[] {
      SomeoneCanStep(inventory, s, le);
    }
  }

  /** An upper bound on the statements a transaction still has to take. */
  ghost function Remaining(tx: Tx): nat {
    match tx
    case HoldTx(_, _, order, Checking) => |order| + 4
    case HoldTx(_, _, order, Locking(n)) => if n < |order| then |order| - n + 3 else 3
    case HoldTx(_, _, _, Inserting) => 2
    case HoldTx(_, _, _, Refused(_)) => 1
    case StatusTx(_, _, _, Unchecked) => 4
    case StatusTx(_, _, _, Reading) => 3
    case StatusTx(_, _, _, Updating) => 2
    case StatusTx(_, _, _, Writing(_)) => 1
  }

  ghost function TotalRemaining(txs: map<Id, Tx>): nat
    decreases txs.Keys
  {
    if txs == map[] then 0
    else
      var t :| t in txs;
      Remaining(txs[t]) + TotalRemaining(txs - {t})
  }

  lemma {:induction false} TotalWithout(txs: map<Id, Tx>, t: Id)
    requires t in txs
    ensures TotalRemaining(txs) == Remaining(txs[t]) + TotalRemaining(txs - {t})
    decreases txs.Keys
  {
    var u :| u in txs && TotalRemaining(txs) == Remaining(txs[u]) + TotalRemaining(txs - {u});
    if u != t {
      TotalWithout(txs - {u}, t);
      TotalWithout(txs - {t}, u);
      assert txs - {u} - {t} == txs - {t} - {u};
    }
  }

  /** The other transactions are where they were, and this one has ended or is nearer its end. */
  ghost predicate Shrinks(txs: map<Id, Tx>, txs': map<Id, Tx>, t: Id)
    requires t in txs
  {
    && (forall u :: u != t ==> (u in txs' <==> u in txs) && (u in txs' ==> txs'[u] == txs[u]))
    && (t in txs' ==> Remaining(txs'[t]) < Remaining(txs[t]))
  }

  lemma HoldShrinks(s: State, t: Id, hold: Hold, expiresAt: int, order: seq<Id>, pc: HoldPc)
    requires t in s.txs && s.txs[t] == HoldTx(hold, expiresAt, order, pc)
    ensures Shrinks(s.txs, AdvanceHold(s, t, hold, expiresAt, order, pc).txs, t)
  {
  }

  lemma StatusShrinks(s: State, t: Id, change: Change, event: Id, booking: Id, step: StatusPc)
    requires t in s.txs && s.txs[t] == StatusTx(change, event, booking, step)
    ensures Shrinks(s.txs, AdvanceStatus(s, t, change, event, booking, step).txs, t)
  {
  }

  lemma AdvanceShrinks(s: State, t: Id)
    requires t in s.txs
    ensures Shrinks(s.txs, AdvanceTx(s, t).txs, t)
  {
    match s.txs[t]
    case HoldTx(hold, expiresAt, order, pc) => HoldShrinks(s, t, hold, expiresAt, order, pc);
    case StatusTx(change, event, booking, step) => StatusShrinks(s, t, change, event, booking, step);
  }

  lemma TotalShrinks(txs: map<Id, Tx>, txs': map<Id, Tx>, t: Id)
    requires t in txs && Shrinks(txs, txs', t)
    ensures TotalRemaining(txs') < TotalRemaining(txs)
  {
    assert txs' - {t} == txs - {t};
    TotalWithout(txs, t);
    if t in txs' {
      TotalWithout(txs', t);
    } else {
      assert txs' == txs' - {t};
      assert Remaining(txs[t]) > 0;
    }
  }

  lemma StatementsRunOut(s: State, t: Id)
    requires t in s.txs
    ensures TotalRemaining(AdvanceTx(s, t).txs) < TotalRemaining(s.txs)
  {
    var txs' := AdvanceTx(s, t).txs;
    AdvanceShrinks(s, t);
    TotalShrinks(s.txs, txs', t);
  }

  /** Every run can be continued until nothing is in flight: there is neither a deadlock nor an endless wait. */
  lemma {:induction false} RunsDrain(inventory: Inventory, actions: seq<Action>, le: (Id, Id) -> bool)
    returns (more: seq<Action>)
    requires UniqueSeats(inventory.seats) && TotalOrder(le) && BeginsInOrder(actions, le)
    ensures Run(inventory, actions + more).txs == map[]
    ensures forall a :: a in more ==> a.Advance?
    decreases TotalRemaining(Run(inventory, actions).txs)
  {
    var s := Run(inventory, actions);
    if s.txs == map[] {
      more := [];
      assert actions + more == actions;
    } else {
      DeadlockFree(inventory, actions, le);
      var t :| t in s.txs && !Waits(s, t);
      var next := actions + [Advance(t)];
      assert next[..|next| - 1] == actions;
      assert Run(inventory, next) == AdvanceTx(s, t);
      StatementsRunOut(s, t);
      var rest := RunsDrain(inventory, next, le);
      more := [Advance(t)] + rest;
      assert actions + more == next + rest;
    }
  }

  // ---- At most once ----

  /** The holds whose SeatsHeld reply has been written, in order. */
  ghost function Committed(replies: seq<Reply>): seq<Hold> {
    if replies == [] then []
    else
      var last := replies[|replies| - 1];
      Committed(replies[..|replies| - 1]) + (if last.SeatsHeld? then [last.hold] else [])
  }

  /** A row without what later transactions and clocks decide. */
  ghost function Bare(a: Allocation): Allocation {
    a.(status := HELD, holdExpiresAt := 0)
  }

  ghost function BareTable(allocs: seq<Allocation>): seq<Allocation> {
    seq(|allocs|, i requires 0 <= i < |allocs| => Bare(allocs[i]))
  }

  ghost function Batches(holds: seq<Hold>): seq<Allocation> {
    if holds == [] then [] else Batches(holds[..|holds| - 1]) + Rows(holds[|holds| - 1], 0)
  }

  ghost predicate KeysMatch(keys: set<EventKey>, holds: seq<Hold>) {
    && (forall k :: 0 <= k < |holds| ==> HoldKey(holds[k].event) in keys)
    && (forall e: Id :: HoldKey(e) in keys ==> exists k :: 0 <= k < |holds| && holds[k].event == e)
    && (forall j, k :: 0 <= j < k < |holds| ==> holds[j].event != holds[k].event)
  }

  ghost predicate FromRequests(inventory: Inventory, requests: map<Id, HoldRequest>, holds: seq<Hold>) {
    forall k :: 0 <= k < |holds| ==>
      holds[k].event in requests && Resolve(inventory, requests[holds[k].event]) == Some(holds[k])
  }

  /**
   * The table is the concatenation, in commit order, of one complete batch of rows per SeatsHeld reply; the
   * replies are for distinct events, exactly those whose key is recorded.
   */
  ghost predicate AtMostOnce(inventory: Inventory, s: State) {
    var holds := Committed(s.replies);
    BareTable(s.allocs) == Batches(holds) && KeysMatch(s.keys, holds) && FromRequests(inventory, s.requests, holds)
  }

  lemma CommittedAppends(replies: seq<Reply>, reply: Reply)
    ensures Committed(replies + [reply]) == Committed(replies) + (if reply.SeatsHeld? then [reply.hold] else [])
  {
    assert (replies + [reply])[..|replies|] == replies;
  }

  lemma BareAppends(allocs: seq<Allocation>, hold: Hold, expiresAt: int)
    ensures BareTable(allocs + Rows(hold, expiresAt)) == BareTable(allocs) + Rows(hold, 0)
  {
  }

  lemma BareIgnoresStatus(allocs: seq<Allocation>, targets: set<nat>, status: AllocationStatus)
    ensures BareTable(SetTargets(allocs, targets, status)) == BareTable(allocs)
  {
  }

  lemma RefusalCommitsNothing(before: seq<Reply>, after: seq<Reply>)
    requires OnlyRefuses(before, after)
    ensures Committed(after) == Committed(before)
  {
    if after != before {
      CommittedAppends(before, after[|before|]);
    }
  }

  lemma CommitKeepsKeysMatch(keys: set<EventKey>, holds: seq<Hold>, hold: Hold)
    requires KeysMatch(keys, holds) && HoldKey(hold.event) !in keys
    ensures KeysMatch(keys + {HoldKey(hold.event)}, holds + [hold])
  {
    var more := holds + [hold];
    assert forall k | 0 <= k < |holds| :: more[k] == holds[k];
    forall e: Id | HoldKey(e) in keys + {HoldKey(hold.event)}
      ensures exists k :: 0 <= k < |more| && more[k].event == e
    {
      if HoldKey(e) in keys {
        var k :| 0 <= k < |holds| && holds[k].event == e;
        assert more[k].event == e;
      } else {
        assert more[|holds|].event == e;
      }
    }
  }

  lemma CommitKeepsAtMostOnce(inventory: Inventory, s: State, t: Id, hold: Hold, expiresAt: int)
    requires AtMostOnce(inventory, s) && HoldKey(hold.event) !in s.keys
    requires hold.event in s.requests && Resolve(inventory, s.requests[hold.event]) == Some(hold)
    ensures AtMostOnce(inventory, CommitHold(s, t, hold, expiresAt))
  {
    var holds := Committed(s.replies);
    CommittedAppends(s.replies, SeatsHeld(hold, expiresAt));
    BareAppends(s.allocs, hold, expiresAt);
    CommitKeepsKeysMatch(s.keys, holds, hold);
    BatchesAppend(holds, hold);
    FromRequestsAppends(inventory, s.requests, holds, hold);
    var s' := CommitHold(s, t, hold, expiresAt);
    assert s'.allocs == s.allocs + Rows(hold, expiresAt) && Committed(s'.replies) == holds + [hold];
  }

  lemma BatchesAppend(holds: seq<Hold>, hold: Hold)
    ensures Batches(holds + [hold]) == Batches(holds) + Rows(hold, 0)
  {
    assert (holds + [hold])[..|holds|] == holds;
  }

  lemma FromRequestsAppends(inventory: Inventory, requests: map<Id, HoldRequest>, holds: seq<Hold>, hold: Hold)
    requires FromRequests(inventory, requests, holds)
    requires hold.event in requests && Resolve(inventory, requests[hold.event]) == Some(hold)
    ensures FromRequests(inventory, requests, holds + [hold])
  {
  }

  lemma WriteKeepsAtMostOnce(inventory: Inventory, s: State, s': State, tx: Tx)
    requires AtMostOnce(inventory, s) && tx.StatusTx?
    requires s'.allocs == SetTargets(s.allocs, Targets(tx), tx.change.To())
    requires s'.keys == s.keys + {tx.change.Key(tx.event)}
    requires s'.replies == s.replies && RequestsKept(s, s')
    ensures AtMostOnce(inventory, s')
  {
    BareIgnoresStatus(s.allocs, Targets(tx), tx.change.To());
  }

  lemma QuietKeepsAtMostOnce(inventory: Inventory, s: State, s': State)
    requires AtMostOnce(inventory, s)
    requires s'.allocs == s.allocs && s'.keys == s.keys && OnlyRefuses(s.replies, s'.replies) && RequestsKept(s, s')
    ensures AtMostOnce(inventory, s')
  {
    RefusalCommitsNothing(s.replies, s'.replies);
  }

  lemma AdvanceKeepsAtMostOnce(inventory: Inventory, s: State, t: Id)
    requires TxsResolved(inventory, s) && AtMostOnce(inventory, s) && t in s.txs
    ensures AtMostOnce(inventory, AdvanceTx(s, t))
  {
    var tx := s.txs[t];
    assert ResolvedTx(inventory, s, tx);
    AdvanceOutcome(s, t);
    if Commits(s, t) {
      CommitKeepsAtMostOnce(inventory, s, t, tx.hold, tx.expiresAt);
    } else if Writes(s, t) {
      WriteKeepsAtMostOnce(inventory, s, AdvanceTx(s, t), tx);
    } else {
      QuietKeepsAtMostOnce(inventory, s, AdvanceTx(s, t));
    }
  }

  lemma StepKeepsAtMostOnce(inventory: Inventory, s: State, a: Action)
    requires TxsResolved(inventory, s) && AtMostOnce(inventory, s)
    ensures AtMostOnce(inventory, Step(inventory, s, a))
  {
    StepFrame(inventory, s, a);
    if Moves(inventory, s, a) {
      AdvanceKeepsAtMostOnce(inventory, s, a.tx);
    } else {
      QuietStep(inventory, s, a);
      QuietKeepsAtMostOnce(inventory, s, Step(inventory, s, a));
    }
  }

  /** Some reply has told of this row: its seat, segment and price, and the time until which it is held. */
  ghost predicate AsTold(replies: seq<Reply>, a: Allocation) {
    exists r, i :: r in replies && r.SeatsHeld? && HeldFor(a.(status := HELD), r.hold, i, r.holdExpiresAt)
  }

  ghost predicate AllTold(s: State) {
    forall i :: 0 <= i < |s.allocs| ==> AsTold(s.replies, s.allocs[i])
  }

  lemma ToldPersists(before: seq<Reply>, after: seq<Reply>, a: Allocation)
    requires AsTold(before, a) && before <= after
    ensures AsTold(after, a)
  {
    var r, i :| r in before && r.SeatsHeld? && HeldFor(a.(status := HELD), r.hold, i, r.holdExpiresAt);
    assert r in after;
  }

  lemma CommitTellsRows(s: State, s': State, hold: Hold, expiresAt: int)
    requires AllTold(s)
    requires s'.allocs == s.allocs + Rows(hold, expiresAt) && s'.replies == s.replies + [SeatsHeld(hold, expiresAt)]
    ensures AllTold(s')
  {
    forall i | 0 <= i < |s'.allocs| ensures AsTold(s'.replies, s'.allocs[i]) {
      if i < |s.allocs| {
        ToldPersists(s.replies, s'.replies, s.allocs[i]);
      } else {
        var r, k := SeatsHeld(hold, expiresAt), i - |s.allocs|;
        assert s'.replies[|s.replies|] == r;
        RowIsHeld(hold, expiresAt, k, s'.allocs[i]);
        assert HeldFor(s'.allocs[i].(status := HELD), hold, k, expiresAt);
      }
    }
  }

  lemma StepTellsRows(inventory: Inventory, s: State, a: Action)
    requires AllTold(s)
    ensures AllTold(Step(inventory, s, a))
  {
    var s' := Step(inventory, s, a);
    StepFrame(inventory, s, a);
    if Moves(inventory, s, a) {
      AdvanceOutcome(s, a.tx);
      if Commits(s, a.tx) {
        CommitTellsRows(s, s', s.txs[a.tx].hold, s.txs[a.tx].expiresAt);
        return;
      }
    } else {
      QuietStep(inventory, s, a);
    }
    assert s.replies <= s'.replies;
    forall i | 0 <= i < |s'.allocs| ensures AsTold(s'.replies, s'.allocs[i]) {
      assert s'.allocs[i].(status := HELD) == s.allocs[i].(status := HELD);
      ToldPersists(s.replies, s'.replies, s.allocs[i]);
    }
  }

  /** In every run each row is one that a SeatsHeld reply has told of, held until the time it told. */
  lemma {:induction false} RowsAreAsTold(inventory: Inventory, actions: seq<Action>)
    ensures AllTold(Run(inventory, actions))
  {
    if actions != [] {
      RowsAreAsTold(inventory, actions[..|actions| - 1]);
      StepTellsRows(inventory, Run(inventory, actions[..|actions| - 1]), actions[|actions| - 1]);
    }
  }

  /** However often and however concurrently an event is delivered, its rows are inserted together at most once. */
  lemma {:induction false} HoldsCommitAtMostOnce(inventory: Inventory, actions: seq<Action>)
    requires UniqueSeats(inventory.seats)
    ensures AtMostOnce(inventory, Run(inventory, actions))
  {
    if actions != [] {
      var init := actions[..|actions| - 1];
      HoldsCommitAtMostOnce(inventory, init);
      NeverDoubleBooked(inventory, init);
      StepKeepsAtMostOnce(inventory, Run(inventory, init), actions[|actions| - 1]);
    }
  }

  /** Committed holds stay committed, so a redelivery, even after cancellation, adds no row. */
  lemma RedeliveryAddsNothing(inventory: Inventory, s: State, a: Action, event: Id)
    requires TxsResolved(inventory, s) && AtMostOnce(inventory, s) && HoldKey(event) in s.keys
    requires a.Advance? && a.tx in s.txs && s.txs[a.tx].HoldTx? && s.txs[a.tx].hold.event == event
    ensures var s' := Step(inventory, s, a);
            s'.allocs == s.allocs && Committed(s'.replies) == Committed(s.replies) && s'.keys == s.keys
  {
    if Moves(inventory, s, a) {
      StepFrame(inventory, s, a);
      AdvanceOutcome(s, a.tx);
      RefusalCommitsNothing(s.replies, AdvanceTx(s, a.tx).replies);
    } else {
      assert Step(inventory, s, a) == s;
    }
  }

  // ---- Rows of a hold, and capacity over every run ----

  lemma {:induction false} BatchRow(holds: seq<Hold>, k: nat, j: nat) returns (i: nat)
    requires k < |holds| && j < |holds[k].lines|
    ensures i < |Batches(holds)| && Batches(holds)[i] == Rows(holds[k], 0)[j]
  {
    var n := |holds| - 1;
    if k == n {
      i := |Batches(holds[..n])| + j;
    } else {
      i := BatchRow(holds[..n], k, j);
    }
  }

  lemma {:induction false} RowBatch(holds: seq<Hold>, i: nat) returns (k: nat, j: nat)
    requires i < |Batches(holds)|
    ensures k < |holds| && j < |holds[k].lines| && Batches(holds)[i] == Rows(holds[k], 0)[j]
  {
    var n := |holds| - 1;
    var before := |Batches(holds[..n])|;
    if i < before {
      k, j := RowBatch(holds[..n], i);
    } else {
      k, j := n, i - before;
    }
  }

  lemma RowsAreOnRoute(inventory: Inventory, s: State)
    requires AtMostOnce(inventory, s)
    ensures OwnerMap.OnRoute(s.allocs, inventory.stops)
  {
    forall i | 0 <= i < |s.allocs|
      ensures OwnerMap.IsStop(inventory.stops, s.allocs[i].schedule, s.allocs[i].from)
      ensures OwnerMap.IsStop(inventory.stops, s.allocs[i].schedule, s.allocs[i].to)
    {
      var holds := Committed(s.replies);
      assert |BareTable(s.allocs)| == |s.allocs|;
      var k, j := RowBatch(holds, i);
      assert BareTable(s.allocs)[i] == Rows(holds[k], 0)[j];
      var request := s.requests[holds[k].event];
      var segment := ResolveSegment(inventory.stops, request).value;
      assert s.allocs[i].from == segment.from.sequence && s.allocs[i].to == segment.to.sequence;
    }
  }

  /** In every reachable state a seat is booked for at most as many legs as its route has. */
  lemma CapacityInEveryRun(inventory: Inventory, actions: seq<Action>, schedule: Id, seat: Id, first: int, last: int)
    requires UniqueSeats(inventory.seats) && first <= last
    requires forall s :: s in inventory.stops && s.schedule == schedule ==> first <= s.sequence <= last
    ensures OwnerMap.BookedLegs(Run(inventory, actions).allocs, schedule, seat) <= last - first
  {
    NeverDoubleBooked(inventory, actions);
    HoldsCommitAtMostOnce(inventory, actions);
    RowsAreOnRoute(inventory, Run(inventory, actions));
    OwnerMap.CapacityBound(Run(inventory, actions).allocs, inventory.stops, schedule, seat, first, last);
  }

  // ---- Simulation of the owner map ----

  /** The cells of the rows a status transaction has locked. */
  ghost predicate LockedCell(allocs: seq<Allocation>, targets: set<nat>, c: OwnerMap.Cell) {
    exists i: nat :: i in targets && i < |allocs| && OwnerMap.OwnsAt(allocs[i], c)
  }

  /** Exactly the cells of the locked rows are gone, everything else is as it was. */
  ghost predicate ReleasesLocked(allocs: seq<Allocation>, targets: set<nat>, before: OwnerMap.Owners,
                                 after: OwnerMap.Owners)
  {
    && (forall c :: c in after <==> c in before && !LockedCell(allocs, targets, c))
    && (forall c :: c in after ==> after[c] == before[c])
  }

  /** A hold that commits finds every requested cell free and claims exactly those cells. */
  lemma CommitClaimsFreeCells(inventory: Inventory, s: State, t: Id)
    requires Invariant(inventory, s) && t in s.txs && Commits(s, t)
    ensures var hold, owners := s.txs[t].hold, OwnerMap.Abstract(s.allocs);
            && OwnerMap.Free(owners, OwnerMap.Requested(hold))
            && OwnerMap.Abstract(s.allocs + Rows(hold, s.txs[t].expiresAt))
               == owners + OwnerMap.Claim(OwnerMap.Requested(hold), hold.booking)
  {
    var hold := s.txs[t].hold;
    assert QueryStillHolds(s.allocs, s.txs[t]) && ResolvedTx(inventory, s, s.txs[t]);
    OwnerMap.OverlapQueryIsFreeness(s.allocs, hold);
    OwnerMap.HoldClaims(s.allocs, hold, s.txs[t].expiresAt);
  }

  /** A row that is set to CANCELLED owns nothing; the others own what they did. */
  lemma CancelledRow(allocs: seq<Allocation>, targets: set<nat>, i: nat, c: OwnerMap.Cell)
    requires i < |allocs|
    ensures OwnerMap.OwnsAt(SetTargets(allocs, targets, CANCELLED)[i], c) <==>
              OwnerMap.OwnsAt(allocs[i], c) && i !in targets
  {
  }

  /** An active row that is set to CONFIRMED owns what it did. */
  lemma ConfirmedRow(allocs: seq<Allocation>, targets: set<nat>, i: nat, c: OwnerMap.Cell)
    requires i < |allocs| && (i in targets ==> allocs[i].Active())
    ensures OwnerMap.OwnsAt(SetTargets(allocs, targets, CONFIRMED)[i], c) <==> OwnerMap.OwnsAt(allocs[i], c)
  {
  }

  lemma OneOwner(allocs: seq<Allocation>, i: nat, j: nat, c: OwnerMap.Cell)
    requires NoDoubleBooking(allocs) && i < |allocs| && j < |allocs|
    requires OwnerMap.OwnsAt(allocs[i], c) && OwnerMap.OwnsAt(allocs[j], c)
    ensures i == j
  {
  }

  lemma CellAfterCancel(allocs: seq<Allocation>, targets: set<nat>, c: OwnerMap.Cell)
    requires NoDoubleBooking(allocs) && NoDoubleBooking(SetTargets(allocs, targets, CANCELLED))
    ensures var before, after := OwnerMap.Abstract(allocs), OwnerMap.Abstract(SetTargets(allocs, targets, CANCELLED));
            && (c in after <==> c in before && !LockedCell(allocs, targets, c))
            && (c in after ==> after[c] == before[c])
  {
    var after := SetTargets(allocs, targets, CANCELLED);
    OwnerMap.AbstractMeaning(allocs, c);
    OwnerMap.AbstractMeaning(after, c);
    forall i: nat | i < |allocs|
      ensures OwnerMap.OwnsAt(after[i], c) <==> OwnerMap.OwnsAt(allocs[i], c) && i !in targets
    {
      CancelledRow(allocs, targets, i, c);
    }
    if i: nat :| i < |allocs| && OwnerMap.OwnsAt(allocs[i], c) {
      forall j: nat | j < |allocs| && OwnerMap.OwnsAt(allocs[j], c) ensures j == i {
        OneOwner(allocs, i, j, c);
      }
    }
  }

  lemma CellAfterConfirm(allocs: seq<Allocation>, targets: set<nat>, c: OwnerMap.Cell)
    requires NoDoubleBooking(allocs) && NoDoubleBooking(SetTargets(allocs, targets, CONFIRMED))
    requires forall i :: i in targets ==> i < |allocs| && allocs[i].Active()
    ensures var before, after := OwnerMap.Abstract(allocs), OwnerMap.Abstract(SetTargets(allocs, targets, CONFIRMED));
            (c in after <==> c in before) && (c in after ==> after[c] == before[c])
  {
    var after := SetTargets(allocs, targets, CONFIRMED);
    OwnerMap.AbstractMeaning(allocs, c);
    OwnerMap.AbstractMeaning(after, c);
    forall i: nat | i < |allocs| ensures OwnerMap.OwnsAt(after[i], c) <==> OwnerMap.OwnsAt(allocs[i], c) {
      ConfirmedRow(allocs, targets, i, c);
    }
  }

  /** A confirm changes no owner; a cancel frees exactly the cells of the rows it has locked. */
  lemma WriteReleasesLocked(allocs: seq<Allocation>, tx: Tx)
    requires NoDoubleBooking(allocs) && tx.StatusTx? && tx.step.Writing? && TargetsMatch(allocs, tx)
    ensures var before := OwnerMap.Abstract(allocs);
            var after := OwnerMap.Abstract(SetTargets(allocs, Targets(tx), tx.change.To()));
            if tx.change.Cancel? then ReleasesLocked(allocs, Targets(tx), before, after) else after == before
  {
    var after := SetTargets(allocs, Targets(tx), tx.change.To());
    StatusChangeKeepsNoDoubleBooking(allocs, after);
    if tx.change.Cancel? {
      forall c
        ensures c in OwnerMap.Abstract(after) <==>
                  c in OwnerMap.Abstract(allocs) && !LockedCell(allocs, Targets(tx), c)
        ensures c in OwnerMap.Abstract(after) ==> OwnerMap.Abstract(after)[c] == OwnerMap.Abstract(allocs)[c]
      {
        CellAfterCancel(allocs, Targets(tx), c);
      }
    } else {
      forall c
        ensures c in OwnerMap.Abstract(after) <==> c in OwnerMap.Abstract(allocs)
        ensures c in OwnerMap.Abstract(after) ==> OwnerMap.Abstract(after)[c] == OwnerMap.Abstract(allocs)[c]
      {
        CellAfterConfirm(allocs, Targets(tx), c);
      }
    }
  }

  /**
   * One step of the owner map: a committing hold claims its cells, which are free; a committing cancel frees
   * the cells of the rows it has locked; every other step changes no owner.
   */
  ghost predicate OwnerStep(inventory: Inventory, s: State, a: Action,
                            before: OwnerMap.Owners, after: OwnerMap.Owners)
  {
    if Moves(inventory, s, a) && Commits(s, a.tx) then
      var hold := s.txs[a.tx].hold;
      && OwnerMap.Free(before, OwnerMap.Requested(hold))
      && after == before + OwnerMap.Claim(OwnerMap.Requested(hold), hold.booking)
    else if Moves(inventory, s, a) && Writes(s, a.tx) && s.txs[a.tx].change.Cancel? then
      ReleasesLocked(s.allocs, Targets(s.txs[a.tx]), before, after)
    else after == before
  }

  /** Every step of the interleaved system is a step of the owner map. */
  lemma StepSimulatesOwnerMap(inventory: Inventory, s: State, a: Action)
    requires Invariant(inventory, s)
    ensures OwnerStep(inventory, s, a, OwnerMap.Abstract(s.allocs), OwnerMap.Abstract(Step(inventory, s, a).allocs))
  {
    StepFrame(inventory, s, a);
    if Moves(inventory, s, a) {
      AdvanceOutcome(s, a.tx);
      assert TargetsMatch(s.allocs, s.txs[a.tx]);
      if Commits(s, a.tx) {
        CommitClaimsFreeCells(inventory, s, a.tx);
      } else if Writes(s, a.tx) {
        WriteReleasesLocked(s.allocs, s.txs[a.tx]);
      }
    } else {
      QuietStep(inventory, s, a);
    }
  }
}
