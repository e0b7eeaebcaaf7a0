/**
 * Hold, confirm and cancel transactions of inventory-service, interleaved statement by statement.
 *
 * Every statement reads what is committed at that moment. A hold takes the seat rows one at a time, in any order
 * the database scans them, asks the overlap query, and inserts; a confirm or a cancel reads the booking's rows,
 * locks the ones its update matches, and writes. Any number of transactions run, any of them may vanish,
 * and any published event may be delivered any number of times. Redis locks do not appear: a transaction
 * may begin whether or not it owns one, as if every lock could expire at any time.
 */
module SeatTransactions {
  import opened Prelude
  import opened Inventory
  import opened Allocations

  datatype EventKey = HoldKey(event: Id) | ConfirmKey(event: Id) | CancelKey(event: Id)

  datatype Reason = SEAT_ALREADY_HELD | SCHEDULE_NOT_FOUND | SEAT_NOT_FOUND | SEGMENT_CONFLICT | INTERNAL_ERROR

  datatype Reply =
    | SeatsHeld(hold: Hold, holdExpiresAt: int)
    | SeatsHoldFailed(event: Id, booking: Id, reason: Reason)

  datatype Change = Confirm | Cancel
  {
    function Key(event: Id): EventKey {
      if Confirm? then ConfirmKey(event) else CancelKey(event)
    }

    function From(): set<AllocationStatus> {
      if Confirm? then {HELD} else {HELD, CONFIRMED}
    }

    function To(): AllocationStatus {
      if Confirm? then CONFIRMED else CANCELLED
    }
  }

  datatype HoldPc = Checking | Locking(taken: nat) | Inserting | Refused(reason: Reason)
  datatype StatusPc = Unchecked | Reading | Updating | Writing(targets: set<nat>)

  datatype Tx =
    | HoldTx(hold: Hold, expiresAt: int, order: seq<Id>, pc: HoldPc)
    | StatusTx(change: Change, event: Id, booking: Id, step: StatusPc)

  datatype State = State(
    allocs: seq<Allocation>, keys: set<EventKey>, replies: seq<Reply>,
    requests: map<Id, HoldRequest>, txs: map<Id, Tx>)

  const Init := State([], {}, [], map[], map[])

  datatype Action =
    | Publish(request: HoldRequest)
    | BeginHold(tx: Id, event: Id, expiresAt: int, order: seq<Id>)
    | BeginStatus(tx: Id, change: Change, event: Id, booking: Id)
    | Advance(tx: Id)
    | Vanish(tx: Id)
    | RefuseEarly(event: Id, reason: Reason)

  // ---- Locks ----

  predicate ById(x: Id, y: Id) {
    x <= y
  }

  /** `sortedSeatInventoryIds`: the list that the row lock statement and the overlap query are given. */
  function SortedSeats(hold: Hold): (ids: seq<Id>)
    ensures Scans(hold, ids)
  {
    var ids := Sort(hold.Seats(), ById);
    assert |multiset(ids)| == |multiset(hold.Seats())|;
    ids
  }

  /** `lockSeats` has no ORDER BY: the rows are locked in some order of these seats. */
  predicate Scans(hold: Hold, order: seq<Id>) {
    |order| == |hold.Seats()| && multiset(order) == multiset(hold.Seats())
  }

  /** The seat rows a transaction holds until it ends. */
  function Locked(tx: Tx): set<Id> {
    match tx
    case HoldTx(_, _, order, Locking(n)) => if n <= |order| then Elements(order[..n]) else {}
    case HoldTx(hold, _, _, Inserting) => Elements(hold.Seats())
    case _ => {}
  }

  /** The allocation rows an update has locked and not yet committed. */
  function Targets(tx: Tx): set<nat> {
    if tx.StatusTx? && tx.step.Writing? then tx.step.targets else {}
  }

  function MatchingRows(allocs: seq<Allocation>, booking: Id, statuses: set<AllocationStatus>): set<nat> {
    set i: nat | i < |allocs| && Matches(allocs[i], booking, statuses)
  }

  function SetTargets(allocs: seq<Allocation>, targets: set<nat>, status: AllocationStatus): (r: seq<Allocation>)
    ensures |r| == |allocs|
  {
    seq(|allocs|, i requires 0 <= i < |allocs| => if i in targets then allocs[i].(status := status) else allocs[i])
  }

  /** Setting all matching rows is the bulk update. */
  lemma TargetsSetStatus(allocs: seq<Allocation>, booking: Id, change: Change)
    ensures SetTargets(allocs, MatchingRows(allocs, booking, change.From()), change.To())
            == SetStatus(allocs, booking, change.From(), change.To())
  {
  }

  /** The next statement of the transaction waits for a row another transaction has locked. */
  predicate Waits(s: State, t: Id)
    requires t in s.txs
  {
    match s.txs[t]
    case HoldTx(_, _, order, Locking(n)) =>
      n < |order| && exists u :: u in s.txs && u != t && order[n] in Locked(s.txs[u])
    case StatusTx(change, _, booking, Updating) =>
      exists u :: u in s.txs && u != t
                  && MatchingRows(s.allocs, booking, change.From()) * Targets(s.txs[u]) != {}
    case _ => false
  }

  // ---- One statement ----

  function End(s: State, t: Id): State {
    s.(txs := s.txs - {t})
  }

  function Move(s: State, t: Id, tx: Tx): State {
    s.(txs := s.txs[t := tx])
  }

  function CommitHold(s: State, t: Id, hold: Hold, expiresAt: int): State
  {
    End(s.(allocs := s.allocs + Rows(hold, expiresAt),
           keys := s.keys + {HoldKey(hold.event)},
           replies := s.replies + [SeatsHeld(hold, expiresAt)]), t)
  }

  function AdvanceHold(s: State, t: Id, hold: Hold, expiresAt: int, order: seq<Id>, pc: HoldPc): State {
    match pc
    case Checking =>
      if HoldKey(hold.event) in s.keys then End(s, t) else Move(s, t, HoldTx(hold, expiresAt, order, Locking(0)))
    case Locking(n) =>
      if n < |order| then Move(s, t, HoldTx(hold, expiresAt, order, Locking(n + 1)))
      else if HasOverlappingAllocation(s.allocs, hold.schedule, SortedSeats(hold), hold.from, hold.to) then
        Move(s, t, HoldTx(hold, expiresAt, order, Refused(SEGMENT_CONFLICT)))
      else Move(s, t, HoldTx(hold, expiresAt, order, Inserting))
    case Inserting =>
      // The unique indexes on (booking, seat) and on the event key.
      if HasRowFor(s.allocs, hold.booking, hold.Seats()) || HoldKey(hold.event) in s.keys then
        Move(s, t, HoldTx(hold, expiresAt, order, Refused(INTERNAL_ERROR)))
      else CommitHold(s, t, hold, expiresAt)
    case Refused(reason) =>
      End(s.(replies := s.replies + [SeatsHoldFailed(hold.event, hold.booking, reason)]), t)
  }

  function AdvanceStatus(s: State, t: Id, change: Change, event: Id, booking: Id, step: StatusPc): State {
    match step
    case Unchecked =>
      if change.Key(event) in s.keys then End(s, t) else Move(s, t, StatusTx(change, event, booking, Reading))
    case Reading =>
      if MatchingRows(s.allocs, booking, change.From()) == {} then
        Move(s, t, StatusTx(change, event, booking, Writing({})))
      else Move(s, t, StatusTx(change, event, booking, Updating))
    case Updating =>
      Move(s, t, StatusTx(change, event, booking, Writing(MatchingRows(s.allocs, booking, change.From()))))
    case Writing(targets) =>
      if change.Key(event) in s.keys then End(s, t)
      else
        End(s.(allocs := SetTargets(s.allocs, targets, change.To()), keys := s.keys + {change.Key(event)}), t)
  }

  function AdvanceTx(s: State, t: Id): State
    requires t in s.txs
  {
    match s.txs[t]
    case HoldTx(hold, expiresAt, order, pc) => AdvanceHold(s, t, hold, expiresAt, order, pc)
    case StatusTx(change, event, booking, step) => AdvanceStatus(s, t, change, event, booking, step)
  }

  predicate Allowed(inventory: Inventory, s: State, a: Action) {
    match a
    case Publish(request) => request.event !in s.requests
    case BeginHold(t, event, _, order) =>
      && t !in s.txs && event in s.requests && Resolve(inventory, s.requests[event]).Some?
      && Scans(Resolve(inventory, s.requests[event]).value, order)
    case BeginStatus(t, _, _, _) => t !in s.txs
    case Advance(t) => t in s.txs && !Waits(s, t)
    case Vanish(t) => t in s.txs
    case RefuseEarly(event, _) => event in s.requests
  }

  /** One step of the system; an action that is not possible leaves it unchanged. */
  function Step(inventory: Inventory, s: State, a: Action): State {
    if !Allowed(inventory, s, a) then s
    else
      match a
      case Publish(request) => s.(requests := s.requests[request.event := request])
      case BeginHold(t, event, expiresAt, order) =>
        Move(s, t, HoldTx(Resolve(inventory, s.requests[event]).value, expiresAt, order, Checking))
      case BeginStatus(t, change, event, booking) => Move(s, t, StatusTx(change, event, booking, Unchecked))
      case Advance(t) => AdvanceTx(s, t)
      case Vanish(t) => End(s, t)
      case RefuseEarly(event, reason) =>
        s.(replies := s.replies + [SeatsHoldFailed(event, s.requests[event].booking, reason)])
  }

  /** The state after a run; since impossible actions are skipped, every list of actions is a run. */
  function Run(inventory: Inventory, actions: seq<Action>): State {
    if actions == [] then Init
    else Step(inventory, Run(inventory, actions[..|actions| - 1]), actions[|actions| - 1])
  }

  // ---- The invariant ----

  ghost predicate ResolvedTx(inventory: Inventory, s: State, tx: Tx) {
    tx.HoldTx? ==>
      && tx.hold.event in s.requests && Resolve(inventory, s.requests[tx.hold.event]) == Some(tx.hold)
      && WellFormed(tx.hold) && Scans(tx.hold, tx.order)
      && (tx.pc.Locking? ==> tx.pc.taken <= |tx.order|)
  }

  ghost predicate RequestsKeyed(s: State) {
    forall e :: e in s.requests ==> s.requests[e].event == e
  }

  /** Every running hold comes from a published request. */
  ghost predicate TxsResolved(inventory: Inventory, s: State) {
    && RequestsKeyed(s)
    && (forall t :: t in s.txs ==> ResolvedTx(inventory, s, s.txs[t]))
  }

  ghost predicate Apart(tx: Tx, other: Tx) {
    Locked(tx) !! Locked(other) && Targets(tx) !! Targets(other)
  }

  /** No seat row and no allocation row is locked twice. */
  ghost predicate LocksExclusive(s: State) {
    forall t, u :: t in s.txs && u in s.txs && t != u ==> Apart(s.txs[t], s.txs[u])
  }

  ghost predicate QueryStillHolds(allocs: seq<Allocation>, tx: Tx) {
    tx.HoldTx? && tx.pc.Inserting? ==>
      !HasOverlappingAllocation(allocs, tx.hold.schedule, tx.hold.Seats(), tx.hold.from, tx.hold.to)
  }

  ghost predicate TargetsMatch(allocs: seq<Allocation>, tx: Tx) {
    tx.StatusTx? ==>
      forall i :: i in Targets(tx) ==> i < |allocs| && Matches(allocs[i], tx.booking, tx.change.From())
  }

  /** What a transaction has read is still true. */
  ghost predicate ReadsStable(s: State) {
    forall t :: t in s.txs ==> QueryStillHolds(s.allocs, s.txs[t]) && TargetsMatch(s.allocs, s.txs[t])
  }

  ghost predicate Invariant(inventory: Inventory, s: State) {
    && TxsResolved(inventory, s)
    && LocksExclusive(s)
    && ReadsStable(s)
    && NoDoubleBooking(s.allocs)
  }

  // ---- Frames: what a step leaves alone ----

  /** Only transaction t may differ. */
  ghost predicate OthersUnmoved(s: State, s': State, t: Id) {
    && (forall u :: u in s.txs && u != t ==> u in s'.txs && s'.txs[u] == s.txs[u])
    && (forall u :: u in s'.txs && u != t ==> u in s.txs)
  }

  ghost predicate RequestsKept(s: State, s': State) {
    forall e :: e in s.requests ==> e in s'.requests && s'.requests[e] == s.requests[e]
  }

  function Actor(a: Action): Id {
    match a
    case BeginHold(t, _, _, _) => t
    case BeginStatus(t, _, _, _) => t
    case Advance(t) => t
    case Vanish(t) => t
    case _ => 0
  }

  predicate Moves(inventory: Inventory, s: State, a: Action) {
    a.Advance? && Allowed(inventory, s, a)
  }

  predicate Fresh(tx: Tx) {
    match tx
    case HoldTx(_, _, _, pc) => pc.Checking?
    case StatusTx(_, _, _, step) => step.Unchecked?
  }

  lemma HoldFrame(s: State, t: Id, hold: Hold, expiresAt: int, order: seq<Id>, pc: HoldPc)
    ensures var s' := AdvanceHold(s, t, hold, expiresAt, order, pc);
            OthersUnmoved(s, s', t) && s'.requests == s.requests
  {
  }

  lemma StatusFrame(s: State, t: Id, change: Change, event: Id, booking: Id, step: StatusPc)
    ensures var s' := AdvanceStatus(s, t, change, event, booking, step);
            OthersUnmoved(s, s', t) && s'.requests == s.requests
  {
  }

  lemma AdvanceFrame(s: State, t: Id)
    requires t in s.txs
    ensures OthersUnmoved(s, AdvanceTx(s, t), t) && AdvanceTx(s, t).requests == s.requests
  {
    match s.txs[t]
    case HoldTx(hold, expiresAt, order, pc) => HoldFrame(s, t, hold, expiresAt, order, pc);
    case StatusTx(change, event, booking, step) => StatusFrame(s, t, change, event, booking, step);
  }

  lemma StepFrame(inventory: Inventory, s: State, a: Action)
    ensures OthersUnmoved(s, Step(inventory, s, a), Actor(a))
    ensures RequestsKeyed(s) ==> RequestsKeyed(Step(inventory, s, a))
    ensures RequestsKept(s, Step(inventory, s, a))
    ensures !a.Publish? ==> Step(inventory, s, a).requests == s.requests
    ensures Moves(inventory, s, a) ==> Step(inventory, s, a) == AdvanceTx(s, a.tx)
  {
    if Moves(inventory, s, a) {
      AdvanceFrame(s, a.tx);
    }
  }

  /** Nothing or one failure reply has been written. */
  ghost predicate OnlyRefuses(before: seq<Reply>, after: seq<Reply>) {
    || after == before
    || (exists r: Reply :: r.SeatsHoldFailed? && after == before + [r])
  }

  /** A step that is not a statement of a transaction changes no row, no key, and locks nothing. */
  lemma QuietStep(inventory: Inventory, s: State, a: Action)
    requires !Moves(inventory, s, a)
    ensures var s', t := Step(inventory, s, a), Actor(a);
            && s'.allocs == s.allocs && s'.keys == s.keys && OnlyRefuses(s.replies, s'.replies)
            && (t in s'.txs ==> (t in s.txs && s'.txs[t] == s.txs[t]) || Fresh(s'.txs[t]))
  {
  }

  /** The statement commits a hold. */
  predicate Commits(s: State, t: Id)
    requires t in s.txs
  {
    var tx := s.txs[t];
    tx.HoldTx? && tx.pc.Inserting?
    && !HasRowFor(s.allocs, tx.hold.booking, tx.hold.Seats()) && HoldKey(tx.hold.event) !in s.keys
  }

  /** The statement commits a status change. */
  predicate Writes(s: State, t: Id)
    requires t in s.txs
  {
    var tx := s.txs[t];
    tx.StatusTx? && tx.step.Writing? && tx.change.Key(tx.event) !in s.keys
  }

  /** Only two statements change the tables. */
  lemma AdvanceOutcome(s: State, t: Id)
    requires t in s.txs
    ensures var s', tx := AdvanceTx(s, t), s.txs[t];
            && s'.requests == s.requests
            && (Commits(s, t) ==> s' == CommitHold(s, t, tx.hold, tx.expiresAt))
            && (Writes(s, t) ==>
                  && s'.allocs == SetTargets(s.allocs, Targets(tx), tx.change.To())
                  && s'.keys == s.keys + {tx.change.Key(tx.event)} && s'.replies == s.replies)
            && (!Commits(s, t) && !Writes(s, t) ==>
                  s'.allocs == s.allocs && s'.keys == s.keys && OnlyRefuses(s.replies, s'.replies))
  {
    match s.txs[t]
    case HoldTx(hold, expiresAt, _, pc) =>
      if pc.Refused? {
        assert AdvanceTx(s, t).replies == s.replies + [SeatsHoldFailed(hold.event, hold.booking, pc.reason)];
      } else if pc.Inserting? {
        assert !Writes(s, t);
      } else {
        assert !Commits(s, t) && !Writes(s, t);
      }
    case StatusTx(change, event, booking, step) =>
      assert AdvanceTx(s, t) == AdvanceStatus(s, t, change, event, booking, step);
  }

  lemma StepResolves(inventory: Inventory, s: State, a: Action)
    requires UniqueSeats(inventory.seats) && RequestsKeyed(s)
    requires Actor(a) in s.txs ==> ResolvedTx(inventory, s, s.txs[Actor(a)])
    ensures var s', t := Step(inventory, s, a), Actor(a);
            t in s'.txs ==> ResolvedTx(inventory, s', s'.txs[t])
  {
    if a.BeginHold? && Allowed(inventory, s, a) {
      ResolvedIsWellFormed(inventory, s.requests[a.event]);
    } else if Moves(inventory, s, a) {
      AdvanceResolves(inventory, s, a.tx);
    }
  }

  lemma AdvanceResolves(inventory: Inventory, s: State, t: Id)
    requires t in s.txs && ResolvedTx(inventory, s, s.txs[t])
    ensures t in AdvanceTx(s, t).txs ==> ResolvedTx(inventory, AdvanceTx(s, t), AdvanceTx(s, t).txs[t])
  {
    AdvanceOutcome(s, t);
  }

  lemma StepKeepsTxsResolved(inventory: Inventory, s: State, a: Action)
    requires UniqueSeats(inventory.seats) && TxsResolved(inventory, s)
    ensures TxsResolved(inventory, Step(inventory, s, a))
  {
    StepFrame(inventory, s, a);
    StepResolves(inventory, s, a);
    FramedResolved(inventory, s, Step(inventory, s, a), Actor(a));
  }

  lemma FramedResolved(inventory: Inventory, s: State, s': State, t: Id)
    requires TxsResolved(inventory, s) && OthersUnmoved(s, s', t) && RequestsKept(s, s') && RequestsKeyed(s')
    requires t in s'.txs ==> ResolvedTx(inventory, s', s'.txs[t])
    ensures TxsResolved(inventory, s')
  {
    forall u | u in s'.txs && u != t ensures ResolvedTx(inventory, s', s'.txs[u]) {
      assert ResolvedTx(inventory, s, s.txs[u]);
    }
  }

  /** Taking the next seat of the scan adds that seat and nothing else. */
  lemma LockedGrows(hold: Hold, expiresAt: int, order: seq<Id>, n: nat)
    requires n < |order|
    ensures Locked(HoldTx(hold, expiresAt, order, Locking(n + 1)))
            == Locked(HoldTx(hold, expiresAt, order, Locking(n))) + {order[n]}
  {
    assert order[..n + 1] == order[..n] + [order[n]];
    ElementsOneMore(order[..n], order[n]);
  }

  lemma ScansSameSeats(hold: Hold, order: seq<Id>)
    requires Scans(hold, order)
    ensures Elements(order) == Elements(hold.Seats())
  {
    forall x ensures x in order <==> x in hold.Seats() {
      assert x in order <==> x in multiset(order);
      assert x in hold.Seats() <==> x in multiset(hold.Seats());
    }
  }

  lemma AllSeatsLocked(hold: Hold, expiresAt: int, order: seq<Id>)
    requires Scans(hold, order)
    ensures Locked(HoldTx(hold, expiresAt, order, Locking(|order|))) == Elements(hold.Seats())
  {
    ScansSameSeats(hold, order);
    assert order[..|order|] == order;
  }

  /** A statement leaves the transaction's locks disjoint from those of any other transaction. */
  lemma AdvanceStaysApart(inventory: Inventory, s: State, t: Id, u: Id)
    requires TxsResolved(inventory, s) && t in s.txs && u in s.txs && t != u && !Waits(s, t)
    requires Apart(s.txs[t], s.txs[u])
    ensures t in AdvanceTx(s, t).txs ==> Apart(AdvanceTx(s, t).txs[t], s.txs[u])
  {
    var tx := s.txs[t];
    assert ResolvedTx(inventory, s, tx);
    if tx.HoldTx? && tx.pc.Locking? {
      LockingStaysApart(s, t, u);
    } else if tx.StatusTx? && tx.step.Updating? {
      UpdatingStaysApart(s, t, u);
    } else if t in AdvanceTx(s, t).txs {
      OthersLockNothing(s, t);
    }
  }

  lemma HoldLocksNothing(s: State, t: Id)
    requires t in s.txs && t in AdvanceTx(s, t).txs
    requires s.txs[t].HoldTx? && !s.txs[t].pc.Locking?
    ensures Locked(AdvanceTx(s, t).txs[t]) == {} && Targets(AdvanceTx(s, t).txs[t]) == {}
  {
    if s.txs[t].pc.Checking? {
      var hold, expiresAt, order := s.txs[t].hold, s.txs[t].expiresAt, s.txs[t].order;
      assert AdvanceTx(s, t).txs[t] == HoldTx(hold, expiresAt, order, Locking(0));
      assert order[..0] == [];
    }
  }

  /** A statement that is neither a row lock nor an update leaves its transaction without locks. */
  lemma OthersLockNothing(s: State, t: Id)
    requires t in s.txs && t in AdvanceTx(s, t).txs
    requires !(s.txs[t].HoldTx? && s.txs[t].pc.Locking?) && !(s.txs[t].StatusTx? && s.txs[t].step.Updating?)
    ensures Locked(AdvanceTx(s, t).txs[t]) == {} && Targets(AdvanceTx(s, t).txs[t]) == {}
  {
    if s.txs[t].HoldTx? {
      HoldLocksNothing(s, t);
    }
  }

  lemma UpdatingStaysApart(s: State, t: Id, u: Id)
    requires t in s.txs && u in s.txs && t != u && !Waits(s, t)
    requires s.txs[t].StatusTx? && s.txs[t].step.Updating?
    ensures t in AdvanceTx(s, t).txs && Apart(AdvanceTx(s, t).txs[t], s.txs[u])
  {
    var tx := s.txs[t];
    var targets := MatchingRows(s.allocs, tx.booking, tx.change.From());
    assert targets * Targets(s.txs[u]) == {};
    assert AdvanceTx(s, t).txs[t] == StatusTx(tx.change, tx.event, tx.booking, Writing(targets));
    assert Targets(AdvanceTx(s, t).txs[t]) == targets;
    forall i | i in targets ensures i !in Targets(s.txs[u]) {
      assert i !in targets * Targets(s.txs[u]);
    }
  }

  lemma LockingStaysApart(s: State, t: Id, u: Id)
    requires t in s.txs && u in s.txs && t != u && !Waits(s, t) && Apart(s.txs[t], s.txs[u])
    requires s.txs[t].HoldTx? && s.txs[t].pc.Locking? && s.txs[t].pc.taken <= |s.txs[t].order|
    requires Scans(s.txs[t].hold, s.txs[t].order)
    ensures t in AdvanceTx(s, t).txs ==> Apart(AdvanceTx(s, t).txs[t], s.txs[u])
  {
    var tx := s.txs[t];
    var hold, order, n := tx.hold, tx.order, tx.pc.taken;
    if n < |order| {
      LockedGrows(hold, tx.expiresAt, order, n);
      assert order[n] !in Locked(s.txs[u]);
      assert AdvanceTx(s, t).txs[t] == HoldTx(hold, tx.expiresAt, order, Locking(n + 1));
    } else {
      AllSeatsLocked(hold, tx.expiresAt, order);
      assert AdvanceTx(s, t).txs[t].pc.Inserting? || AdvanceTx(s, t).txs[t].pc.Refused?;
    }
  }

  lemma FramedExclusive(s: State, s': State, t: Id)
    requires LocksExclusive(s) && OthersUnmoved(s, s', t)
    requires t in s'.txs ==> forall u :: u in s.txs && u != t ==> Apart(s'.txs[t], s.txs[u])
    ensures LocksExclusive(s')
  {
    forall u, v | u in s'.txs && v in s'.txs && u != v ensures Apart(s'.txs[u], s'.txs[v]) {
      if u != t && v != t {
        assert Apart(s.txs[u], s.txs[v]);
      } else if u == t {
        assert Apart(s'.txs[t], s.txs[v]);
      } else {
        assert Apart(s'.txs[t], s.txs[u]);
      }
    }
  }

  lemma StepKeepsLocksExclusive(inventory: Inventory, s: State, a: Action)
    requires TxsResolved(inventory, s) && LocksExclusive(s)
    ensures LocksExclusive(Step(inventory, s, a))
  {
    var s', t := Step(inventory, s, a), Actor(a);
    StepFrame(inventory, s, a);
    if t in s'.txs {
      forall u | u in s.txs && u != t ensures Apart(s'.txs[t], s.txs[u]) {
        if Moves(inventory, s, a) {
          assert Apart(s.txs[t], s.txs[u]);
          AdvanceStaysApart(inventory, s, t, u);
        } else {
          QuietStep(inventory, s, a);
          assert t in s.txs ==> Apart(s.txs[t], s.txs[u]);
        }
      }
    }
    FramedExclusive(s, s', t);
  }

  /** Rows inserted under a seat lock cannot clash with a hold that owns other seats. */
  lemma InsertKeepsOtherQueries(allocs: seq<Allocation>, hold: Hold, expiresAt: int, other: Tx)
    requires WellFormed(hold) && Elements(hold.Seats()) !! Locked(other)
    requires QueryStillHolds(allocs, other) && TargetsMatch(allocs, other)
    ensures QueryStillHolds(allocs + Rows(hold, expiresAt), other)
    ensures TargetsMatch(allocs + Rows(hold, expiresAt), other)
  {
    var all, rows := allocs + Rows(hold, expiresAt), Rows(hold, expiresAt);
    if other.HoldTx? && other.pc.Inserting? {
      forall i | 0 <= i < |all|
        ensures !all[i].Clashes(other.hold.schedule, other.hold.Seats(), other.hold.from, other.hold.to)
      {
        if |allocs| <= i {
          assert all[i] == rows[i - |allocs|] && all[i].seat in Elements(hold.Seats());
        }
      }
    }
  }

  /** A status change keeps what the other transactions have read. */
  lemma WriteKeepsOtherReads(allocs: seq<Allocation>, tx: Tx, other: Tx)
    requires tx.StatusTx? && TargetsMatch(allocs, tx) && Targets(tx) !! Targets(other)
    requires QueryStillHolds(allocs, other) && TargetsMatch(allocs, other)
    ensures QueryStillHolds(SetTargets(allocs, Targets(tx), tx.change.To()), other)
    ensures TargetsMatch(SetTargets(allocs, Targets(tx), tx.change.To()), other)
  {
  }

  /** A statement keeps what another transaction has read. */
  lemma AdvanceKeepsOtherReads(inventory: Inventory, s: State, t: Id, u: Id)
    requires TxsResolved(inventory, s) && LocksExclusive(s) && ReadsStable(s)
    requires t in s.txs && u in s.txs && t != u
    ensures var s' := AdvanceTx(s, t);
            QueryStillHolds(s'.allocs, s.txs[u]) && TargetsMatch(s'.allocs, s.txs[u])
  {
    var tx := s.txs[t];
    assert Apart(tx, s.txs[u]) && ResolvedTx(inventory, s, tx);
    AdvanceOutcome(s, t);
    if Commits(s, t) {
      InsertKeepsOtherQueries(s.allocs, tx.hold, tx.expiresAt, s.txs[u]);
    } else if Writes(s, t) {
      WriteKeepsOtherReads(s.allocs, tx, s.txs[u]);
    }
  }

  /** The query is asked for the sorted list of the same seats. */
  lemma OverlapIgnoresOrder(allocs: seq<Allocation>, hold: Hold)
    ensures HasOverlappingAllocation(allocs, hold.schedule, SortedSeats(hold), hold.from, hold.to)
            <==> HasOverlappingAllocation(allocs, hold.schedule, hold.Seats(), hold.from, hold.to)
  {
    ScansSameSeats(hold, SortedSeats(hold));
    assert forall x :: x in SortedSeats(hold) <==> x in Elements(SortedSeats(hold));
    assert forall x :: x in hold.Seats() <==> x in Elements(hold.Seats());
  }

  /** What a transaction reads in a statement is true right after it. */
  lemma AdvanceReadsTruly(s: State, t: Id)
    requires t in s.txs && QueryStillHolds(s.allocs, s.txs[t]) && TargetsMatch(s.allocs, s.txs[t])
    ensures var s' := AdvanceTx(s, t);
            t in s'.txs ==> QueryStillHolds(s'.allocs, s'.txs[t]) && TargetsMatch(s'.allocs, s'.txs[t])
  {
    var tx := s.txs[t];
    if tx.HoldTx? && tx.pc.Locking? && tx.pc.taken >= |tx.order| {
      OverlapIgnoresOrder(s.allocs, tx.hold);
    }
  }

  lemma FramedReads(s: State, s': State, t: Id)
    requires OthersUnmoved(s, s', t)
    requires t in s'.txs ==> QueryStillHolds(s'.allocs, s'.txs[t]) && TargetsMatch(s'.allocs, s'.txs[t])
    requires forall u :: u in s.txs && u != t ==>
                           QueryStillHolds(s'.allocs, s.txs[u]) && TargetsMatch(s'.allocs, s.txs[u])
    ensures ReadsStable(s')
  {
  }

  lemma StepKeepsReadsStable(inventory: Inventory, s: State, a: Action)
    requires TxsResolved(inventory, s) && LocksExclusive(s) && ReadsStable(s)
    ensures ReadsStable(Step(inventory, s, a))
  {
    var s', t := Step(inventory, s, a), Actor(a);
    StepFrame(inventory, s, a);
    if Moves(inventory, s, a) {
      AdvanceReadsTruly(s, t);
      forall u | u in s.txs && u != t
        ensures QueryStillHolds(s'.allocs, s.txs[u]) && TargetsMatch(s'.allocs, s.txs[u])
      {
        AdvanceKeepsOtherReads(inventory, s, t, u);
      }
    } else {
      QuietStep(inventory, s, a);
    }
    FramedReads(s, s', t);
  }

  lemma StepKeepsNoDoubleBooking(inventory: Inventory, s: State, a: Action)
    requires Invariant(inventory, s)
    ensures NoDoubleBooking(Step(inventory, s, a).allocs)
  {
    StepFrame(inventory, s, a);
    if Moves(inventory, s, a) {
      var tx := s.txs[a.tx];
      assert QueryStillHolds(s.allocs, tx) && TargetsMatch(s.allocs, tx) && ResolvedTx(inventory, s, tx);
      AdvanceOutcome(s, a.tx);
      if Commits(s, a.tx) {
        HoldKeepsNoDoubleBooking(s.allocs, tx.hold, tx.expiresAt);
      } else if Writes(s, a.tx) {
        WriteKeepsNoDoubleBooking(s.allocs, tx);
      }
    } else {
      QuietStep(inventory, s, a);
    }
  }

  lemma WriteKeepsNoDoubleBooking(allocs: seq<Allocation>, tx: Tx)
    requires NoDoubleBooking(allocs) && tx.StatusTx? && tx.step.Writing? && TargetsMatch(allocs, tx)
    ensures NoDoubleBooking(SetTargets(allocs, Targets(tx), tx.change.To()))
  {
    StatusChangeKeepsNoDoubleBooking(allocs, SetTargets(allocs, Targets(tx), tx.change.To()));
  }

  lemma StepKeepsInvariant(inventory: Inventory, s: State, a: Action)
    requires UniqueSeats(inventory.seats) && Invariant(inventory, s)
    ensures Invariant(inventory, Step(inventory, s, a))
  {
    StepKeepsTxsResolved(inventory, s, a);
    StepKeepsLocksExclusive(inventory, s, a);
    StepKeepsReadsStable(inventory, s, a);
    StepKeepsNoDoubleBooking(inventory, s, a);
  }

  /** Under every interleaving, active rows of one schedule and seat never overlap. */
  lemma {:induction false} NeverDoubleBooked(inventory: Inventory, actions: seq<Action>)
    requires UniqueSeats(inventory.seats)
    ensures Invariant(inventory, Run(inventory, actions))
    ensures NoDoubleBooking(Run(inventory, actions).allocs)
  {
    if actions != [] {
      NeverDoubleBooked(inventory, actions[..|actions| - 1]);
      StepKeepsInvariant(inventory, Run(inventory, actions[..|actions| - 1]), actions[|actions| - 1]);
    }
  }
}
