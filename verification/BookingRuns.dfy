/**
 * Booking transactions interleaved: each reads its booking, checks the status it needs, and later writes
 * under the guard `version < seen version + 1`. Any transition may be attempted at any time, by any
 * number of transactions, as when payment-success events or HTTP calls repeat.
 */
module BookingRuns {
  import opened Prelude
  import opened BookingLifecycle

  datatype StatusEvent = StatusEvent(
    booking: Id, previous: Option<BookingStatus>, current: BookingStatus, version: nat)

  datatype Tx = Tx(kind: Transition, booking: Id, seen: Option<Row>)

  /** The trail of a booking is its status history; no step reads it. */
  datatype State = State(
    rows: map<Id, Row>, trails: map<Id, seq<BookingStatus>>, txs: map<Id, Tx>, outbox: seq<StatusEvent>)

  const Init := State(map[], map[], map[], [])

  datatype Action =
    | Create(booking: Id)
    | Begin(tx: Id, kind: Transition, booking: Id)
    | Read(tx: Id)
    | Write(tx: Id)
    | Vanish(tx: Id)

  function End(s: State, t: Id): State {
    s.(txs := s.txs - {t})
  }

  predicate Allowed(s: State, a: Action) {
    match a
    case Create(b) => b !in s.rows
    case Begin(t, _, _) => t !in s.txs
    case Read(t) => t in s.txs && s.txs[t].seen.None?
    case Write(t) => t in s.txs && s.txs[t].seen.Some? && s.txs[t].booking in s.rows
    case Vanish(t) => t in s.txs
  }

  function CreateBooking(s: State, b: Id): State {
    s.(rows := s.rows[b := Row(PENDING, 1)],
       trails := s.trails[b := [PENDING]],
       outbox := s.outbox + [StatusEvent(b, None, PENDING, 1)])
  }

  /** `findById` and the status check; a transaction whose check fails ends. */
  function ReadRow(s: State, t: Id): State
    requires t in s.txs
  {
    var tx := s.txs[t];
    if tx.booking in s.rows && s.rows[tx.booking].status in tx.kind.From() then
      s.(txs := s.txs[t := tx.(seen := Some(s.rows[tx.booking]))])
    else End(s, t)
  }

  function Expected(tx: Tx): nat {
    if tx.seen.Some? then tx.seen.value.version + 1 else 0
  }

  /** The guarded update would match. */
  predicate Wins(s: State, tx: Tx) {
    tx.booking in s.rows && UpdateStatus(s.rows[tx.booking], tx.kind.Target(), Expected(tx)).1
  }

  /** The guarded update and, for an announced transition, its outbox row; then commit. */
  function WriteRow(s: State, t: Id): State
    requires t in s.txs && s.txs[t].booking in s.rows && s.txs[t].seen.Some?
  {
    var tx := s.txs[t];
    if !Wins(s, tx) then End(s, t)
    else
      var b := tx.booking;
      var event := StatusEvent(b, Some(tx.seen.value.status), tx.kind.Target(), Expected(tx));
      End(s.(rows := s.rows[b := UpdateStatus(s.rows[b], tx.kind.Target(), Expected(tx)).0],
             trails := s.trails[b := (if b in s.trails then s.trails[b] else []) + [tx.kind.Target()]],
             outbox := s.outbox + (if tx.kind.Announced() then [event] else [])), t)
  }

  /** One step; an action that is not possible leaves the state unchanged. */
  function Step(s: State, a: Action): State {
    if !Allowed(s, a) then s
    else
      match a
      case Create(b) => CreateBooking(s, b)
      case Begin(t, kind, b) => s.(txs := s.txs[t := Tx(kind, b, None)])
      case Read(t) => ReadRow(s, t)
      case Write(t) => WriteRow(s, t)
      case Vanish(t) => End(s, t)
  }

  function Run(actions: seq<Action>): State {
    if actions == [] then Init
    else Step(Run(actions[..|actions| - 1]), actions[|actions| - 1])
  }

  // ---- The invariant ----

  /** Statuses whose transition writes no outbox row. */
  predicate Silent(status: BookingStatus) {
    status == SEATS_HELD || status == FAILED || status == EXPIRED
  }

  ghost predicate RowMatchesTrail(row: Row, trail: seq<BookingStatus>) {
    Lawful(trail) && row.version == |trail| && row.status == trail[|trail| - 1]
  }

  ghost predicate RowsMatchTrails(s: State) {
    && s.trails.Keys == s.rows.Keys
    && (forall b :: b in s.rows ==> RowMatchesTrail(s.rows[b], s.trails[b]))
  }

  /** What a transaction saw is an entry of the trail. */
  ghost predicate SeenInTrail(tx: Tx, trails: map<Id, seq<BookingStatus>>) {
    tx.seen.Some? ==>
      && tx.booking in trails && 1 <= tx.seen.value.version <= |trails[tx.booking]|
      && trails[tx.booking][tx.seen.value.version - 1] == tx.seen.value.status
      && tx.seen.value.status in tx.kind.From()
  }

  ghost predicate ReadsAreEntries(s: State) {
    forall t :: t in s.txs ==> SeenInTrail(s.txs[t], s.trails)
  }

  /** The event tells a transition the booking really made, at the version it names. */
  ghost predicate EventIsTrue(e: StatusEvent, trails: map<Id, seq<BookingStatus>>) {
    && e.booking in trails && 1 <= e.version <= |trails[e.booking]|
    && trails[e.booking][e.version - 1] == e.current
    && e.previous == (if e.version == 1 then None else Some(trails[e.booking][e.version - 2]))
    && !Silent(e.current)
  }

  ghost predicate EventsAreTrue(s: State) {
    && (forall i :: 0 <= i < |s.outbox| ==> EventIsTrue(s.outbox[i], s.trails))
    && (forall i, j :: 0 <= i < j < |s.outbox| && s.outbox[i].booking == s.outbox[j].booking ==>
          s.outbox[i].version < s.outbox[j].version)
  }

  ghost predicate HasEvent(outbox: seq<StatusEvent>, b: Id, version: nat) {
    exists i :: 0 <= i < |outbox| && outbox[i].booking == b && outbox[i].version == version
  }

  /** Every announced entry of a trail has its event. */
  ghost predicate EventsAreComplete(s: State) {
    forall b, v: nat :: b in s.trails && 1 <= v <= |s.trails[b]| && !Silent(s.trails[b][v - 1]) ==>
      HasEvent(s.outbox, b, v)
  }

  ghost predicate Invariant(s: State) {
    RowsMatchTrails(s) && ReadsAreEntries(s) && EventsAreTrue(s) && EventsAreComplete(s)
  }

  // ---- Exact compare-and-swap ----

  /** A winning update finds the very row the transaction checked: same version and same status. */
  lemma CasIsExact(s: State, t: Id)
    requires Invariant(s) && t in s.txs && s.txs[t].seen.Some?
    ensures Wins(s, s.txs[t]) <==>
            s.txs[t].booking in s.rows && s.rows[s.txs[t].booking] == s.txs[t].seen.value
  {
    assert SeenInTrail(s.txs[t], s.trails);
    var b := s.txs[t].booking;
    if b in s.rows {
      assert RowMatchesTrail(s.rows[b], s.trails[b]);
    }
  }

  // ---- Preservation ----

  /** Trails only grow. */
  ghost predicate TrailsGrow(before: map<Id, seq<BookingStatus>>, after: map<Id, seq<BookingStatus>>) {
    forall b :: b in before ==> b in after && before[b] <= after[b]
  }

  lemma GrowthKeepsEntries(before: map<Id, seq<BookingStatus>>, after: map<Id, seq<BookingStatus>>, tx: Tx)
    requires TrailsGrow(before, after) && SeenInTrail(tx, before)
    ensures SeenInTrail(tx, after)
  {
  }

  lemma GrowthKeepsEvent(before: map<Id, seq<BookingStatus>>, after: map<Id, seq<BookingStatus>>, e: StatusEvent)
    requires TrailsGrow(before, after) && EventIsTrue(e, before)
    ensures EventIsTrue(e, after)
  {
  }

  lemma StepGrowsTrails(s: State, a: Action)
    requires RowsMatchTrails(s)
    ensures TrailsGrow(s.trails, Step(s, a).trails)
  {
  }

  lemma CreateKeepsInvariant(s: State, b: Id)
    requires Invariant(s) && b !in s.rows
    ensures Invariant(CreateBooking(s, b))
  {
    var s' := CreateBooking(s, b);
    var e := StatusEvent(b, None, PENDING, 1);
    assert RowsMatchTrails(s');
    AppendKeepsEvents(s, s', [e]);
    forall t | t in s'.txs ensures SeenInTrail(s'.txs[t], s'.trails) {
      GrowthKeepsEntries(s.trails, s'.trails, s.txs[t]);
    }
    forall c, v: nat | c in s'.trails && 1 <= v <= |s'.trails[c]| && !Silent(s'.trails[c][v - 1])
      ensures HasEvent(s'.outbox, c, v)
    {
      assert [e][0].booking == b && [e][0].version == 1;
      CompletenessExtends(s, s', [e], c, v);
    }
  }

  /** Appending at most one true event, newer than the booking's others, keeps the outbox in order. */
  lemma AppendKeepsEvents(s: State, s': State, more: seq<StatusEvent>)
    requires EventsAreTrue(s) && TrailsGrow(s.trails, s'.trails)
    requires |more| <= 1 && s'.outbox == s.outbox + more
    requires forall e :: e in more ==>
      EventIsTrue(e, s'.trails) && (e.booking in s.trails ==> |s.trails[e.booking]| < e.version)
    ensures EventsAreTrue(s')
  {
    forall i | 0 <= i < |s'.outbox| ensures EventIsTrue(s'.outbox[i], s'.trails) {
      if i < |s.outbox| {
        GrowthKeepsEvent(s.trails, s'.trails, s.outbox[i]);
      } else {
        assert s'.outbox[i] in more;
      }
    }
    forall i, j | 0 <= i < j < |s'.outbox| && s'.outbox[i].booking == s'.outbox[j].booking
      ensures s'.outbox[i].version < s'.outbox[j].version
    {
      if j == |s.outbox| {
        assert s'.outbox[j] in more && EventIsTrue(s.outbox[i], s.trails);
      }
    }
  }

  lemma CompletenessExtends(s: State, s': State, more: seq<StatusEvent>, b: Id, v: nat)
    requires EventsAreComplete(s) && s'.outbox == s.outbox + more
    requires b in s'.trails && 1 <= v <= |s'.trails[b]| && !Silent(s'.trails[b][v - 1])
    requires b in s.trails && v <= |s.trails[b]| ==> s.trails[b][v - 1] == s'.trails[b][v - 1]
    requires b !in s.trails || |s.trails[b]| < v ==> HasEvent(more, b, v)
    ensures HasEvent(s'.outbox, b, v)
  {
    if b in s.trails && v <= |s.trails[b]| {
      assert HasEvent(s.outbox, b, v);
      var i :| 0 <= i < |s.outbox| && s.outbox[i].booking == b && s.outbox[i].version == v;
      assert s'.outbox[i] == s.outbox[i];
    } else {
      var i :| 0 <= i < |more| && more[i].booking == b && more[i].version == v;
      assert s'.outbox[|s.outbox| + i] == more[i];
    }
  }

  lemma TrailExtends(row: Row, trail: seq<BookingStatus>, kind: Transition)
    requires RowMatchesTrail(row, trail) && row.status in kind.From()
    ensures RowMatchesTrail(Row(kind.Target(), row.version + 1), trail + [kind.Target()])
  {
    var longer := trail + [kind.Target()];
    assert Edge(trail[|trail| - 1], kind.Target());
    forall i | 0 < i < |longer| ensures Edge(longer[i - 1], longer[i]) {
      assert i < |trail| ==> Edge(trail[i - 1], trail[i]);
    }
  }

  /** The state after booking b has made one more transition, with or without its event. */
  ghost predicate Extends(s: State, s': State, b: Id, kind: Transition, more: seq<StatusEvent>) {
    && b in s.rows && b in s.trails && s.rows[b].status in kind.From()
    && s'.rows == s.rows[b := Row(kind.Target(), s.rows[b].version + 1)]
    && s'.trails == s.trails[b := s.trails[b] + [kind.Target()]]
    && s'.outbox == s.outbox + more
    && (forall t :: t in s'.txs ==> t in s.txs && s'.txs[t] == s.txs[t])
    && more == if kind.Announced()
               then [StatusEvent(b, Some(s.rows[b].status), kind.Target(), s.rows[b].version + 1)] else []
  }

  lemma WinExtends(s: State, t: Id)
    requires Invariant(s) && Allowed(s, Write(t)) && Wins(s, s.txs[t])
    ensures exists more :: Extends(s, WriteRow(s, t), s.txs[t].booking, s.txs[t].kind, more)
  {
    CasIsExact(s, t);
    var tx := s.txs[t];
    assert SeenInTrail(tx, s.trails);
    var more := if tx.kind.Announced()
                then [StatusEvent(tx.booking, Some(tx.seen.value.status), tx.kind.Target(), Expected(tx))] else [];
    assert Extends(s, WriteRow(s, t), tx.booking, tx.kind, more);
  }

  lemma ExtensionKeepsEvents(s: State, s': State, b: Id, kind: Transition, more: seq<StatusEvent>)
    requires RowsMatchTrails(s) && EventsAreTrue(s) && Extends(s, s', b, kind, more)
    ensures EventsAreTrue(s')
  {
    assert RowMatchesTrail(s.rows[b], s.trails[b]);
    assert kind.Announced() <==> !Silent(kind.Target());
    AppendKeepsEvents(s, s', more);
  }

  lemma ExtensionKeepsInvariant(s: State, s': State, b: Id, kind: Transition, more: seq<StatusEvent>)
    requires Invariant(s) && Extends(s, s', b, kind, more)
    ensures Invariant(s')
  {
    TrailExtends(s.rows[b], s.trails[b], kind);
    ExtensionKeepsRows(s, s', b, kind, more);
    ExtensionKeepsReads(s, s', b, kind, more);
    ExtensionKeepsEvents(s, s', b, kind, more);
    ExtensionIsComplete(s, s', b, kind, more);
  }

  lemma ExtensionKeepsRows(s: State, s': State, b: Id, kind: Transition, more: seq<StatusEvent>)
    requires RowsMatchTrails(s) && Extends(s, s', b, kind, more)
    requires RowMatchesTrail(s'.rows[b], s'.trails[b])
    ensures RowsMatchTrails(s')
  {
    forall c | c in s'.rows ensures RowMatchesTrail(s'.rows[c], s'.trails[c]) {
      assert c != b ==> RowMatchesTrail(s.rows[c], s.trails[c]);
    }
  }

  lemma ExtensionKeepsReads(s: State, s': State, b: Id, kind: Transition, more: seq<StatusEvent>)
    requires ReadsAreEntries(s) && Extends(s, s', b, kind, more)
    ensures ReadsAreEntries(s')
  {
    forall u | u in s'.txs ensures SeenInTrail(s'.txs[u], s'.trails) {
      GrowthKeepsEntries(s.trails, s'.trails, s.txs[u]);
    }
  }

  lemma ExtensionIsComplete(s: State, s': State, b: Id, kind: Transition, more: seq<StatusEvent>)
    requires RowsMatchTrails(s) && EventsAreComplete(s) && Extends(s, s', b, kind, more)
    ensures EventsAreComplete(s')
  {
    assert RowMatchesTrail(s.rows[b], s.trails[b]);
    forall c, v: nat | c in s'.trails && 1 <= v <= |s'.trails[c]| && !Silent(s'.trails[c][v - 1])
      ensures HasEvent(s'.outbox, c, v)
    {
      if c == b && v == |s'.trails[b]| {
        assert more[0].booking == b && more[0].version == v;
      }
      CompletenessExtends(s, s', more, c, v);
    }
  }

  lemma WriteKeepsInvariant(s: State, t: Id)
    requires Invariant(s) && Allowed(s, Write(t))
    ensures Invariant(WriteRow(s, t))
  {
    if Wins(s, s.txs[t]) {
      WinExtends(s, t);
      var more :| Extends(s, WriteRow(s, t), s.txs[t].booking, s.txs[t].kind, more);
      ExtensionKeepsInvariant(s, WriteRow(s, t), s.txs[t].booking, s.txs[t].kind, more);
    }
  }

  /** Apart from creations, only a winning write changes rows, trails or outbox. */
  lemma StepOutcome(s: State, a: Action)
    requires Invariant(s) && !a.Create?
    ensures var s' := Step(s, a);
            || (s'.rows == s.rows && s'.trails == s.trails && s'.outbox == s.outbox)
            || (a.Write? && a.tx in s.txs
                && exists more :: Extends(s, s', s.txs[a.tx].booking, s.txs[a.tx].kind, more))
    ensures forall t :: t in Step(s, a).txs ==>
              || (t in s.txs && Step(s, a).txs[t].kind == s.txs[t].kind
                   && Step(s, a).txs[t].booking == s.txs[t].booking)
              || (a.Begin? && Step(s, a).txs[t].kind == a.kind && Step(s, a).txs[t].booking == a.booking)
  {
    if a.Write? && Allowed(s, a) && Wins(s, s.txs[a.tx]) {
      WinExtends(s, a.tx);
    }
  }

  lemma StepKeepsInvariant(s: State, a: Action)
    requires Invariant(s)
    ensures Invariant(Step(s, a))
  {
    if Allowed(s, a) {
      match a
      case Create(b) => CreateKeepsInvariant(s, b);
      case Write(t) => WriteKeepsInvariant(s, t);
      case Read(t) =>
        if s.txs[t].booking in s.rows {
          assert RowMatchesTrail(s.rows[s.txs[t].booking], s.trails[s.txs[t].booking]);
        }
      case Begin(_, _, _) =>
      case Vanish(_) =>
    }
  }

  lemma {:induction false} RunsKeepInvariant(actions: seq<Action>)
    ensures Invariant(Run(actions))
  {
    if actions != [] {
      RunsKeepInvariant(actions[..|actions| - 1]);
      StepKeepsInvariant(Run(actions[..|actions| - 1]), actions[|actions| - 1]);
    }
  }

  // ---- Whole runs ----

  /** In every run a winning write replaces exactly the row its transaction checked. */
  lemma EveryWinIsExact(actions: seq<Action>, t: Id)
    requires var s := Run(actions); t in s.txs && s.txs[t].seen.Some?
    ensures var s := Run(actions); var b := s.txs[t].booking;
            && (Wins(s, s.txs[t]) <==> b in s.rows && s.rows[b] == s.txs[t].seen.value)
            && (Wins(s, s.txs[t]) ==> s.rows[b].status in s.txs[t].kind.From())
  {
    RunsKeepInvariant(actions);
    CasIsExact(Run(actions), t);
    assert SeenInTrail(Run(actions).txs[t], Run(actions).trails);
  }

  /**
   * The life of a booking in every run: its version counts its statuses, ranks only rise, a final status is
   * never left, and CONFIRMED is reached by one road only.
   */
  lemma LifecycleOfEveryRun(actions: seq<Action>, b: Id)
    requires b in Run(actions).rows
    ensures var s := Run(actions);
            && b in s.trails && Lawful(s.trails[b])
            && s.rows[b].version == |s.trails[b]| <= 7
            && s.rows[b].status == s.trails[b][|s.trails[b]| - 1]
            && (forall i, j :: 0 <= i < j < |s.trails[b]| ==> s.trails[b][i].Rank() < s.trails[b][j].Rank())
            && (s.rows[b].status == CONFIRMED ==>
                  s.trails[b] == [PENDING, SEATS_HELD, PAYMENT_PENDING, CONFIRMING, CONFIRMED])
  {
    RunsKeepInvariant(actions);
    var s := Run(actions);
    assert RowMatchesTrail(s.rows[b], s.trails[b]);
    LawfulShape(s.trails[b]);
    var n := |s.trails[b]|;
    assert s.trails[b][..n - 1 + 1] == s.trails[b];
  }

  lemma {:induction false} HistoryIsNeverRewritten(actions: seq<Action>, more: seq<Action>)
    ensures TrailsGrow(Run(actions).trails, Run(actions + more).trails)
  {
    if more == [] {
      assert actions + more == actions;
    } else {
      var init := more[..|more| - 1];
      HistoryIsNeverRewritten(actions, init);
      RunsKeepInvariant(actions + init);
      assert (actions + more)[..|actions + more| - 1] == actions + init;
      StepGrowsTrails(Run(actions + init), more[|more| - 1]);
    }
  }

  /** FAILED, EXPIRED and CANCELLED are final: whatever happens next, the row stays as it is. */
  lemma FinalStatusIsKept(actions: seq<Action>, more: seq<Action>, b: Id)
    requires b in Run(actions).rows && Run(actions).rows[b].status.Final()
    ensures b in Run(actions + more).rows && Run(actions + more).rows[b] == Run(actions).rows[b]
  {
    HistoryIsNeverRewritten(actions, more);
    RunsKeepInvariant(actions);
    RunsKeepInvariant(actions + more);
    var s, s' := Run(actions), Run(actions + more);
    assert RowMatchesTrail(s.rows[b], s.trails[b]) && RowMatchesTrail(s'.rows[b], s'.trails[b]);
    LawfulShape(s'.trails[b]);
    assert s.trails[b] <= s'.trails[b];
    assert s'.trails[b][|s.trails[b]| - 1].Final();
  }

  lemma OnlyAnnouncedHaveEvents(s: State, b: Id, v: nat)
    requires EventsAreTrue(s) && EventsAreComplete(s)
    requires b in s.trails && 1 <= v <= |s.trails[b]|
    ensures HasEvent(s.outbox, b, v) <==> !Silent(s.trails[b][v - 1])
  {
    if HasEvent(s.outbox, b, v) {
      var i :| 0 <= i < |s.outbox| && s.outbox[i].booking == b && s.outbox[i].version == v;
      assert EventIsTrue(s.outbox[i], s.trails);
    }
  }

  /**
   * The outbox of every run: events are true, versions of one booking strictly increase, and an entry of
   * the history has an event exactly when its transition was not one of the three silent ones.
   */
  lemma OutboxOfEveryRun(actions: seq<Action>, b: Id, v: nat)
    requires b in Run(actions).trails && 1 <= v <= |Run(actions).trails[b]|
    ensures EventsAreTrue(Run(actions))
    ensures HasEvent(Run(actions).outbox, b, v) <==> !Silent(Run(actions).trails[b][v - 1])
  {
    RunsKeepInvariant(actions);
    OnlyAnnouncedHaveEvents(Run(actions), b, v);
  }
}
