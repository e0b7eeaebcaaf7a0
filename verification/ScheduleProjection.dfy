/** Schedules: the admin service's versioned log, and the inventory and search projections that follow it. */
module ScheduleProjection {
  import opened Prelude
  import opened Inventory

  datatype ScheduleStatus = DRAFT | ACTIVE | SCHEDULED | CANCELLED | COMPLETED

  /** What the event contract lets through. */
  predicate Announceable(status: ScheduleStatus) {
    status in {ScheduleStatus.DRAFT, ScheduleStatus.ACTIVE, ScheduleStatus.CANCELLED}
  }

  datatype Event =
    | Created(schedule: Id, status: ScheduleStatus, version: nat, layout: Inventory)
    | StatusChanged(schedule: Id, status: ScheduleStatus, version: nat)

  // ---- Admin side ----

  datatype Train = Train(operatingDays: seq<nat>, layout: Option<Inventory>)

  datatype Schedule = Schedule(train: Id, date: int, status: ScheduleStatus, version: nat)

  datatype AdminError = TRAIN_NOT_FOUND | NO_OPERATING_DAYS | NOT_OPERATING_ON_DAY | ROUTE_NOT_FOUND
    | ROUTE_MIN_STATIONS_REQUIRED | ALREADY_SCHEDULED | SCHEDULE_NOT_FOUND | EVENT_REJECTED

  ghost predicate About(e: Event, id: Id) {
    e.schedule == id
  }

  /** Position k of a schedule's history in the log. */
  ghost predicate Version(log: seq<Event>, id: Id, version: nat) {
    exists e :: e in log && About(e, id) && e.version == version
  }

  /** The log tells each schedule's versions 1, 2, ... once each, opening with the creation. */
  ghost predicate LogOk(log: seq<Event>) {
    && (forall d, e :: d in log && e in log && About(d, e.schedule) && d.version == e.version ==> d == e)
    && (forall e :: e in log ==> Announceable(e.status) && (e.Created? <==> e.version == 1) && e.version >= 1)
  }

  /** The log and the stored row agree: all versions up to the row's are told, the last with the row's status. */
  ghost predicate LogTells(log: seq<Event>, id: Id, row: Schedule) {
    && row.version >= 1
    && (forall v: nat :: Version(log, id, v) <==> 1 <= v <= row.version)
    && (forall e :: e in log && About(e, id) && e.version == row.version ==> e.status == row.status)
  }

  predicate Taken(schedules: map<Id, Schedule>, trainId: Id, date: int) {
    exists s :: s in schedules && schedules[s].train == trainId && schedules[s].date == date
  }

  /** A train departs at most once a day. */
  ghost predicate OneJourneyPerDay(schedules: map<Id, Schedule>) {
    forall s, t :: s in schedules && t in schedules && s != t ==>
      !(schedules[s].train == schedules[t].train && schedules[s].date == schedules[t].date)
  }

  /** The last check of a creation is exactly what keeps a train to one journey a day. */
  lemma OneMoreJourney(schedules: map<Id, Schedule>, id: Id, row: Schedule)
    requires OneJourneyPerDay(schedules) && id !in schedules
    ensures OneJourneyPerDay(schedules[id := row]) <==> !Taken(schedules, row.train, row.date)
  {
    var after := schedules[id := row];
    if Taken(schedules, row.train, row.date) {
      var s :| s in schedules && schedules[s].train == row.train && schedules[s].date == row.date;
      assert after[s] == schedules[s] && after[id] == row;
    }
  }

  /** The checks of a creation, in the order they are made. */
  function CreationRefusal(schedules: map<Id, Schedule>, trainId: Id, train: Option<Train>, date: int, dayOfWeek: nat)
    : (error: Option<AdminError>)
    ensures error.None? <==> train.Some? && dayOfWeek in train.value.operatingDays && train.value.layout.Some?
                             && |train.value.layout.value.stops| >= 2 && !Taken(schedules, trainId, date)
  {
    if train.None? then Some(TRAIN_NOT_FOUND)
    else if train.value.operatingDays == [] then Some(NO_OPERATING_DAYS)
    else if dayOfWeek !in train.value.operatingDays then Some(NOT_OPERATING_ON_DAY)
    else if train.value.layout.None? then Some(ROUTE_NOT_FOUND)
    else if |train.value.layout.value.stops| < 2 then Some(ROUTE_MIN_STATIONS_REQUIRED)
    else if Taken(schedules, trainId, date) then Some(ALREADY_SCHEDULED)
    else None
  }

  class AdminScheduleService {
    var schedules: map<Id, Schedule>
    var outbox: seq<Event>

    ghost predicate Valid()
      reads this
    {
      && LogOk(outbox) && OneJourneyPerDay(schedules)
      && (forall id :: id in schedules ==> LogTells(outbox, id, schedules[id]))
      && (forall e :: e in outbox ==> e.schedule in schedules)
    }

    constructor ()
      ensures Valid() && schedules == map[] && outbox == []
    {
      schedules, outbox := map[], [];
    }

    method CreateSchedule(id: Id, trainId: Id, train: Option<Train>, date: int, dayOfWeek: nat)
      returns (error: Option<AdminError>)
      requires Valid() && id !in schedules
      modifies this
      ensures Valid()
      ensures error == Some(TRAIN_NOT_FOUND) <==> train.None?
      ensures error == Some(NO_OPERATING_DAYS) <==> train.Some? && train.value.operatingDays == []
      ensures error == Some(NOT_OPERATING_ON_DAY) <==>
                train.Some? && train.value.operatingDays != [] && dayOfWeek !in train.value.operatingDays
      ensures error == Some(ROUTE_NOT_FOUND) <==>
                train.Some? && dayOfWeek in train.value.operatingDays && train.value.layout.None?
      ensures error == Some(ROUTE_MIN_STATIONS_REQUIRED) <==>
                train.Some? && dayOfWeek in train.value.operatingDays && train.value.layout.Some?
                && |train.value.layout.value.stops| < 2
      ensures error == Some(ALREADY_SCHEDULED) <==>
                train.Some? && dayOfWeek in train.value.operatingDays && train.value.layout.Some?
                && |train.value.layout.value.stops| >= 2
                && exists s :: s in old(schedules) && old(schedules)[s].train == trainId
                               && old(schedules)[s].date == date
      ensures error.None? <==>
                train.Some? && dayOfWeek in train.value.operatingDays && train.value.layout.Some?
                && |train.value.layout.value.stops| >= 2
                && forall s :: s in old(schedules) ==>
                     !(old(schedules)[s].train == trainId && old(schedules)[s].date == date)
      ensures error.None? ==> schedules == old(schedules)[id := Schedule(trainId, date, ScheduleStatus.ACTIVE, 1)]
                              && outbox == old(outbox)
                                           + [Created(id, ScheduleStatus.ACTIVE, 1, train.value.layout.value)]
      ensures error.Some? ==> schedules == old(schedules) && outbox == old(outbox)
    {
      error := CreationRefusal(schedules, trainId, train, date, dayOfWeek);
      if error.Some? {
        return;
      }
      var event := Created(id, ScheduleStatus.ACTIVE, 1, train.value.layout.value);
      OneMoreJourney(schedules, id, Schedule(trainId, date, ScheduleStatus.ACTIVE, 1));
      LogGrows(outbox, event, schedules, Schedule(trainId, date, ScheduleStatus.ACTIVE, 1));
      schedules := schedules[id := Schedule(trainId, date, ScheduleStatus.ACTIVE, 1)];
      outbox := outbox + [event];
    }

    /** `hasRoute` is false once the train's active route is gone; the event then cannot be written. */
    method UpdateScheduleStatus(id: Id, status: ScheduleStatus, hasRoute: bool) returns (error: Option<AdminError>)
      requires Valid()
      modifies this
      ensures Valid()
      ensures error == Some(SCHEDULE_NOT_FOUND) <==> id !in old(schedules)
      ensures error.None? <==> id in old(schedules)
                               && (old(schedules)[id].status == status
                                   || (hasRoute && status != SCHEDULED && status != COMPLETED))
      ensures error.None? && old(schedules)[id].status != status ==>
                schedules == old(schedules)[id := old(schedules)[id].(status := status,
                                                                      version := old(schedules)[id].version + 1)]
                && outbox == old(outbox) + [StatusChanged(id, status, old(schedules)[id].version + 1)]
      ensures error.Some? || old(schedules)[id].status == status ==>
                schedules == old(schedules) && outbox == old(outbox)
    {
      if id !in schedules { return Some(SCHEDULE_NOT_FOUND); }
      var row := schedules[id];
      if row.status == status { return None; }
      if !hasRoute || !Announceable(status) { return Some(EVENT_REJECTED); }
      var event := StatusChanged(id, status, row.version + 1);
      LogGrows(outbox, event, schedules, row.(status := status, version := row.version + 1));
      schedules := schedules[id := row.(status := status, version := row.version + 1)];
      outbox := outbox + [event];
      return None;
    }
  }

  /** Writing the next version of one schedule keeps the log in step with every row. */
  lemma LogGrows(log: seq<Event>, event: Event, rows: map<Id, Schedule>, row: Schedule)
    requires LogOk(log)
    requires forall id :: id in rows ==> LogTells(log, id, rows[id])
    requires forall e :: e in log ==> e.schedule in rows
    requires Announceable(event.status) && row.version == event.version && row.status == event.status
    requires if event.schedule in rows then event.StatusChanged? && event.version == rows[event.schedule].version + 1
             else event.Created? && event.version == 1
    ensures LogOk(log + [event])
    ensures forall id :: id in rows && id != event.schedule ==> LogTells(log + [event], id, rows[id])
    ensures LogTells(log + [event], event.schedule, row)
  {
    var log' := log + [event];
    assert forall e :: e in log' <==> e in log || e == event;
    forall e | e in log && About(e, event.schedule) ensures e.version < event.version {
      assert Version(log, event.schedule, e.version);
    }
    forall id: Id, v: nat
      ensures Version(log', id, v) <==> Version(log, id, v) || (About(event, id) && v == event.version)
    {
      if Version(log, id, v) {
        var e :| e in log && About(e, id) && e.version == v;
        assert e in log';
      }
      assert event in log';
    }
    forall v: nat ensures Version(log', event.schedule, v) <==> 1 <= v <= row.version {
      assert event.schedule !in rows ==> !Version(log, event.schedule, v);
    }
  }

  // ---- Inventory projection ----

  datatype InventoryStatus = ACTIVE | CANCELLED

  datatype Projection = Projection(status: InventoryStatus, version: nat, layout: Inventory)

  datatype Notice = LayoutProjected(schedule: Id, version: nat)
    | StatusProjected(schedule: Id, status: InventoryStatus, version: nat)

  function Collapse(status: ScheduleStatus): InventoryStatus {
    if status == ScheduleStatus.CANCELLED then InventoryStatus.CANCELLED else InventoryStatus.ACTIVE
  }

  /** The inventory knows two statuses: CANCELLED is CANCELLED, and nothing else is. */
  ghost predicate Reads(status: InventoryStatus, told: ScheduleStatus) {
    status == InventoryStatus.CANCELLED <==> told == ScheduleStatus.CANCELLED
  }

  /** What one delivery does to the inventory rows; a status event for an unknown schedule is refused. */
  function InventoryStep(rows: map<Id, Projection>, e: Event): map<Id, Projection> {
    match e
    case Created(id, status, version, layout) =>
      if id in rows && rows[id].version >= version then rows
      else rows[id := Projection(Collapse(status), version, layout)]
    case StatusChanged(id, status, version) =>
      if id in rows && rows[id].version < version
      then rows[id := rows[id].(status := Collapse(status), version := version)]
      else rows
  }

  class InventoryScheduleService {
    var rows: map<Id, Projection>
    var outbox: seq<Notice>

    constructor ()
      ensures rows == map[] && outbox == []
    {
      rows, outbox := map[], [];
    }

    method ProcessCreated(e: Event)
      requires e.Created?
      modifies this
      ensures rows == InventoryStep(old(rows), e)
      ensures outbox == if rows == old(rows) then old(outbox)
                        else old(outbox) + [LayoutProjected(e.schedule, e.version)]
      ensures e.schedule in old(rows) && old(rows)[e.schedule].version >= e.version ==> rows == old(rows)
      ensures !(e.schedule in old(rows) && old(rows)[e.schedule].version >= e.version) ==>
                && rows.Keys == old(rows).Keys + {e.schedule}
                && (forall id :: id in old(rows) && id != e.schedule ==> rows[id] == old(rows)[id])
                && Reads(rows[e.schedule].status, e.status)
                && rows[e.schedule].version == e.version && rows[e.schedule].layout == e.layout
    {
      if e.schedule in rows {
        if rows[e.schedule].version >= e.version {
          return;
        }
        rows := rows - {e.schedule};
      }
      rows := rows[e.schedule := Projection(Collapse(e.status), e.version, e.layout)];
      outbox := outbox + [LayoutProjected(e.schedule, e.version)];
    }

    method ProcessStatusChanged(e: Event) returns (found: bool)
      requires e.StatusChanged?
      modifies this
      ensures found <==> e.schedule in old(rows)
      ensures rows == InventoryStep(old(rows), e)
      ensures outbox == if rows == old(rows) then old(outbox)
                        else old(outbox) + [StatusProjected(e.schedule, rows[e.schedule].status, e.version)]
      ensures !(e.schedule in old(rows) && old(rows)[e.schedule].version < e.version) ==> rows == old(rows)
      ensures e.schedule in old(rows) && old(rows)[e.schedule].version < e.version ==>
                && rows.Keys == old(rows).Keys
                && (forall id :: id in old(rows) && id != e.schedule ==> rows[id] == old(rows)[id])
                && Reads(rows[e.schedule].status, e.status)
                && rows[e.schedule].version == e.version && rows[e.schedule].layout == old(rows)[e.schedule].layout
    {
      if e.schedule !in rows {
        return false;
      }
      var updated := UpdateStatus(e.schedule, Collapse(e.status), e.version);
      if updated {
        outbox := outbox + [StatusProjected(e.schedule, Collapse(e.status), e.version)];
      }
      return true;
    }

    /** `updateMany` with the guard version < expected. */
    method UpdateStatus(id: Id, status: InventoryStatus, version: nat) returns (updated: bool)
      modifies this`rows
      ensures updated <==> id in old(rows) && old(rows)[id].version < version
      ensures rows == if updated then old(rows)[id := old(rows)[id].(status := status, version := version)]
                      else old(rows)
    {
      if id in rows && rows[id].version < version {
        rows := rows[id := rows[id].(status := status, version := version)];
        return true;
      }
      return false;
    }
  }

  // ---- Search projection ----

  datatype Document = Document(status: ScheduleStatus, version: nat, layout: Inventory)

  datatype UpdateResult = Applied | STALE | NOT_FOUND

  /** The index, and the events whose processing completed. */
  datatype SearchState = SearchState(documents: map<Id, Document>, applied: set<Event>)

  /**
   * A delivery to search-service: whether another attempt at the event is under way, and whether the idempotency
   * store still remembers the event if it was processed before.
   */
  datatype Delivery = Delivery(event: Event, inFlight: bool, remembered: bool)

  function Index(documents: map<Id, Document>, e: Event): map<Id, Document> {
    match e
    case Created(id, status, version, layout) =>
      if id !in documents || documents[id].version <= version then documents[id := Document(status, version, layout)]
      else documents
    case StatusChanged(id, status, version) =>
      if id in documents && documents[id].version < version
      then documents[id := documents[id].(status := status, version := version)]
      else documents
  }

  predicate Refused(documents: map<Id, Document>, e: Event) {
    e.StatusChanged? && e.schedule !in documents
  }

  function SearchStep(s: SearchState, d: Delivery): SearchState {
    if d.inFlight || (d.remembered && d.event in s.applied) then s
    else if Refused(s.documents, d.event) then s
    else SearchState(Index(s.documents, d.event), s.applied + {d.event})
  }

  class TrainSearchRepository {
    var documents: map<Id, Document>

    method Upsert(e: Event)
      requires e.Created?
      modifies this
      ensures documents == Index(old(documents), e)
      ensures documents == if e.schedule in old(documents) && old(documents)[e.schedule].version > e.version
                           then old(documents)
                           else old(documents)[e.schedule := Document(e.status, e.version, e.layout)]
    {
      var doc := Document(e.status, e.version, e.layout);
      if e.schedule !in documents {
        documents := documents[e.schedule := doc];
      } else if documents[e.schedule].version <= e.version {
        documents := documents[e.schedule := doc];
      }
    }

    method UpdateStatus(id: Id, status: ScheduleStatus, version: nat) returns (result: UpdateResult)
      modifies this
      ensures documents == Index(old(documents), StatusChanged(id, status, version))
      ensures result == if id !in old(documents) then NOT_FOUND
                        else if old(documents)[id].version < version then Applied else STALE
      ensures documents == if result.Applied?
                           then old(documents)[id := Document(status, version, old(documents)[id].layout)]
                           else old(documents)
    {
      if id !in documents {
        return NOT_FOUND;
      }
      if documents[id].version < version {
        documents := documents[id := documents[id].(status := status, version := version)];
        return Applied;
      }
      return STALE;
    }
  }

  // ---- Runs: any list of deliveries ----

  function SearchRun(ds: seq<Delivery>): SearchState {
    if ds == [] then SearchState(map[], {}) else SearchStep(SearchRun(ds[..|ds| - 1]), ds[|ds| - 1])
  }

  function InventoryRun(es: seq<Event>): map<Id, Projection> {
    if es == [] then map[] else InventoryStep(InventoryRun(es[..|es| - 1]), es[|es| - 1])
  }

  /** The events that were attempted: a delivery beside an attempt under way is dropped like a lost one. */
  function Events(ds: seq<Delivery>): seq<Event> {
    if ds == [] then []
    else
      Events(ds[..|ds| - 1]) + (if ds[|ds| - 1].inFlight then [] else [ds[|ds| - 1].event])
  }

  /** Every delivery is of an event of the log: any order, any repeats, any losses. */
  ghost predicate From(log: seq<Event>, es: seq<Event>) {
    forall e :: e in es ==> e in log
  }

  ghost predicate CreatedIn(es: seq<Event>, id: Id) {
    exists e :: e in es && e.Created? && About(e, id)
  }

  /** Event e of schedule id is delivered, and not before the schedule's creation has been. */
  ghost predicate Counted(es: seq<Event>, id: Id, e: Event) {
    && About(e, id)
    && exists i, j :: 0 <= i <= j < |es| && es[i].Created? && About(es[i], id) && es[j] == e
  }

  lemma CountedGrows(es: seq<Event>, x: Event, id: Id, e: Event)
    ensures Counted(es + [x], id, e) <==>
              Counted(es, id, e) || (About(e, id) && x == e && (x.Created? || CreatedIn(es, id)))
  {
    var es' := es + [x];
    if Counted(es, id, e) {
      var i, j :| 0 <= i <= j < |es| && es[i].Created? && About(es[i], id) && es[j] == e;
      assert es'[i].Created? && About(es'[i], id) && es'[j] == e;
    }
    if About(e, id) && x == e && (x.Created? || CreatedIn(es, id)) {
      assert es'[|es|] == x;
      if !x.Created? {
        var c :| c in es && c.Created? && About(c, id);
        var i :| 0 <= i < |es| && es[i] == c;
        assert es'[i].Created? && About(es'[i], id) && es'[|es|] == e;
      } else {
        assert es'[|es|].Created? && About(es'[|es|], id);
      }
    }
    if Counted(es', id, e) {
      var i, j :| 0 <= i <= j < |es'| && es'[i].Created? && About(es'[i], id) && es'[j] == e;
      if j < |es| {
        assert es[i].Created? && About(es[i], id) && es[j] == e;
      } else if i < |es| {
        assert es[i] in es;
      }
    }
  }

  ghost predicate IsHighest(es: seq<Event>, id: Id, e: Event) {
    Counted(es, id, e) && forall d :: Counted(es, id, d) ==> d.version <= e.version
  }

  ghost predicate Shows(documents: map<Id, Document>, id: Id, e: Event) {
    id in documents && documents[id].status == e.status && documents[id].version == e.version
  }

  ghost predicate Tracks(documents: map<Id, Document>, es: seq<Event>, id: Id) {
    && (id in documents <==> CreatedIn(es, id))
    && (id in documents ==> exists e :: IsHighest(es, id, e) && Shows(documents, id, e))
    && (id in documents ==> forall c :: c in es && c.Created? && About(c, id) ==> documents[id].layout == c.layout)
  }

  ghost predicate AppliedIsOld(s: SearchState, id: Id) {
    forall e :: e in s.applied && About(e, id) ==> id in s.documents && s.documents[id].version >= e.version
  }

  lemma CreatedGrows(es: seq<Event>, x: Event, id: Id)
    ensures CreatedIn(es + [x], id) <==> CreatedIn(es, id) || (x.Created? && About(x, id))
  {
    assert forall e :: e in es + [x] <==> e in es || e == x;
  }

  lemma HighestKept(es: seq<Event>, x: Event, id: Id, h: Event)
    requires IsHighest(es, id, h)
    requires !About(x, id) || x.version <= h.version
    ensures IsHighest(es + [x], id, h)
  {
    forall d ensures Counted(es + [x], id, d) ==> d.version <= h.version {
      CountedGrows(es, x, id, d);
    }
    CountedGrows(es, x, id, h);
  }

  lemma HighestReplaced(es: seq<Event>, x: Event, id: Id)
    requires About(x, id) && (x.Created? || CreatedIn(es, id))
    requires forall d :: Counted(es, id, d) ==> d.version <= x.version
    ensures IsHighest(es + [x], id, x)
  {
    forall d ensures Counted(es + [x], id, d) ==> d.version <= x.version {
      CountedGrows(es, x, id, d);
    }
    CountedGrows(es, x, id, x);
  }

  lemma CountedNeedsCreation(es: seq<Event>, id: Id, d: Event)
    ensures Counted(es, id, d) ==> CreatedIn(es, id)
  {
    if Counted(es, id, d) {
      var i, j :| 0 <= i <= j < |es| && es[i].Created? && About(es[i], id) && es[j] == d;
      assert es[i] in es;
    }
  }

  lemma CountedIsIn(es: seq<Event>, id: Id, e: Event)
    ensures Counted(es, id, e) ==> e in es && About(e, id)
  {
  }

  /** The document moves to event x. */
  lemma NewerTracks(documents: map<Id, Document>, es: seq<Event>, x: Event, id: Id, after: map<Id, Document>)
    requires Tracks(documents, es, id) && About(x, id) && id in documents && documents[id].version < x.version
    requires Shows(after, id, x)
    requires after[id].layout == if x.Created? then x.layout else documents[id].layout
    requires forall c :: c in es && c.Created? && About(c, id) && x.Created? ==> c.layout == x.layout
    ensures Tracks(after, es + [x], id)
  {
    var h :| IsHighest(es, id, h) && Shows(documents, id, h);
    assert forall e :: e in es + [x] <==> e in es || e == x;
    CreatedGrows(es, x, id);
    CountedNeedsCreation(es, id, h);
    HighestReplaced(es, x, id);
  }

  /** The document stays: x is about another schedule, or no newer than what is shown. */
  lemma OlderTracks(documents: map<Id, Document>, es: seq<Event>, x: Event, id: Id, after: map<Id, Document>)
    requires Tracks(documents, es, id) && id in documents && (About(x, id) ==> x.version <= documents[id].version)
    requires id in after && after[id] == documents[id]
    requires x.Created? && About(x, id) ==> documents[id].layout == x.layout
    ensures Tracks(after, es + [x], id)
  {
    var h :| IsHighest(es, id, h) && Shows(documents, id, h);
    assert forall e :: e in es + [x] <==> e in es || e == x;
    CreatedGrows(es, x, id);
    HighestKept(es, x, id, h);
    assert Shows(after, id, h);
  }

  /** The first creation makes the document. */
  lemma CreationTracks(documents: map<Id, Document>, es: seq<Event>, x: Event, id: Id, after: map<Id, Document>)
    requires Tracks(documents, es, id) && id !in documents && About(x, id) && x.Created?
    requires Shows(after, id, x) && after[id].layout == x.layout
    ensures Tracks(after, es + [x], id)
  {
    assert forall e :: e in es + [x] <==> e in es || e == x;
    CreatedGrows(es, x, id);
    forall d ensures !Counted(es, id, d) {
      CountedNeedsCreation(es, id, d);
    }
    HighestReplaced(es, x, id);
  }

  /** Before the creation nothing is counted and there is no document. */
  lemma NothingTracks(documents: map<Id, Document>, es: seq<Event>, x: Event, id: Id, after: map<Id, Document>)
    requires Tracks(documents, es, id) && id !in documents && id !in after && !(About(x, id) && x.Created?)
    ensures Tracks(after, es + [x], id)
  {
    CreatedGrows(es, x, id);
  }

  lemma OneCreation(log: seq<Event>, es: seq<Event>, x: Event, id: Id)
    requires LogOk(log) && From(log, es + [x]) && x.Created? && About(x, id)
    ensures forall c :: c in es && c.Created? && About(c, id) ==> c == x
  {
    assert x in es + [x];
    assert forall c :: c in es ==> c in es + [x];
  }

  /** A document at version v shows the status and layout of the log's event at v. */
  lemma ShownAtItsVersion(log: seq<Event>, documents: map<Id, Document>, es: seq<Event>, x: Event)
    requires LogOk(log) && From(log, es + [x]) && Tracks(documents, es, x.schedule)
    requires x.schedule in documents && documents[x.schedule].version == x.version
    ensures documents[x.schedule].status == x.status
    ensures x.Created? ==> documents[x.schedule].layout == x.layout
  {
    var id := x.schedule;
    var h :| IsHighest(es, id, h) && Shows(documents, id, h);
    CountedIsIn(es, id, h);
    assert h in es + [x] && x in es + [x];
    assert h == x;
  }

  lemma CreationLayout(log: seq<Event>, documents: map<Id, Document>, es: seq<Event>, x: Event)
    requires LogOk(log) && From(log, es + [x]) && Tracks(documents, es, x.schedule)
    requires x.Created? && x.schedule in documents
    ensures documents[x.schedule].layout == x.layout
  {
    OneCreation(log, es, x, x.schedule);
    var c :| c in es && c.Created? && About(c, x.schedule);
  }

  /** One delivery keeps the index at the highest counted event. */
  lemma IndexTracks(log: seq<Event>, documents: map<Id, Document>, es: seq<Event>, x: Event, id: Id)
    requires LogOk(log) && From(log, es + [x]) && Tracks(documents, es, id)
    ensures Tracks(Index(documents, x), es + [x], id)
  {
    var after := Index(documents, x);
    if id !in documents {
      if About(x, id) && x.Created? {
        CreationTracks(documents, es, x, id, after);
      } else {
        NothingTracks(documents, es, x, id, after);
      }
    } else {
      if x.Created? && About(x, id) {
        OneCreation(log, es, x, id);
        CreationLayout(log, documents, es, x);
      }
      if About(x, id) && documents[id].version < x.version {
        NewerTracks(documents, es, x, id, after);
      } else {
        if About(x, id) && documents[id].version == x.version {
          ShownAtItsVersion(log, documents, es, x);
        }
        OlderTracks(documents, es, x, id, after);
      }
    }
  }

  /** A delivery that changes nothing: the event is refused, or the document has its version already. */
  lemma SkipTracks(log: seq<Event>, documents: map<Id, Document>, es: seq<Event>, x: Event, id: Id)
    requires LogOk(log) && From(log, es + [x]) && Tracks(documents, es, id)
    requires About(x, id) ==>
               if id in documents then x.version <= documents[id].version else x.StatusChanged?
    ensures Tracks(documents, es + [x], id)
  {
    if id in documents {
      if x.Created? && About(x, id) {
        CreationLayout(log, documents, es, x);
      }
      OlderTracks(documents, es, x, id, documents);
    } else {
      NothingTracks(documents, es, x, id, documents);
    }
  }

  lemma FromPrefix(log: seq<Event>, es: seq<Event>, x: Event)
    requires From(log, es + [x])
    ensures From(log, es) && x in log
  {
    assert x in es + [x] && forall e :: e in es ==> e in es + [x];
  }

  lemma {:induction false} SearchTracks(log: seq<Event>, ds: seq<Delivery>, id: Id)
    requires LogOk(log) && From(log, Events(ds))
    ensures Tracks(SearchRun(ds).documents, Events(ds), id) && AppliedIsOld(SearchRun(ds), id)
  {
    if ds != [] {
      var before, d := ds[..|ds| - 1], ds[|ds| - 1];
      if d.inFlight {
        assert Events(ds) == Events(before);
        SearchTracks(log, before, id);
      } else {
        FromPrefix(log, Events(before), d.event);
        SearchTracks(log, before, id);
        AttemptTracks(log, SearchRun(before), Events(before), d, id);
      }
    }
  }

  /** One attempt. */
  lemma AttemptTracks(log: seq<Event>, s: SearchState, es: seq<Event>, d: Delivery, id: Id)
    requires LogOk(log) && From(log, es + [d.event]) && !d.inFlight
    requires Tracks(s.documents, es, id) && AppliedIsOld(s, id)
    ensures Tracks(SearchStep(s, d).documents, es + [d.event], id) && AppliedIsOld(SearchStep(s, d), id)
  {
    if (d.remembered && d.event in s.applied) || Refused(s.documents, d.event) {
      SkipTracks(log, s.documents, es, d.event, id);
    } else {
      IndexTracks(log, s.documents, es, d.event, id);
    }
  }

  ghost predicate Collapsed(rows: map<Id, Projection>, documents: map<Id, Document>, id: Id) {
    && (id in rows <==> id in documents)
    && (id in rows ==>
          && Reads(rows[id].status, documents[id].status)
          && rows[id].version == documents[id].version && rows[id].layout == documents[id].layout)
  }

  /** The two projections take the same step, if a creation at the version already shown repeats what is shown. */
  lemma CollapsedStep(rows: map<Id, Projection>, documents: map<Id, Document>, x: Event, id: Id)
    requires Collapsed(rows, documents, id)
    requires x.Created? && About(x, id) && id in documents && documents[id].version == x.version ==>
               documents[id] == Document(x.status, x.version, x.layout)
    ensures Collapsed(InventoryStep(rows, x), Index(documents, x), id)
  {
  }

  /** What search-service skips, the inventory leaves alone too. */
  lemma CollapsedSkip(rows: map<Id, Projection>, documents: map<Id, Document>, x: Event, id: Id)
    requires Collapsed(rows, documents, id)
    requires About(x, id) ==> if id in documents then x.version <= documents[id].version else x.StatusChanged?
    ensures Collapsed(InventoryStep(rows, x), documents, id)
  {
  }

  lemma AttemptCollapses(log: seq<Event>, s: SearchState, rows: map<Id, Projection>,
                         es: seq<Event>, d: Delivery, id: Id)
    requires LogOk(log) && From(log, es + [d.event]) && !d.inFlight
    requires Tracks(s.documents, es, id) && AppliedIsOld(s, id) && Collapsed(rows, s.documents, id)
    ensures Collapsed(InventoryStep(rows, d.event), SearchStep(s, d).documents, id)
  {
    var x := d.event;
    if (d.remembered && x in s.applied) || Refused(s.documents, x) {
      CollapsedSkip(rows, s.documents, x, id);
    } else {
      if x.Created? && About(x, id) && id in s.documents && s.documents[id].version == x.version {
        ShownAtItsVersion(log, s.documents, es, x);
      }
      CollapsedStep(rows, s.documents, x, id);
    }
  }

  lemma InventoryRunAppends(es: seq<Event>, x: Event)
    ensures InventoryRun(es + [x]) == InventoryStep(InventoryRun(es), x)
  {
    assert (es + [x])[..|es|] == es;
  }

  /** On the same deliveries the inventory is the search index with every status but CANCELLED read as ACTIVE. */
  lemma {:induction false} InventoryIsSearchCollapsed(log: seq<Event>, ds: seq<Delivery>, id: Id)
    requires LogOk(log) && From(log, Events(ds))
    ensures Collapsed(InventoryRun(Events(ds)), SearchRun(ds).documents, id)
  {
    if ds != [] {
      var before, d := ds[..|ds| - 1], ds[|ds| - 1];
      if d.inFlight {
        assert Events(ds) == Events(before);
        InventoryIsSearchCollapsed(log, before, id);
      } else {
        FromPrefix(log, Events(before), d.event);
        InventoryIsSearchCollapsed(log, before, id);
        SearchTracks(log, before, id);
        InventoryRunAppends(Events(before), d.event);
        AttemptCollapses(log, SearchRun(before), InventoryRun(Events(before)), Events(before), d, id);
      }
    }
  }

  // ---- What the projections end with ----

  lemma CreationIsCounted(es: seq<Event>, id: Id)
    ensures CreatedIn(es, id) <==> exists c :: Counted(es, id, c) && c.Created?
  {
    if c :| c in es && c.Created? && About(c, id) {
      var i :| 0 <= i < |es| && es[i] == c;
      assert Counted(es, id, c);
    }
  }

  lemma HighestIsUnique(log: seq<Event>, es: seq<Event>, es': seq<Event>, id: Id, h: Event, h': Event)
    requires LogOk(log) && From(log, es) && From(log, es')
    requires IsHighest(es, id, h) && IsHighest(es', id, h')
    requires Counted(es', id, h) && Counted(es, id, h')
    ensures h == h'
  {
    CountedIsIn(es, id, h);
    CountedIsIn(es', id, h');
  }

  lemma SameLayout(documents: map<Id, Document>, es: seq<Event>, documents': map<Id, Document>, es': seq<Event>, id: Id,
                   c: Event)
    requires Tracks(documents, es, id) && Tracks(documents', es', id) && id in documents && id in documents'
    requires c.Created? && Counted(es, id, c) && Counted(es', id, c)
    ensures documents[id].layout == documents'[id].layout
  {
    CountedIsIn(es, id, c);
    CountedIsIn(es', id, c);
  }

  lemma SameShown(log: seq<Event>, documents: map<Id, Document>, es: seq<Event>,
                  documents': map<Id, Document>, es': seq<Event>, id: Id)
    requires LogOk(log) && From(log, es) && From(log, es') && id in documents && id in documents'
    requires Tracks(documents, es, id) && Tracks(documents', es', id)
    requires forall e :: Counted(es, id, e) <==> Counted(es', id, e)
    ensures documents[id].status == documents'[id].status && documents[id].version == documents'[id].version
  {
    var h :| IsHighest(es, id, h) && Shows(documents, id, h);
    var h' :| IsHighest(es', id, h') && Shows(documents', id, h');
    HighestIsUnique(log, es, es', id, h, h');
  }

  /** Whatever tracks two lists that count the same events of a schedule holds the same document. */
  lemma SameDocument(log: seq<Event>, documents: map<Id, Document>, es: seq<Event>,
                     documents': map<Id, Document>, es': seq<Event>, id: Id)
    requires LogOk(log) && From(log, es) && From(log, es')
    requires Tracks(documents, es, id) && Tracks(documents', es', id)
    requires forall e :: Counted(es, id, e) <==> Counted(es', id, e)
    ensures id in documents <==> id in documents'
    ensures id in documents ==> documents[id] == documents'[id]
  {
    CreationIsCounted(es, id);
    CreationIsCounted(es', id);
    assert CreatedIn(es, id) <==> CreatedIn(es', id);
    if id in documents {
      var c :| Counted(es, id, c) && c.Created?;
      SameLayout(documents, es, documents', es', id, c);
      SameShown(log, documents, es, documents', es', id);
    }
  }

  /** Two delivery lists that count the same events of a schedule leave the same projections. */
  lemma ProjectionIsConfluent(log: seq<Event>, ds: seq<Delivery>, ds': seq<Delivery>, id: Id)
    requires LogOk(log) && From(log, Events(ds)) && From(log, Events(ds'))
    requires forall e :: Counted(Events(ds), id, e) <==> Counted(Events(ds'), id, e)
    ensures var s, s' := SearchRun(ds).documents, SearchRun(ds').documents;
            (id in s <==> id in s') && (id in s ==> s[id] == s'[id])
    ensures var r, r' := InventoryRun(Events(ds)), InventoryRun(Events(ds'));
            (id in r <==> id in r') && (id in r ==> r[id] == r'[id])
  {
    SearchTracks(log, ds, id);
    SearchTracks(log, ds', id);
    SameDocument(log, SearchRun(ds).documents, Events(ds), SearchRun(ds').documents, Events(ds'), id);
    InventoryIsSearchCollapsed(log, ds, id);
    InventoryIsSearchCollapsed(log, ds', id);
  }

  ghost predicate CreatedFirst(es: seq<Event>, id: Id) {
    forall j :: 0 <= j < |es| && About(es[j], id) ==>
      exists i :: 0 <= i <= j && es[i].Created? && About(es[i], id)
  }

  lemma CreatedFirstCountsAll(es: seq<Event>, id: Id, e: Event)
    requires CreatedFirst(es, id)
    ensures Counted(es, id, e) <==> e in es && About(e, id)
  {
    if e in es && About(e, id) {
      var j :| 0 <= j < |es| && es[j] == e;
      var i :| 0 <= i <= j && es[i].Created? && About(es[i], id);
      assert es[i].Created? && About(es[i], id) && es[j] == e;
    }
  }

  /** Creation first, then any order and any repeats of the same events: the same projections. */
  lemma AnyOrderAnyRepeats(log: seq<Event>, ds: seq<Delivery>, ds': seq<Delivery>, id: Id)
    requires LogOk(log) && From(log, Events(ds)) && From(log, Events(ds'))
    requires CreatedFirst(Events(ds), id) && CreatedFirst(Events(ds'), id)
    requires forall e :: About(e, id) ==> (e in Events(ds) <==> e in Events(ds'))
    ensures var s, s' := SearchRun(ds).documents, SearchRun(ds').documents;
            (id in s <==> id in s') && (id in s ==> s[id] == s'[id])
    ensures var r, r' := InventoryRun(Events(ds)), InventoryRun(Events(ds'));
            (id in r <==> id in r') && (id in r ==> r[id] == r'[id])
  {
    forall e ensures Counted(Events(ds), id, e) <==> Counted(Events(ds'), id, e) {
      CreatedFirstCountsAll(Events(ds), id, e);
      CreatedFirstCountsAll(Events(ds'), id, e);
    }
    ProjectionIsConfluent(log, ds, ds', id);
  }

  /** The projections show the admin row's status and version exactly when its last event was delivered in time. */
  lemma CaughtUpExactly(log: seq<Event>, row: Schedule, ds: seq<Delivery>, id: Id, last: Event)
    requires LogOk(log) && From(log, Events(ds)) && LogTells(log, id, row)
    requires last in log && About(last, id) && last.version == row.version
    ensures var s := SearchRun(ds).documents;
            (id in s && s[id].version == row.version && s[id].status == row.status) <==> Counted(Events(ds), id, last)
    ensures var r := InventoryRun(Events(ds));
            (id in r && r[id].version == row.version && Reads(r[id].status, row.status)) <==>
              Counted(Events(ds), id, last)
  {
    SearchTracks(log, ds, id);
    InventoryIsSearchCollapsed(log, ds, id);
    var s, es := SearchRun(ds).documents, Events(ds);
    if id in s {
      var h :| IsHighest(es, id, h) && Shows(s, id, h);
      assert h in es;
      assert Version(log, id, h.version);
      if Counted(es, id, last) {
        assert h == last;
      }
      if h.version == row.version {
        assert h == last;
      }
    } else {
      CountedNeedsCreation(es, id, last);
    }
  }
}
