/** The two-phase idempotency keys in Redis: reserve with a lease, mark as processed, or release. */
module IdempotencyLease {
  import opened Prelude

  datatype Phase = PROCESSING | PROCESSED

  datatype Mark = Mark(phase: Phase, expiresAt: int)

  /** Redis answers for a key only until it expires. */
  predicate Present<K(==)>(store: map<K, Mark>, clock: int, key: K) {
    key in store && clock < store[key].expiresAt
  }

  // ---- The three operations on the store ----

  /** `SET key PROCESSING EX lease NX`. */
  function Reserved<K(==)>(store: map<K, Mark>, clock: int, lease: nat, key: K): map<K, Mark> {
    if Present(store, clock, key) then store else store[key := Mark(PROCESSING, clock + lease)]
  }

  /** `SET key PROCESSED EX ttl`, whatever is there. */
  function Processed<K(==)>(store: map<K, Mark>, clock: int, ttl: nat, key: K): map<K, Mark> {
    store[key := Mark(PROCESSED, clock + ttl)]
  }

  predicate InFlight<K(==)>(store: map<K, Mark>, clock: int, key: K) {
    Present(store, clock, key) && store[key].phase == PROCESSING
  }

  /** The release script: deletes the key while it says PROCESSING, whoever reserved it. */
  function Released<K(==)>(store: map<K, Mark>, clock: int, key: K): map<K, Mark> {
    if InFlight(store, clock, key) then store - {key} else store
  }

  /** The Redis client's view: keys, a clock, and the three operations. */
  class IdempotencyRepository<K(==)> {
    const processingLease: nat
    const processedTtl: nat
    var store: map<K, Mark>
    var clock: int

    constructor (processingLease: nat, processedTtl: nat)
      ensures this.processingLease == processingLease && this.processedTtl == processedTtl && store == map[]
    {
      this.processingLease, this.processedTtl := processingLease, processedTtl;
      store := map[];
    }

    method ReserveIfNew(event: K) returns (reserved: bool)
      modifies this`store
      ensures reserved <==> !Present(old(store), clock, event)
      ensures store == Reserved(old(store), clock, processingLease, event)
    {
      reserved := !Present(store, clock, event);
      if reserved {
        store := store[event := Mark(PROCESSING, clock + processingLease)];
      }
    }

    method MarkProcessed(event: K)
      modifies this`store
      ensures store == Processed(old(store), clock, processedTtl, event)
    {
      store := store[event := Mark(PROCESSED, clock + processedTtl)];
    }

    method Release(event: K)
      modifies this`store
      ensures store == Released(old(store), clock, event)
    {
      if Present(store, clock, event) && store[event].phase == PROCESSING {
        store := store - {event};
      }
    }
  }

  // ---- All interleavings ----

  /** An attempt at one key; the ticket numbers the reservations of the run. */
  datatype Work = Work(key: Id, since: int, ticket: nat)

  datatype Done = Done(key: Id, at: int)

  datatype Config = Config(lease: nat, ttl: nat)

  /**
   * Handlers between their reservation and their mark or release, and the marks made so far. The tickets, and
   * which of them reserved a key last, are history: no step reads them.
   */
  datatype State = State(
    store: map<Id, Mark>, clock: int, handlers: map<Id, Work>, marks: seq<Done>, tickets: nat, holder: map<Id, nat>)

  const Init := State(map[], 0, map[], [], 0, map[])

  datatype Action =
    | Reserve(handler: Id, key: Id)
    | Finish(handler: Id)
    | Fail(handler: Id)
    | Tick(seconds: nat)

  predicate Grants(s: State, a: Action) {
    a.Reserve? && a.handler !in s.handlers && !Present(s.store, s.clock, a.key)
  }

  function Step(c: Config, s: State, a: Action): State {
    match a
    case Reserve(h, key) =>
      if !Grants(s, a) then s
      else
        s.(store := Reserved(s.store, s.clock, c.lease, key),
           handlers := s.handlers[h := Work(key, s.clock, s.tickets)],
           tickets := s.tickets + 1, holder := s.holder[key := s.tickets])
    case Finish(h) =>
      if h !in s.handlers then s
      else
        var key := s.handlers[h].key;
        s.(store := Processed(s.store, s.clock, c.ttl, key),
           handlers := s.handlers - {h}, marks := s.marks + [Done(key, s.clock)])
    case Fail(h) =>
      if h !in s.handlers then s
      else s.(store := Released(s.store, s.clock, s.handlers[h].key), handlers := s.handlers - {h})
    case Tick(d) => s.(clock := s.clock + d)
  }

  function Run(c: Config, actions: seq<Action>): State {
    if actions == [] then Init
    else Step(c, Run(c, actions[..|actions| - 1]), actions[|actions| - 1])
  }

  // ---- PROCESSED survives, whatever the handlers do ----

  ghost predicate ExpiryBounded(c: Config, s: State) {
    forall k :: k in s.store && s.store[k].phase == PROCESSED ==> s.store[k].expiresAt <= s.clock + c.ttl
  }

  /** No operation removes or shortens a PROCESSED key before it expires. */
  lemma ProcessedSurvives(c: Config, s: State, a: Action, key: Id)
    requires ExpiryBounded(c, s)
    requires key in s.store && s.store[key].phase == PROCESSED
    requires Step(c, s, a).clock < s.store[key].expiresAt
    ensures var s' := Step(c, s, a);
            key in s'.store && s'.store[key].phase == PROCESSED && s'.store[key].expiresAt >= s.store[key].expiresAt
  {
  }

  lemma {:induction false} RunsBoundExpiry(c: Config, actions: seq<Action>)
    ensures ExpiryBounded(c, Run(c, actions))
  {
    if actions != [] {
      RunsBoundExpiry(c, actions[..|actions| - 1]);
    }
  }

  /** Over whole runs: a PROCESSED key is still there at every moment before its expiry. */
  lemma {:induction false} ProcessedUntilExpiry(c: Config, actions: seq<Action>, more: seq<Action>, key: Id)
    requires var s := Run(c, actions);
             key in s.store && s.store[key].phase == PROCESSED && Run(c, actions + more).clock < s.store[key].expiresAt
    ensures var s, s' := Run(c, actions), Run(c, actions + more);
            key in s'.store && s'.store[key].phase == PROCESSED && s'.store[key].expiresAt >= s.store[key].expiresAt
  {
    if more == [] {
      assert actions + more == actions;
    } else {
      var init := more[..|more| - 1];
      assert (actions + more)[..|actions + more| - 1] == actions + init;
      assert Run(c, actions + more) == Step(c, Run(c, actions + init), more[|more| - 1]);
      ProcessedUntilExpiry(c, actions, init, key);
      RunsBoundExpiry(c, actions + init);
      ProcessedSurvives(c, Run(c, actions + init), more[|more| - 1], key);
    }
  }

  // ---- Exclusion while every handler keeps its lease ----

  /** Every running handler is still within its lease. */
  ghost predicate Timely(c: Config, s: State) {
    forall h :: h in s.handlers ==> s.clock < s.handlers[h].since + c.lease
  }

  /** The lease of every running handler is the one in Redis, and no two handlers share a key. */
  ghost predicate LeasesHeld(c: Config, s: State) {
    && (forall h :: h in s.handlers ==>
          s.handlers[h].key in s.store
          && s.store[s.handlers[h].key] == Mark(PROCESSING, s.handlers[h].since + c.lease))
    && (forall h, g :: h in s.handlers && g in s.handlers && h != g ==> s.handlers[h].key != s.handlers[g].key)
  }

  /** A mark is over or still guarded by its PROCESSED key. */
  ghost predicate MarksGuarded(c: Config, s: State) {
    forall i :: 0 <= i < |s.marks| ==>
      var m := s.marks[i];
      || m.at + c.ttl <= s.clock
      || (m.key in s.store && s.store[m.key].phase == PROCESSED && s.store[m.key].expiresAt >= m.at + c.ttl)
  }

  ghost predicate MarksSpaced(c: Config, s: State) {
    forall i, j :: 0 <= i < j < |s.marks| && s.marks[i].key == s.marks[j].key ==>
      s.marks[i].at + c.ttl <= s.marks[j].at
  }

  lemma StepKeepsExclusion(c: Config, s: State, a: Action)
    requires Timely(c, s) && LeasesHeld(c, s) && MarksGuarded(c, s) && MarksSpaced(c, s)
    ensures var s' := Step(c, s, a); LeasesHeld(c, s') && MarksGuarded(c, s') && MarksSpaced(c, s')
  {
    if a.Reserve? && a.handler !in s.handlers && !Present(s.store, s.clock, a.key) {
      assert forall h | h in s.handlers :: Present(s.store, s.clock, s.handlers[h].key);
    }
  }

  /** Every state of the run, the last one included or not, is timely. */
  ghost predicate TimelyThroughout(c: Config, actions: seq<Action>) {
    forall n :: 0 <= n < |actions| ==> Timely(c, Run(c, actions[..n]))
  }

  /**
   * If every handler finishes within its lease, then at most one handler per key runs at a time and at most
   * one of them reaches PROCESSED per TTL window.
   */
  lemma {:induction false} OneHandlerPerKey(c: Config, actions: seq<Action>)
    requires TimelyThroughout(c, actions)
    ensures LeasesHeld(c, Run(c, actions)) && MarksGuarded(c, Run(c, actions)) && MarksSpaced(c, Run(c, actions))
  {
    if actions != [] {
      var n := |actions| - 1;
      var init := actions[..n];
      assert TimelyThroughout(c, init) by {
        assert forall m | 0 <= m < n :: init[..m] == actions[..m];
      }
      OneHandlerPerKey(c, init);
      assert Timely(c, Run(c, init));
      StepKeepsExclusion(c, Run(c, init), actions[n]);
    }
  }

  /** The lease is exactly what keeps a second handler out: a reservation succeeds iff the first lease has lapsed. */
  lemma SecondHandlerIffLapsed(c: Config, actions: seq<Action>, h: Id, g: Id, key: Id)
    requires TimelyThroughout(c, actions)
    requires var s := Run(c, actions); h in s.handlers && s.handlers[h].key == key && g !in s.handlers
    ensures var s := Run(c, actions);
            g in Step(c, s, Reserve(g, key)).handlers <==> s.handlers[h].since + c.lease <= s.clock
  {
    OneHandlerPerKey(c, actions);
  }

  // ---- Whose reservation a release gives back ----

  /** The handler is at this attempt. */
  ghost predicate Working(s: State, h: Id, w: Work) {
    h in s.handlers && s.handlers[h] == w
  }

  /** The key still carries the mark of this attempt, lapsed or not. */
  ghost predicate Intact(c: Config, s: State, w: Work) {
    && w.key in s.store && s.store[w.key] == Mark(PROCESSING, w.since + c.lease)
    && w.key in s.holder && s.holder[w.key] == w.ticket
  }

  /** The release of h would delete a live reservation that another attempt was granted. */
  ghost predicate TakesForeign(c: Config, s: State, h: Id) {
    && h in s.handlers
    && var w := s.handlers[h];
       && InFlight(s.store, s.clock, w.key) && w.key !in Step(c, s, Fail(h)).store
       && w.key in s.holder && s.holder[w.key] != w.ticket
  }

  /** Tickets are handed out once. */
  ghost predicate TicketsDistinct(s: State) {
    && (forall k :: k in s.holder ==> s.holder[k] < s.tickets)
    && (forall h :: h in s.handlers ==> s.handlers[h].ticket < s.tickets)
    && (forall h, g :: h in s.handlers && g in s.handlers && s.handlers[h].ticket == s.handlers[g].ticket ==> h == g)
  }

  /** The attempt holds no key but its own, and a PROCESSING mark it holds is the one it was granted. */
  ghost predicate HolderTrue(c: Config, s: State, w: Work) {
    && (forall k :: k in s.holder && s.holder[k] == w.ticket ==> k == w.key)
    && (w.key in s.store && w.key in s.holder && s.holder[w.key] == w.ticket && s.store[w.key].phase == PROCESSING ==>
          Intact(c, s, w))
  }

  ghost predicate TicketsTrue(c: Config, s: State) {
    && TicketsDistinct(s)
    && (forall k :: k in s.store ==> k in s.holder)
    && (forall h :: h in s.handlers ==> s.handlers[h].key in s.holder && HolderTrue(c, s, s.handlers[h]))
  }

  lemma HolderStaysTrue(c: Config, s: State, a: Action, h: Id)
    requires TicketsTrue(c, s) && h in Step(c, s, a).handlers
    ensures HolderTrue(c, Step(c, s, a), Step(c, s, a).handlers[h])
  {
    assert h in s.handlers ==> HolderTrue(c, s, s.handlers[h]);
  }

  lemma StepKeepsTickets(c: Config, s: State, a: Action)
    requires TicketsTrue(c, s)
    ensures TicketsTrue(c, Step(c, s, a))
  {
    var s' := Step(c, s, a);
    assert TicketsDistinct(s');
    forall h | h in s'.handlers ensures HolderTrue(c, s', s'.handlers[h]) {
      HolderStaysTrue(c, s, a, h);
    }
  }

  lemma {:induction false} RunsKeepTickets(c: Config, actions: seq<Action>)
    ensures TicketsTrue(c, Run(c, actions))
  {
    if actions != [] {
      RunsKeepTickets(c, actions[..|actions| - 1]);
      StepKeepsTickets(c, Run(c, actions[..|actions| - 1]), actions[|actions| - 1]);
    }
  }

  /** The step overwrites or deletes the mark of h's attempt: a grant after its lease, or another's end. */
  ghost predicate Loses(c: Config, s: State, a: Action, h: Id, w: Work) {
    && Working(s, h, w) && Intact(c, s, w)
    && match a
       case Reserve(_, key) => key == w.key && Grants(s, a) && w.since + c.lease <= s.clock
       case Finish(g) => g != h && g in s.handlers && s.handlers[g].key == w.key
       case Fail(g) =>
         g != h && g in s.handlers && s.handlers[g].key == w.key && TakesForeign(c, s, g)
       case Tick(_) => false
  }

  /** One step: an attempt loses its mark exactly by such a step, and a lost mark never comes back. */
  lemma LosesExactly(c: Config, s: State, a: Action, h: Id, w: Work)
    requires TicketsTrue(c, s) && Working(s, h, w) && Working(Step(c, s, a), h, w)
    ensures !Intact(c, Step(c, s, a), w) <==> !Intact(c, s, w) || Loses(c, s, a, h, w)
  {
    assert HolderTrue(c, s, w);
    if a.Fail? && a.handler in s.handlers {
      assert HolderTrue(c, s, s.handlers[a.handler]);
    }
  }

  /** Somewhere in the run the attempt lost its mark. */
  ghost predicate LostIn(c: Config, actions: seq<Action>, h: Id, w: Work) {
    exists n :: 0 <= n < |actions| && LosesAt(c, actions, n, h, w)
  }

  ghost predicate LosesAt(c: Config, actions: seq<Action>, n: nat, h: Id, w: Work)
    requires n < |actions|
  {
    Loses(c, Run(c, actions[..n]), actions[n], h, w)
  }

  lemma LostInPrefix(c: Config, actions: seq<Action>, n: nat, h: Id, w: Work)
    requires n < |actions| - 1
    ensures LosesAt(c, actions, n, h, w) <==> LosesAt(c, actions[..|actions| - 1], n, h, w)
  {
    assert actions[..|actions| - 1][..n] == actions[..n];
  }

  lemma LostInGrows(c: Config, actions: seq<Action>, h: Id, w: Work)
    requires actions != []
    ensures var last := |actions| - 1;
            LostIn(c, actions, h, w) <==>
              LostIn(c, actions[..last], h, w) || Loses(c, Run(c, actions[..last]), actions[last], h, w)
  {
    var last := |actions| - 1;
    if n :| 0 <= n < |actions| && LosesAt(c, actions, n, h, w) {
      if n < last {
        LostInPrefix(c, actions, n, h, w);
      }
    }
    if n :| 0 <= n < last && LosesAt(c, actions[..last], n, h, w) {
      LostInPrefix(c, actions, n, h, w);
      assert LosesAt(c, actions, n, h, w);
    }
    if Loses(c, Run(c, actions[..last]), actions[last], h, w) {
      assert LosesAt(c, actions, last, h, w);
    }
  }

  lemma {:induction false} LossIsOld(c: Config, actions: seq<Action>, h: Id, w: Work)
    requires LostIn(c, actions, h, w)
    ensures w.ticket < Run(c, actions).tickets
  {
    var last := |actions| - 1;
    var s := Run(c, actions[..last]);
    RunsKeepTickets(c, actions[..last]);
    LostInGrows(c, actions, h, w);
    TicketsOnlyGrow(c, s, actions[last]);
    if LostIn(c, actions[..last], h, w) {
      LossIsOld(c, actions[..last], h, w);
    }
  }

  lemma TicketsOnlyGrow(c: Config, s: State, a: Action)
    ensures s.tickets <= Step(c, s, a).tickets
  {
  }

  /** An attempt under way has its mark in the store exactly when nothing in the run has taken it. */
  lemma {:induction false} IntactUnlessLost(c: Config, actions: seq<Action>, h: Id, w: Work)
    requires Working(Run(c, actions), h, w)
    ensures Intact(c, Run(c, actions), w) <==> !LostIn(c, actions, h, w)
  {
    if actions != [] {
      var last := |actions| - 1;
      var init, a := actions[..last], actions[last];
      var s := Run(c, init);
      RunsKeepTickets(c, init);
      LostInGrows(c, actions, h, w);
      if Working(s, h, w) {
        IntactUnlessLost(c, init, h, w);
        LosesExactly(c, s, a, h, w);
      } else {
        FreshAttempt(c, s, a, h, w);
        if LostIn(c, init, h, w) {
          LossIsOld(c, init, h, w);
        }
      }
    }
  }

  lemma FreshAttempt(c: Config, s: State, a: Action, h: Id, w: Work)
    requires !Working(s, h, w) && Working(Step(c, s, a), h, w)
    ensures w.ticket == s.tickets && Intact(c, Step(c, s, a), w)
  {
  }

  /**
   * In every run, timely or not, a release deletes the live reservation of another attempt exactly when some
   * reservation is live and the releasing attempt has lost its own mark earlier in the run.
   */
  lemma ForeignReleaseExactly(c: Config, actions: seq<Action>, h: Id)
    requires h in Run(c, actions).handlers
    ensures var s := Run(c, actions);
            TakesForeign(c, s, h) <==>
              InFlight(s.store, s.clock, s.handlers[h].key) && LostIn(c, actions, h, s.handlers[h])
  {
    var s := Run(c, actions);
    RunsKeepTickets(c, actions);
    assert HolderTrue(c, s, s.handlers[h]);
    IntactUnlessLost(c, actions, h, s.handlers[h]);
  }

  /** While every handler keeps its lease no mark is lost, so every release gives back its own reservation. */
  lemma ForeignReleaseNeedsLapse(c: Config, actions: seq<Action>, h: Id)
    requires TimelyThroughout(c, actions)
    ensures !TakesForeign(c, Run(c, actions), h)
  {
    if h in Run(c, actions).handlers {
      var w := Run(c, actions).handlers[h];
      ForeignReleaseExactly(c, actions, h);
      forall n | 0 <= n < |actions| ensures !LosesAt(c, actions, n, h, w) {
        assert TimelyThroughout(c, actions[..n]) by {
          assert forall m | 0 <= m < n :: actions[..n][..m] == actions[..m];
        }
        OneHandlerPerKey(c, actions[..n]);
      }
    }
  }

  /** One grant is enough: once the key of an attempt is free, a newcomer's reservation is what its release deletes. */
  lemma LapsedReleaseTakesNext(c: Config, actions: seq<Action>, h: Id, g: Id)
    requires c.lease > 0
    requires var s := Run(c, actions); h in s.handlers && g !in s.handlers
    ensures var s := Run(c, actions);
            var s' := Step(c, s, Reserve(g, s.handlers[h].key));
            !Present(s.store, s.clock, s.handlers[h].key) <==> g in s'.handlers && TakesForeign(c, s', h)
  {
    RunsKeepTickets(c, actions);
  }

  /**
   * One lapse is enough for a chain: handler 1 overstays its lease and its release deletes the reservation of
   * handler 2; handler 3 gets in, and the release of handler 2, itself in time, deletes that of handler 3.
   */
  lemma LateReleaseFreesAnotherLease(c: Config)
    requires c.lease > 0
    ensures TakesForeign(c, Run(c, [Reserve(1, 7), Tick(c.lease), Reserve(2, 7)]), 1)
    ensures var s := Run(c, [Reserve(1, 7), Tick(c.lease), Reserve(2, 7), Fail(1), Reserve(3, 7)]);
            && 2 in s.handlers && 3 in s.handlers && s.handlers[2].key == s.handlers[3].key == 7
            && s.clock < s.handlers[2].since + c.lease
            && TakesForeign(c, s, 2)
  {
    var all := [Reserve(1, 7), Tick(c.lease), Reserve(2, 7), Fail(1), Reserve(3, 7)];
    assert all[..4][..3] == all[..3] && all[..3][..2] == all[..2] && all[..2][..1] == all[..1] && all[..1][..0] == [];
    assert Run(c, all[..1]) == Step(c, Init, Reserve(1, 7));
    assert Run(c, all[..2]) == Step(c, Run(c, all[..1]), Tick(c.lease));
    assert Run(c, all[..3]) == Step(c, Run(c, all[..2]), Reserve(2, 7));
    assert Run(c, all[..4]) == Step(c, Run(c, all[..3]), Fail(1));
    assert Run(c, all) == Step(c, Run(c, all[..4]), Reserve(3, 7));
    assert all[..3] == [Reserve(1, 7), Tick(c.lease), Reserve(2, 7)];
  }
}
