/**
 * `confirmPayment` and `cancelBooking` write two statuses in two transactions, one after the other. When the second
 * one is lost nothing ever finishes the job: no later delivery, call or timer moves the booking again.
 */
module StuckBookings {
  import opened Prelude
  import opened BookingLifecycle
  import opened BookingRuns

  // ---- Runs in which the callers keep their order ----

  /** The transaction that the caller of this one begins as soon as it has won. */
  function Second(kind: Transition): Option<Transition> {
    match kind
    case MarkConfirming => Some(MarkConfirmed)
    case StartCancelling => Some(FinishCancelling)
    case _ => None
  }

  predicate IsSecond(kind: Transition) {
    kind == MarkConfirmed || kind == FinishCancelling
  }

  predicate HandsOver(s: State, a: Action) {
    a.Write? && Allowed(s, a) && Wins(s, s.txs[a.tx]) && Second(s.txs[a.tx].kind).Some?
  }

  /** One step: the winner of a first transaction holds the second one, and nothing else begins a second one. */
  function CallerStep(s: State, a: Action): State {
    if a.Begin? && IsSecond(a.kind) then s
    else if HandsOver(s, a) then
      Step(Step(s, a), Begin(a.tx, Second(s.txs[a.tx].kind).value, s.txs[a.tx].booking))
    else Step(s, a)
  }

  function CallerRun(actions: seq<Action>): State {
    if actions == [] then Init
    else CallerStep(CallerRun(actions[..|actions| - 1]), actions[|actions| - 1])
  }

  lemma PlainContinues(actions: seq<Action>, a: Action)
    ensures Run(actions + [a]) == Step(Run(actions), a)
  {
    assert (actions + [a])[..|actions|] == actions;
  }

  /** Such runs are runs of the unrestricted machine, so all that holds of its runs holds of them. */
  lemma {:induction false} CallerRunIsARun(actions: seq<Action>) returns (plain: seq<Action>)
    ensures Run(plain) == CallerRun(actions)
  {
    plain := [];
    if actions != [] {
      var a := actions[|actions| - 1];
      plain := CallerRunIsARun(actions[..|actions| - 1]);
      var s := Run(plain);
      if HandsOver(s, a) {
        var begin := Begin(a.tx, Second(s.txs[a.tx].kind).value, s.txs[a.tx].booking);
        PlainContinues(plain, a);
        PlainContinues(plain + [a], begin);
        plain := plain + [a] + [begin];
      } else if !(a.Begin? && IsSecond(a.kind)) {
        PlainContinues(plain, a);
        plain := plain + [a];
      }
    }
  }

  lemma CallerRunsKeepInvariant(actions: seq<Action>)
    ensures Invariant(CallerRun(actions))
  {
    var plain := CallerRunIsARun(actions);
    RunsKeepInvariant(plain);
  }

  // ---- Bookings that cannot move ----

  /** Between the two transactions of a caller. */
  predicate Halfway(status: BookingStatus) {
    status == CONFIRMING || status == CANCELLING
  }

  /** Some caller still holds the transaction that leads on from the present status. */
  ghost predicate UnderWay(s: State, b: Id)
    requires b in s.rows
  {
    exists t :: t in s.txs && s.txs[t].booking == b && s.rows[b].status in s.txs[t].kind.From()
                && IsSecond(s.txs[t].kind)
  }

  ghost predicate Stuck(s: State, b: Id) {
    b in s.rows && (s.rows[b].status.Final() || (Halfway(s.rows[b].status) && !UnderWay(s, b)))
  }

  /** A write of a stuck booking loses. */
  lemma StuckWriteLoses(s: State, t: Id, b: Id)
    requires Invariant(s) && Stuck(s, b) && Allowed(s, Write(t)) && s.txs[t].booking == b
    ensures !Wins(s, s.txs[t])
  {
    CasIsExact(s, t);
    assert SeenInTrail(s.txs[t], s.trails);
  }

  /** What a step does to row b, and where the second transactions for b after it come from. */
  lemma CallerStepOnOther(s: State, a: Action, b: Id)
    requires Invariant(s) && b in s.rows
    requires a.Write? && Allowed(s, a) && s.txs[a.tx].booking == b ==> !Wins(s, s.txs[a.tx])
    ensures b in CallerStep(s, a).rows && CallerStep(s, a).rows[b] == s.rows[b]
    ensures forall t :: t in CallerStep(s, a).txs && CallerStep(s, a).txs[t].booking == b
                        && IsSecond(CallerStep(s, a).txs[t].kind) ==>
              t in s.txs && s.txs[t].booking == b && s.txs[t].kind == CallerStep(s, a).txs[t].kind
  {
  }

  lemma StepKeepsStuck(s: State, a: Action, b: Id)
    requires Invariant(s) && Stuck(s, b)
    ensures Stuck(CallerStep(s, a), b) && CallerStep(s, a).rows[b] == s.rows[b]
  {
    if a.Write? && Allowed(s, a) && s.txs[a.tx].booking == b {
      StuckWriteLoses(s, a.tx, b);
    }
    CallerStepOnOther(s, a, b);
  }

  lemma OneMore(actions: seq<Action>, a: Action)
    ensures CallerRun(actions + [a]) == CallerStep(CallerRun(actions), a)
  {
    assert (actions + [a])[..|actions|] == actions;
  }

  /** The continuation leaves the booking's status and version as they were. */
  ghost predicate Keeps(actions: seq<Action>, more: seq<Action>, b: Id) {
    && b in CallerRun(actions).rows && b in CallerRun(actions + more).rows
    && CallerRun(actions + more).rows[b] == CallerRun(actions).rows[b]
  }

  lemma {:induction false} StuckStays(actions: seq<Action>, more: seq<Action>, b: Id)
    requires Stuck(CallerRun(actions), b)
    ensures Stuck(CallerRun(actions + more), b) && Keeps(actions, more, b)
  {
    if more == [] {
      assert actions + more == actions;
    } else {
      var init := more[..|more| - 1];
      StuckStays(actions, init, b);
      CallerRunsKeepInvariant(actions + init);
      StepKeepsStuck(CallerRun(actions + init), more[|more| - 1], b);
      OneMore(actions + init, more[|more| - 1]);
      assert actions + more == actions + init + [more[|more| - 1]];
    }
  }

  // ---- Bookings that can move ----

  /** A transaction whose status was read as it is now has read the present row: no status comes back. */
  lemma SeenIsPresent(s: State, t: Id)
    requires Invariant(s) && t in s.txs && s.txs[t].seen.Some? && s.txs[t].booking in s.rows
    requires s.txs[t].seen.value.status == s.rows[s.txs[t].booking].status
    ensures s.txs[t].seen.value == s.rows[s.txs[t].booking]
  {
    var seen, row, trail := s.txs[t].seen.value, s.rows[s.txs[t].booking], s.trails[s.txs[t].booking];
    assert SeenInTrail(s.txs[t], s.trails) && RowMatchesTrail(row, trail);
    if seen.version < |trail| {
      RanksRise(trail, seen.version - 1, |trail| - 1);
    }
  }

  /** A transaction that has read the present row takes the booking on. */
  lemma WriteMoves(s: State, t: Id)
    requires Invariant(s) && Allowed(s, Write(t)) && s.txs[t].seen == Some(s.rows[s.txs[t].booking])
    ensures var b := s.txs[t].booking;
            b in CallerStep(s, Write(t)).rows
            && CallerStep(s, Write(t)).rows[b] == Row(s.txs[t].kind.Target(), s.rows[b].version + 1)
  {
    CasIsExact(s, t);
  }

  /** The transaction reads, if it has not yet, and writes; a second read is not possible and changes nothing. */
  lemma ReadThenWrite(s: State, t: Id)
    requires Invariant(s) && t in s.txs && s.txs[t].booking in s.rows
    requires s.rows[s.txs[t].booking].status in s.txs[t].kind.From()
    requires s.txs[t].seen.Some? ==> s.txs[t].seen.value.status == s.rows[s.txs[t].booking].status
    ensures var s', b := CallerStep(CallerStep(s, Read(t)), Write(t)), s.txs[t].booking;
            b in s'.rows && s'.rows[b] == Row(s.txs[t].kind.Target(), s.rows[b].version + 1)
  {
    StepKeepsInvariant(s, Read(t));
    if s.txs[t].seen.Some? {
      SeenIsPresent(s, t);
    }
    WriteMoves(CallerStep(s, Read(t)), t);
  }

  ghost predicate MovesBy(actions: seq<Action>, more: seq<Action>, b: Id, kind: Transition) {
    && b in CallerRun(actions).rows && b in CallerRun(actions + more).rows
    && CallerRun(actions + more).rows[b] == Row(kind.Target(), CallerRun(actions).rows[b].version + 1)
  }

  /** A transaction that may still lead on does, when it is the next to go on. */
  lemma Finishes(actions: seq<Action>, t: Id) returns (more: seq<Action>)
    requires var s := CallerRun(actions);
             && t in s.txs && s.txs[t].booking in s.rows && s.rows[s.txs[t].booking].status in s.txs[t].kind.From()
             && (s.txs[t].seen.Some? ==> s.txs[t].seen.value.status == s.rows[s.txs[t].booking].status)
    ensures MovesBy(actions, more, CallerRun(actions).txs[t].booking, CallerRun(actions).txs[t].kind)
  {
    CallerRunsKeepInvariant(actions);
    ReadThenWrite(CallerRun(actions), t);
    OneMore(actions, Read(t));
    OneMore(actions + [Read(t)], Write(t));
    more := [Read(t), Write(t)];
    assert actions + more == actions + [Read(t)] + [Write(t)];
  }

  lemma {:induction false} Unused(ids: set<Id>) returns (t: Id)
    ensures forall u :: u in ids ==> u < t
    decreases |ids|
  {
    t := 0;
    if ids != {} {
      var v :| v in ids;
      var rest := Unused(ids - {v});
      t := if rest <= v then v + 1 else rest;
      assert forall u :: u in ids ==> u == v || u in ids - {v};
    }
  }

  /** The transition that anyone may try from here, if the status is not halfway and not final. */
  function Open(status: BookingStatus): Transition {
    match status
    case PENDING => Expire
    case SEATS_HELD => MarkPaymentPending
    case PAYMENT_PENDING => MarkConfirming
    case _ => StartCancelling
  }

  lemma OpenMoves(actions: seq<Action>, b: Id) returns (more: seq<Action>)
    requires b in CallerRun(actions).rows
    requires var status := CallerRun(actions).rows[b].status; !status.Final() && !Halfway(status)
    ensures MovesBy(actions, more, b, Open(CallerRun(actions).rows[b].status))
  {
    var s := CallerRun(actions);
    var kind := Open(s.rows[b].status);
    var t := Unused(s.txs.Keys);
    assert t !in s.txs;
    OneMore(actions, Begin(t, kind, b));
    var rest := Finishes(actions + [Begin(t, kind, b)], t);
    more := [Begin(t, kind, b)] + rest;
    assert actions + more == actions + [Begin(t, kind, b)] + rest;
  }

  /**
   * In every run a booking can still move, unless it is final, or halfway with no caller left that holds the second
   * transaction; then no continuation changes its status or its version.
   */
  lemma StuckExactly(actions: seq<Action>, b: Id)
    requires b in CallerRun(actions).rows
    ensures (forall more :: Keeps(actions, more, b)) <==> Stuck(CallerRun(actions), b)
  {
    var s := CallerRun(actions);
    if Stuck(s, b) {
      forall more ensures Keeps(actions, more, b) {
        StuckStays(actions, more, b);
      }
    } else if Halfway(s.rows[b].status) {
      var more := SecondFinishes(actions, b);
      assert !Keeps(actions, more, b);
    } else {
      var more := OpenMoves(actions, b);
      assert !Keeps(actions, more, b);
    }
  }

  /** A caller that holds the second transaction can always complete it. */
  lemma SecondFinishes(actions: seq<Action>, b: Id) returns (more: seq<Action>)
    requires var s := CallerRun(actions); b in s.rows && Halfway(s.rows[b].status) && UnderWay(s, b)
    ensures MovesBy(actions, more, b,
                    if CallerRun(actions).rows[b].status == CONFIRMING then MarkConfirmed else FinishCancelling)
  {
    var s := CallerRun(actions);
    var t :| t in s.txs && s.txs[t].booking == b && s.rows[b].status in s.txs[t].kind.From() && IsSecond(s.txs[t].kind);
    CallerRunsKeepInvariant(actions);
    assert SeenInTrail(s.txs[t], s.trails);
    more := Finishes(actions, t);
  }

  // ---- Stuck states are reached ----

  /** A transaction with nobody else about: begin, read, write. The winner of a first one is left with the second. */
  lemma UndisturbedSteps(s: State, kind: Transition, b: Id)
    requires s.txs == map[] && b in s.rows && s.rows[b].status in kind.From() && !IsSecond(kind)
    ensures var s' := CallerStep(CallerStep(CallerStep(s, Begin(0, kind, b)), Read(0)), Write(0));
            && s'.rows == s.rows[b := Row(kind.Target(), s.rows[b].version + 1)]
            && s'.txs == if Second(kind).Some? then map[0 := Tx(Second(kind).value, b, None)] else map[]
  {
    var begun := CallerStep(s, Begin(0, kind, b));
    assert begun == s.(txs := map[0 := Tx(kind, b, None)]);
    var read := CallerStep(begun, Read(0));
    assert read == s.(txs := map[0 := Tx(kind, b, Some(s.rows[b]))]);
    assert Wins(read, read.txs[0]);
  }

  lemma Undisturbed(actions: seq<Action>, kind: Transition, b: Id) returns (longer: seq<Action>)
    requires var s := CallerRun(actions); s.txs == map[] && b in s.rows && s.rows[b].status in kind.From()
    requires !IsSecond(kind)
    ensures var s, s' := CallerRun(actions), CallerRun(longer);
            && s'.rows == s.rows[b := Row(kind.Target(), s.rows[b].version + 1)]
            && s'.txs == if Second(kind).Some? then map[0 := Tx(Second(kind).value, b, None)] else map[]
  {
    UndisturbedSteps(CallerRun(actions), kind, b);
    OneMore(actions, Begin(0, kind, b));
    OneMore(actions + [Begin(0, kind, b)], Read(0));
    OneMore(actions + [Begin(0, kind, b)] + [Read(0)], Write(0));
    longer := actions + [Begin(0, kind, b)] + [Read(0)] + [Write(0)];
  }

  lemma VanishingEmpties(s: State, tx: Tx)
    requires s.txs == map[0 := tx]
    ensures CallerStep(s, Vanish(0)) == s.(txs := map[])
  {
    assert s.txs - {0} == map[];
  }

  /** The process dies after its first transaction, before or inside the second. */
  lemma LosesSecond(actions: seq<Action>, kind: Transition, b: Id) returns (longer: seq<Action>)
    requires var s := CallerRun(actions); s.txs == map[] && b in s.rows && s.rows[b].status in kind.From()
    requires Second(kind).Some?
    ensures var s, s' := CallerRun(actions), CallerRun(longer);
            s'.txs == map[] && s'.rows == s.rows[b := Row(kind.Target(), s.rows[b].version + 1)]
    ensures Stuck(CallerRun(longer), b)
  {
    var won := Undisturbed(actions, kind, b);
    VanishingEmpties(CallerRun(won), Tx(Second(kind).value, b, None));
    OneMore(won, Vanish(0));
    longer := won + [Vanish(0)];
  }

  lemma HeldBooking() returns (actions: seq<Action>)
    ensures CallerRun(actions).txs == map[] && CallerRun(actions).rows == map[1 := Row(SEATS_HELD, 2)]
  {
    OneMore([], Create(1));
    actions := Undisturbed([] + [Create(1)], AcceptHeld, 1);
  }

  /** Bookings are stranded in CONFIRMING, after a payment, and in CANCELLING, where `cancelBooking` refuses them. */
  lemma LostSecondHalfStrands() returns (paid: seq<Action>, cancelled: seq<Action>)
    ensures var s := CallerRun(paid); 1 in s.rows && s.rows[1] == Row(CONFIRMING, 4) && Stuck(s, 1)
    ensures var s := CallerRun(cancelled); 1 in s.rows && s.rows[1] == Row(CANCELLING, 3) && Stuck(s, 1)
  {
    var held := HeldBooking();
    cancelled := LosesSecond(held, StartCancelling, 1);
    paid := Undisturbed(held, MarkPaymentPending, 1);
    paid := LosesSecond(paid, MarkConfirming, 1);
  }
}
