/** The nine booking statuses, the transitions that have callers, and the shape of every status history. */
module BookingLifecycle {
  import opened Prelude

  datatype BookingStatus =
    | PENDING | SEATS_HELD | PAYMENT_PENDING | CONFIRMING | CONFIRMED
    | CANCELLING | CANCELLED | EXPIRED | FAILED
  {
    /** Progress: no transition ever lowers it or keeps it. */
    function Rank(): nat {
      match this
      case PENDING => 1
      case SEATS_HELD => 2
      case PAYMENT_PENDING => 3
      case CONFIRMING => 4
      case CONFIRMED => 5
      case CANCELLING => 6
      case _ => 7
    }

    predicate Final() {
      CANCELLED? || EXPIRED? || FAILED?
    }

    /** The booking owns its seats. */
    predicate Live() {
      SEATS_HELD? || PAYMENT_PENDING? || CONFIRMING? || CONFIRMED? || CANCELLING?
    }
  }

  /** One transition each: three saga replies, then the calls of `BookingService.transition`. */
  datatype Transition =
    | AcceptHeld | RejectFailed | Expire
    | MarkPaymentPending | MarkConfirming | MarkConfirmed | StartCancelling | FinishCancelling
  {
    function From(): set<BookingStatus> {
      match this
      case AcceptHeld => {PENDING}
      case RejectFailed => {PENDING}
      case Expire => {SEATS_HELD, PENDING}
      case MarkPaymentPending => {SEATS_HELD}
      case MarkConfirming => {PAYMENT_PENDING}
      case MarkConfirmed => {CONFIRMING}
      case StartCancelling => {CONFIRMED, SEATS_HELD}
      case FinishCancelling => {CANCELLING}
    }

    function Target(): BookingStatus {
      match this
      case AcceptHeld => SEATS_HELD
      case RejectFailed => FAILED
      case Expire => EXPIRED
      case MarkPaymentPending => PAYMENT_PENDING
      case MarkConfirming => CONFIRMING
      case MarkConfirmed => CONFIRMED
      case StartCancelling => CANCELLING
      case FinishCancelling => CANCELLED
    }

    /** `transition` writes an outbox row; the saga handlers call `updateStatus` themselves and write none. */
    predicate Announced() {
      !AcceptHeld? && !RejectFailed? && !Expire?
    }
  }

  datatype Row = Row(status: BookingStatus, version: nat)

  /** `updateStatus`: the row after the guarded update, and whether it matched. */
  function UpdateStatus(row: Row, status: BookingStatus, expectedVersion: nat): (r: (Row, bool)) {
    if row.version < expectedVersion then (Row(status, expectedVersion), true) else (row, false)
  }

  // ---- Histories ----

  ghost predicate Edge(a: BookingStatus, b: BookingStatus) {
    exists k: Transition :: a in k.From() && k.Target() == b
  }

  /** A status history: PENDING, then one transition after another. */
  ghost predicate Lawful(trail: seq<BookingStatus>) {
    && trail != [] && trail[0] == PENDING
    && (forall i :: 0 < i < |trail| ==> Edge(trail[i - 1], trail[i]))
  }

  lemma EdgeRaisesRank(a: BookingStatus, b: BookingStatus)
    requires Edge(a, b)
    ensures a.Rank() < b.Rank() && !a.Final()
  {
    var k: Transition :| a in k.From() && k.Target() == b;
  }

  lemma {:induction false} RankBoundsLength(trail: seq<BookingStatus>)
    requires Lawful(trail)
    ensures |trail| <= trail[|trail| - 1].Rank() <= 7
  {
    var n := |trail| - 1;
    if n > 0 {
      var init := trail[..n];
      assert forall i | 0 < i < n :: Edge(init[i - 1], init[i]) by {
        assert forall i | 0 < i < n :: Edge(trail[i - 1], trail[i]);
      }
      RankBoundsLength(init);
      assert Edge(trail[n - 1], trail[n]);
      EdgeRaisesRank(trail[n - 1], trail[n]);
    }
  }

  /** The only way to reach each status through the statuses that lead to CONFIRMED. */
  ghost predicate OnConfirmedPath(trail: seq<BookingStatus>) {
    trail <= [PENDING, SEATS_HELD, PAYMENT_PENDING, CONFIRMING, CONFIRMED]
  }

  lemma {:induction false} ConfirmedPathIsForced(trail: seq<BookingStatus>)
    requires Lawful(trail) && trail[|trail| - 1].Rank() <= 5
    ensures OnConfirmedPath(trail)
  {
    var n := |trail| - 1;
    if n > 0 {
      var init := trail[..n];
      assert Edge(trail[n - 1], trail[n]);
      EdgeRaisesRank(trail[n - 1], trail[n]);
      assert forall i | 0 < i < n :: Edge(init[i - 1], init[i]) by {
        assert forall i | 0 < i < n :: Edge(trail[i - 1], trail[i]);
      }
      ConfirmedPathIsForced(init);
      var k: Transition :| trail[n - 1] in k.From() && k.Target() == trail[n];
      assert trail == init + [trail[n]];
    }
  }

  /** Every status history: ranks rise, at most seven entries, final statuses last, and one road to CONFIRMED. */
  lemma LawfulShape(trail: seq<BookingStatus>)
    requires Lawful(trail)
    ensures |trail| <= 7
    ensures forall i, j :: 0 <= i < j < |trail| ==> trail[i].Rank() < trail[j].Rank()
    ensures forall i :: 0 <= i < |trail| - 1 ==> !trail[i].Final()
    ensures forall i :: 0 <= i < |trail| && trail[i] == CONFIRMED ==>
              trail[..i + 1] == [PENDING, SEATS_HELD, PAYMENT_PENDING, CONFIRMING, CONFIRMED]
  {
    RankBoundsLength(trail);
    forall i, j | 0 <= i < j < |trail| ensures trail[i].Rank() < trail[j].Rank() {
      RanksRise(trail, i, j);
    }
    forall i | 0 <= i < |trail| - 1 ensures !trail[i].Final() {
      assert Edge(trail[i + 1 - 1], trail[i + 1]);
      EdgeRaisesRank(trail[i], trail[i + 1]);
    }
    forall i | 0 <= i < |trail| && trail[i] == CONFIRMED
      ensures trail[..i + 1] == [PENDING, SEATS_HELD, PAYMENT_PENDING, CONFIRMING, CONFIRMED]
    {
      assert Lawful(trail[..i + 1]) by {
        assert forall j | 0 < j < i + 1 :: Edge(trail[j - 1], trail[j]);
      }
      ConfirmedPathIsForced(trail[..i + 1]);
      assert trail[..i + 1][i] == CONFIRMED;
    }
  }

  lemma {:induction false} RanksRise(trail: seq<BookingStatus>, i: nat, j: nat)
    requires Lawful(trail) && i < j < |trail|
    ensures trail[i].Rank() < trail[j].Rank()
  {
    assert Edge(trail[j - 1], trail[j]);
    EdgeRaisesRank(trail[j - 1], trail[j]);
    if i < j - 1 {
      RanksRise(trail, i, j - 1);
    }
  }
}
