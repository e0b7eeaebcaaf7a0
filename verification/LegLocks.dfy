/** Booking-side Redis keys: one per seat and journey leg, or one per seat when no leg is known. */
module LegLocks {
  import opened Prelude
  import opened Decimals
  import opened LockStore

  // ---- Identifiers and their order ----

  predicate ColonFree(s: string) {
    ':' !in s
  }

  /** Seat ids are sorted as strings. */
  predicate LexLe(a: string, b: string) {
    a == [] || (b != [] && (a[0] < b[0] || (a[0] == b[0] && LexLe(a[1..], b[1..]))))
  }

  lemma {:induction false} LexTotal(a: string, b: string)
    ensures LexLe(a, b) || LexLe(b, a)
    ensures LexLe(a, b) && LexLe(b, a) ==> a == b
  {
    if a != [] && b != [] {
      LexTotal(a[1..], b[1..]);
      assert a == [a[0]] + a[1..] && b == [b[0]] + b[1..];
    }
  }

  lemma {:induction false} LexTransitive(a: string, b: string, c: string)
    ensures LexLe(a, b) && LexLe(b, c) ==> LexLe(a, c)
  {
    if a != [] && b != [] && c != [] {
      LexTransitive(a[1..], b[1..], c[1..]);
    }
  }

  lemma LexIsTotalOrder()
    ensures TotalOrder(LexLe)
  {
    forall a, b ensures (LexLe(a, b) || LexLe(b, a)) && (LexLe(a, b) && LexLe(b, a) ==> a == b) {
      LexTotal(a, b);
    }
    forall a, b, c ensures LexLe(a, b) && LexLe(b, c) ==> LexLe(a, c) {
      LexTransitive(a, b, c);
    }
  }

  lemma SeatsAreTakenInOrder(seatIds: seq<string>)
    ensures Ordered(Sort(seatIds, LexLe), LexLe) && multiset(Sort(seatIds, LexLe)) == multiset(seatIds)
  {
    LexIsTotalOrder();
    SortOrdered(seatIds, LexLe);
  }

  // ---- Which legs a booking covers ----

  /** The journey fields of a booking request; sequences count stops from 1. */
  datatype Journey = Journey(legIndices: Option<seq<nat>>, fromSequence: Option<nat>, toSequence: Option<nat>)

  function LegsBetween(from: nat, to: nat): seq<nat>
    requires from <= to
  {
    seq(to - from, i requires 0 <= i => from + i)
  }

  function DeriveLegs(j: Journey): (legs: Option<seq<nat>>) {
    if j.legIndices.Some? then j.legIndices
    else match (j.fromSequence, j.toSequence)
      case (Some(from), Some(to)) => if to > from then Some(LegsBetween(from, to)) else None
      case _ => None
  }

  lemma LegsBetweenMeaning(from: nat, to: nat)
    requires from <= to
    ensures forall leg: nat :: leg in LegsBetween(from, to) <==> from <= leg < to
  {
    forall leg: nat | from <= leg < to ensures leg in LegsBetween(from, to) {
      assert LegsBetween(from, to)[leg - from] == leg;
    }
  }

  function Unique<T(==,!new)>(s: seq<T>): (r: seq<T>)
    ensures forall x :: x in r <==> x in s
    ensures s != [] ==> r != []
  {
    if s == [] then []
    else
      var rest, last := Unique(s[..|s| - 1]), s[|s| - 1];
      if last in rest then rest else rest + [last]
  }

  lemma {:induction false} UniqueIsDistinct<T(!new)>(s: seq<T>)
    ensures Distinct(Unique(s))
  {
    if s != [] {
      UniqueIsDistinct(s[..|s| - 1]);
    }
  }

  // ---- Keys ----

  function SeatKey(schedule: string, seat: string): string {
    "booking:lock:seat:" + schedule + ":" + seat
  }

  function LegKey(schedule: string, seat: string, leg: nat): string {
    SeatKey(schedule, seat) + ":leg:" + Decimal(leg)
  }

  function KeysOfSeat(schedule: string, seat: string, legs: seq<nat>): seq<string> {
    seq(|legs|, j requires 0 <= j < |legs| => LegKey(schedule, seat, legs[j]))
  }

  function LegKeys(schedule: string, seats: seq<string>, legs: seq<nat>): seq<string> {
    if seats == [] then []
    else LegKeys(schedule, seats[..|seats| - 1], legs) + KeysOfSeat(schedule, seats[|seats| - 1], legs)
  }

  function SeatKeys(schedule: string, seats: seq<string>): seq<string> {
    seq(|seats|, i requires 0 <= i < |seats| => SeatKey(schedule, seats[i]))
  }

  predicate FullScope(legIndices: Option<seq<nat>>) {
    legIndices.None? || legIndices.value == []
  }

  function LockKeys(schedule: string, seatIds: seq<string>, legIndices: Option<seq<nat>>): seq<string> {
    var order := Sort(seatIds, LexLe);
    if FullScope(legIndices) then SeatKeys(schedule, order)
    else LegKeys(schedule, order, Sort(Unique(legIndices.value), (a: nat, b: nat) => a <= b))
  }

  /** The legs of the keys: each once and ascending, and none when the request names none. */
  ghost predicate LegOrder(legs: seq<nat>, legIndices: Option<seq<nat>>) {
    && (forall i, j :: 0 <= i < j < |legs| ==> legs[i] < legs[j])
    && (forall leg :: leg in legs <==> legIndices.Some? && leg in legIndices.value)
  }

  lemma AscendingLegs(legs: seq<nat>)
    ensures var le := (a: nat, b: nat) => a <= b;
            LegOrder(Sort(Unique(legs), le), Some(legs))
  {
    var le := (a: nat, b: nat) => a <= b;
    var sorted := Sort(Unique(legs), le);
    SortOrdered(Unique(legs), le);
    SortKeepsElements(Unique(legs), le);
    UniqueIsDistinct(legs);
    forall i, j | 0 <= i < j < |sorted| ensures sorted[i] < sorted[j] {
      assert le(sorted[i], sorted[j]);
    }
    forall leg ensures leg in sorted <==> leg in legs {
      assert leg in sorted <==> leg in Elements(sorted);
    }
  }

  /** The keys are taken seat by seat in one total order of the seats, and leg by leg in ascending order. */
  lemma KeysAreInOrder(schedule: string, seatIds: seq<string>, legIndices: Option<seq<nat>>)
    returns (order: seq<string>, legs: seq<nat>)
    ensures Ordered(order, LexLe) && multiset(order) == multiset(seatIds) && LegOrder(legs, legIndices)
    ensures LockKeys(schedule, seatIds, legIndices) ==
              if legs == [] then SeatKeys(schedule, order) else LegKeys(schedule, order, legs)
  {
    SeatsAreTakenInOrder(seatIds);
    order := Sort(seatIds, LexLe);
    if FullScope(legIndices) {
      legs := [];
    } else {
      AscendingLegs(legIndices.value);
      legs := Sort(Unique(legIndices.value), (a: nat, b: nat) => a <= b);
      assert legIndices.value[0] in legs;
    }
  }

  method GetLockKeys(schedule: string, seatIds: seq<string>, legIndices: Option<seq<nat>>) returns (keys: seq<string>)
    ensures keys == LockKeys(schedule, seatIds, legIndices)
  {
    var sortedSeatIds := Sort(seatIds, LexLe);
    if FullScope(legIndices) {
      return SeatKeys(schedule, sortedSeatIds);
    }
    var sortedLegs := Sort(Unique(legIndices.value), (a: nat, b: nat) => a <= b);
    keys := [];
    for i := 0 to |sortedSeatIds|
      invariant keys == LegKeys(schedule, sortedSeatIds[..i], sortedLegs)
    {
      ghost var before := keys;
      var seat := sortedSeatIds[i];
      for j := 0 to |sortedLegs|
        invariant keys == before + KeysOfSeat(schedule, seat, sortedLegs)[..j]
      {
        keys := keys + [LegKey(schedule, seat, sortedLegs[j])];
      }
      assert sortedSeatIds[..i + 1][..i] == sortedSeatIds[..i];
    }
    assert sortedSeatIds[..|sortedSeatIds|] == sortedSeatIds;
  }

  // ---- The key format can be read back ----

  lemma ColonSplits(a: string, b: string, x: string, y: string)
    requires ColonFree(a) && ColonFree(x)
    requires a + ":" + b == x + ":" + y
    ensures a == x && b == y
  {
    var s := a + ":" + b;
    IndexOfFirst(a, ':', b);
    IndexOfFirst(x, ':', y);
    assert a == s[..|a|] && x == s[..|x|];
    assert b == s[|a| + 1..] && y == s[|x| + 1..];
  }

  lemma PrefixCancels(p: string, a: string, b: string)
    requires p + a == p + b
    ensures a == b
  {
    assert a == (p + a)[|p|..] && b == (p + b)[|p|..];
  }

  lemma DecimalInjective(m: nat, n: nat)
    requires Decimal(m) == Decimal(n)
    ensures m == n
  {
    DecimalReadsBack(m);
    DecimalReadsBack(n);
  }

  lemma SeatKeyInjective(s: string, a: string, t: string, b: string)
    requires ColonFree(s) && ColonFree(t)
    requires SeatKey(s, a) == SeatKey(t, b)
    ensures s == t && a == b
  {
    var p := "booking:lock:seat:";
    assert SeatKey(s, a) == p + (s + ":" + a) && SeatKey(t, b) == p + (t + ":" + b);
    PrefixCancels(p, s + ":" + a, t + ":" + b);
    ColonSplits(s, a, t, b);
  }

  /** A leg key is the seat key of the seat id with the leg written behind it. */
  lemma LegKeyAsSeatKey(s: string, a: string, leg: nat)
    ensures LegKey(s, a, leg) == SeatKey(s, a + ":" + ("leg:" + Decimal(leg)))
  {
    assert ":leg:" == ":" + "leg:";
    assert LegKey(s, a, leg) == SeatKey(s, a) + (":" + ("leg:" + Decimal(leg)));
    var tail := ":" + ("leg:" + Decimal(leg));
    assert SeatKey(s, a) + tail == SeatKey(s, a + tail);
    assert a + tail == a + ":" + ("leg:" + Decimal(leg));
  }

  lemma LegKeyInjective(s: string, a: string, m: nat, t: string, b: string, n: nat)
    requires ColonFree(s) && ColonFree(t) && ColonFree(a) && ColonFree(b)
    requires LegKey(s, a, m) == LegKey(t, b, n)
    ensures s == t && a == b && m == n
  {
    LegKeyAsSeatKey(s, a, m);
    LegKeyAsSeatKey(t, b, n);
    SeatKeyInjective(s, a + ":" + ("leg:" + Decimal(m)), t, b + ":" + ("leg:" + Decimal(n)));
    ColonSplits(a, "leg:" + Decimal(m), b, "leg:" + Decimal(n));
    PrefixCancels("leg:", Decimal(m), Decimal(n));
    DecimalInjective(m, n);
  }

  lemma ColonInside(a: string, b: string)
    ensures !ColonFree(a + ":" + b)
  {
    assert (a + ":" + b)[|a|] == ':';
  }

  lemma SeatKeyIsNoLegKey(s: string, a: string, t: string, b: string, n: nat)
    requires ColonFree(s) && ColonFree(t) && ColonFree(a)
    ensures SeatKey(s, a) != LegKey(t, b, n)
  {
    LegKeyAsSeatKey(t, b, n);
    ColonInside(b, "leg:" + Decimal(n));
    if SeatKey(s, a) == LegKey(t, b, n) {
      SeatKeyInjective(s, a, t, b + ":" + ("leg:" + Decimal(n)));
    }
  }

  // ---- Which keys a booking asks for ----

  ghost predicate Asks(schedule: string, seats: seq<string>, legs: Option<seq<nat>>, key: string) {
    if FullScope(legs) then exists seat :: seat in seats && key == SeatKey(schedule, seat)
    else exists seat, leg :: seat in seats && leg in legs.value && key == LegKey(schedule, seat, leg)
  }

  lemma KeysOfSeatMeaning(schedule: string, seat: string, legs: seq<nat>, key: string)
    ensures key in KeysOfSeat(schedule, seat, legs) <==> exists leg :: leg in legs && key == LegKey(schedule, seat, leg)
  {
    var keys := KeysOfSeat(schedule, seat, legs);
    if leg :| leg in legs && key == LegKey(schedule, seat, leg) {
      var j :| 0 <= j < |legs| && legs[j] == leg;
      assert keys[j] == key;
    }
    if key in keys {
      var j :| 0 <= j < |keys| && keys[j] == key;
      assert legs[j] in legs;
    }
  }

  lemma {:induction false} LegKeysMeaning(schedule: string, seats: seq<string>, legs: seq<nat>, key: string)
    ensures key in LegKeys(schedule, seats, legs) <==>
              exists seat, leg :: seat in seats && leg in legs && key == LegKey(schedule, seat, leg)
  {
    if seats != [] {
      var n := |seats| - 1;
      LegKeysMeaning(schedule, seats[..n], legs, key);
      KeysOfSeatMeaning(schedule, seats[n], legs, key);
      assert seats == seats[..n] + [seats[n]];
    }
  }

  lemma LockKeysMeaning(schedule: string, seats: seq<string>, legs: Option<seq<nat>>, key: string)
    ensures key in LockKeys(schedule, seats, legs) <==> Asks(schedule, seats, legs, key)
  {
    var order := Sort(seats, LexLe);
    SortKeepsElements(seats, LexLe);
    assert forall x :: x in seats <==> x in Elements(order);
    if FullScope(legs) {
      var keys := SeatKeys(schedule, order);
      assert forall i | 0 <= i < |order| :: keys[i] == SeatKey(schedule, order[i]) && order[i] in order;
      if seat :| seat in seats && key == SeatKey(schedule, seat) {
        assert seat in order;
        var i :| 0 <= i < |order| && order[i] == seat;
        assert keys[i] == key;
      }
    } else {
      var le := (a: nat, b: nat) => a <= b;
      SortKeepsElements(Unique(legs.value), le);
      assert forall x: nat :: x in legs.value <==> x in Elements(Sort(Unique(legs.value), le));
      LegKeysMeaning(schedule, order, Sort(Unique(legs.value), le), key);
    }
  }

  // ---- When two bookings contend ----

  ghost predicate ShareKey(keys: seq<string>, keys': seq<string>) {
    exists key :: key in keys && key in keys'
  }

  ghost predicate Contend(s: string, seats: seq<string>, legs: Option<seq<nat>>,
                          t: string, seats': seq<string>, legs': Option<seq<nat>>)
  {
    ShareKey(LockKeys(s, seats, legs), LockKeys(t, seats', legs'))
  }

  ghost predicate AllColonFree(ids: seq<string>) {
    forall id :: id in ids ==> ColonFree(id)
  }

  ghost predicate ShareLeg(legs: Option<seq<nat>>, legs': Option<seq<nat>>) {
    if FullScope(legs) || FullScope(legs') then FullScope(legs) && FullScope(legs')
    else exists leg :: leg in legs.value && leg in legs'.value
  }

  lemma SharedKeyNamesSharedSeat(s: string, seats: seq<string>, legs: Option<seq<nat>>,
                                 t: string, seats': seq<string>, legs': Option<seq<nat>>, key: string)
    requires ColonFree(s) && ColonFree(t) && AllColonFree(seats) && AllColonFree(seats')
    requires Asks(s, seats, legs, key) && Asks(t, seats', legs', key)
    ensures s == t && (exists seat :: seat in seats && seat in seats') && ShareLeg(legs, legs')
  {
    if FullScope(legs) {
      var seat :| seat in seats && key == SeatKey(s, seat);
      if FullScope(legs') {
        var seat' :| seat' in seats' && key == SeatKey(t, seat');
        SeatKeyInjective(s, seat, t, seat');
      } else {
        var seat', leg' :| seat' in seats' && leg' in legs'.value && key == LegKey(t, seat', leg');
        SeatKeyIsNoLegKey(s, seat, t, seat', leg');
      }
    } else {
      var seat, leg :| seat in seats && leg in legs.value && key == LegKey(s, seat, leg);
      if FullScope(legs') {
        var seat' :| seat' in seats' && key == SeatKey(t, seat');
        SeatKeyIsNoLegKey(t, seat', s, seat, leg);
      } else {
        var seat', leg' :| seat' in seats' && leg' in legs'.value && key == LegKey(t, seat', leg');
        LegKeyInjective(s, seat, leg, t, seat', leg');
      }
    }
  }

  /** Two bookings contend for a lock exactly when schedule, some seat and some leg (or the lack of legs) agree. */
  lemma ContendExactly(s: string, seats: seq<string>, legs: Option<seq<nat>>,
                       t: string, seats': seq<string>, legs': Option<seq<nat>>)
    requires ColonFree(s) && ColonFree(t) && AllColonFree(seats) && AllColonFree(seats')
    ensures Contend(s, seats, legs, t, seats', legs') <==>
              s == t && (exists seat :: seat in seats && seat in seats') && ShareLeg(legs, legs')
  {
    if key :| key in LockKeys(s, seats, legs) && key in LockKeys(t, seats', legs') {
      LockKeysMeaning(s, seats, legs, key);
      LockKeysMeaning(t, seats', legs', key);
      SharedKeyNamesSharedSeat(s, seats, legs, t, seats', legs', key);
    }
    if s == t && (exists seat :: seat in seats && seat in seats') && ShareLeg(legs, legs') {
      var seat :| seat in seats && seat in seats';
      var key;
      if FullScope(legs) {
        key := SeatKey(s, seat);
      } else {
        var leg :| leg in legs.value && leg in legs'.value;
        key := LegKey(s, seat, leg);
      }
      LockKeysMeaning(s, seats, legs, key);
      LockKeysMeaning(t, seats', legs', key);
    }
  }

  /** With legs derived from the stop sequences, contention is exactly overlap of the half-open segments. */
  lemma DerivedLegsMatchSegments(s: string, seats: seq<string>, from: nat, to: nat,
                                 t: string, seats': seq<string>, from': nat, to': nat)
    requires ColonFree(s) && ColonFree(t) && AllColonFree(seats) && AllColonFree(seats')
    requires from < to && from' < to'
    ensures Contend(s, seats, DeriveLegs(Journey(None, Some(from), Some(to))),
                    t, seats', DeriveLegs(Journey(None, Some(from'), Some(to')))) <==>
              s == t && (exists seat :: seat in seats && seat in seats') && from < to' && from' < to
  {
    var legs := DeriveLegs(Journey(None, Some(from), Some(to)));
    var legs' := DeriveLegs(Journey(None, Some(from'), Some(to')));
    ContendExactly(s, seats, legs, t, seats', legs');
    LegsBetweenMeaning(from, to);
    LegsBetweenMeaning(from', to');
    assert from in legs.value && from' in legs'.value;
    if from < to' && from' < to {
      var shared := if from < from' then from' else from;
      assert shared in legs.value && shared in legs'.value;
    }
  }

  /**
   * A request that sends no usable leg locks the whole-schedule key, which no leg-scoped request asks for:
   * the fallback keeps out other fallback requests only.
   */
  lemma FallbackMissesLegs(s: string, seats: seq<string>, seats': seq<string>, j: Journey, j': Journey)
    requires ColonFree(s) && AllColonFree(seats) && AllColonFree(seats')
    requires exists seat :: seat in seats && seat in seats'
    requires FullScope(DeriveLegs(j))
    ensures Contend(s, seats, DeriveLegs(j), s, seats', DeriveLegs(j')) <==> FullScope(DeriveLegs(j'))
  {
    ContendExactly(s, seats, DeriveLegs(j), s, seats', DeriveLegs(j'));
  }

  /** Two requests for seat "A1" that do not keep each other out: one sends no legs, one travels from stop 1 to 3. */
  lemma FallbackPassesLegs()
    ensures !Contend("S", ["A1"], DeriveLegs(Journey(None, None, None)),
                     "S", ["A1"], DeriveLegs(Journey(None, Some(1), Some(3))))
  {
    assert "A1" in ["A1"];
    FallbackMissesLegs("S", ["A1"], ["A1"], Journey(None, None, None), Journey(None, Some(1), Some(3)));
  }

  // ---- What the lock script makes of the keys ----

  lemma {:induction false} LegKeysDistinct(schedule: string, seats: seq<string>, legs: seq<nat>)
    requires ColonFree(schedule) && AllColonFree(seats)
    requires Distinct(seats) && Distinct(legs)
    ensures Distinct(LegKeys(schedule, seats, legs))
  {
    if seats != [] {
      var n := |seats| - 1;
      var before, own := LegKeys(schedule, seats[..n], legs), KeysOfSeat(schedule, seats[n], legs);
      LegKeysDistinct(schedule, seats[..n], legs);
      forall i, j | 0 <= i < j < |own| ensures own[i] != own[j] {
        if own[i] == own[j] {
          LegKeyInjective(schedule, seats[n], legs[i], schedule, seats[n], legs[j]);
        }
      }
      forall key | key in before ensures key !in own {
        LegKeysMeaning(schedule, seats[..n], legs, key);
        KeysOfSeatMeaning(schedule, seats[n], legs, key);
        var seat, leg :| seat in seats[..n] && leg in legs && key == LegKey(schedule, seat, leg);
        forall leg' | leg' in legs ensures key != LegKey(schedule, seats[n], leg') {
          if key == LegKey(schedule, seats[n], leg') {
            LegKeyInjective(schedule, seat, leg, schedule, seats[n], leg');
          }
        }
      }
      forall i, j | 0 <= i < j < |before + own| ensures (before + own)[i] != (before + own)[j] {
        if i < |before| <= j {
          assert before[i] in before && own[j - |before|] in own;
        }
      }
    }
  }

  lemma LockKeysDistinct(schedule: string, seats: seq<string>, legs: Option<seq<nat>>)
    requires ColonFree(schedule) && AllColonFree(seats) && Distinct(seats)
    ensures Distinct(LockKeys(schedule, seats, legs))
  {
    var order := Sort(seats, LexLe);
    SortKeepsElements(seats, LexLe);
    assert forall x :: x in order <==> x in Elements(order);
    if FullScope(legs) {
      var keys := SeatKeys(schedule, order);
      forall i, j | 0 <= i < j < |keys| ensures keys[i] != keys[j] {
        if keys[i] == keys[j] {
          SeatKeyInjective(schedule, order[i], schedule, order[j]);
        }
      }
    } else {
      var le := (a: nat, b: nat) => a <= b;
      UniqueIsDistinct(legs.value);
      SortKeepsElements(Unique(legs.value), le);
      LegKeysDistinct(schedule, order, Sort(Unique(legs.value), le));
    }
  }

  /**
   * Behind a booking that holds its locks, a second one with distinct seats, whose keys are otherwise free, is
   * granted its own exactly when schedule, seat or segment keeps them apart.
   */
  lemma GrantedBehind(held: map<string, Id>, token: Id, s: string, seats: seq<string>, from: nat, to: nat,
                      t: string, seats': seq<string>, from': nat, to': nat)
    requires ColonFree(s) && ColonFree(t) && AllColonFree(seats) && AllColonFree(seats')
    requires Distinct(seats') && from < to && from' < to'
    requires Grantable(held, LockKeys(t, seats', DeriveLegs(Journey(None, Some(from'), Some(to')))))
    ensures var keys := LockKeys(s, seats, DeriveLegs(Journey(None, Some(from), Some(to))));
            var keys' := LockKeys(t, seats', DeriveLegs(Journey(None, Some(from'), Some(to'))));
            Grantable(held + Granted(keys, token), keys') <==>
              s != t || (forall seat :: seat in seats ==> seat !in seats') || to <= from' || to' <= from
  {
    var keys := LockKeys(s, seats, DeriveLegs(Journey(None, Some(from), Some(to))));
    var keys' := LockKeys(t, seats', DeriveLegs(Journey(None, Some(from'), Some(to'))));
    DerivedLegsMatchSegments(s, seats, from, to, t, seats', from', to');
    assert forall k | k in keys' :: k in held + Granted(keys, token) <==> k in keys;
  }

  lemma {:induction false} RepeatedSeatRepeatsKey(schedule: string, seats: seq<string>, legs: seq<nat>, i: nat, j: nat)
    requires i < j < |seats| && seats[i] == seats[j] && legs != []
    ensures !Distinct(LegKeys(schedule, seats, legs))
  {
    var n := |seats| - 1;
    var before, own := LegKeys(schedule, seats[..n], legs), KeysOfSeat(schedule, seats[n], legs);
    var all := LegKeys(schedule, seats, legs);
    if j == n {
      var key := LegKey(schedule, seats[n], legs[0]);
      LegKeysMeaning(schedule, seats[..n], legs, key);
      assert seats[..n][i] == seats[n];
      assert key in before;
      var p :| 0 <= p < |before| && before[p] == key;
      assert all[p] == key == all[|before|];
    } else {
      RepeatedSeatRepeatsKey(schedule, seats[..n], legs, i, j);
      var p, q :| 0 <= p < q < |before| && before[p] == before[q];
      assert all[p] == all[q];
    }
  }

  /** An empty store grants any request except one that names a seat twice: each mention sets the key again. */
  lemma RepeatedSeatIsRefused(schedule: string, seats: seq<string>, legs: Option<seq<nat>>)
    requires ColonFree(schedule) && AllColonFree(seats)
    ensures Grantable(map[], LockKeys(schedule, seats, legs)) <==> Distinct(seats)
  {
    if Distinct(seats) {
      LockKeysDistinct(schedule, seats, legs);
      return;
    }
    var keys := LockKeys(schedule, seats, legs);
    var order := Sort(seats, LexLe);
    SortKeepsElements(seats, LexLe);
    ElementsCount(seats);
    ElementsCount(order);
    var i, j :| 0 <= i < j < |order| && order[i] == order[j];
    if FullScope(legs) {
      assert keys[i] == keys[j];
    } else {
      var le := (a: nat, b: nat) => a <= b;
      RepeatedSeatRepeatsKey(schedule, order, Sort(Unique(legs.value), le), i, j);
    }
  }
}
