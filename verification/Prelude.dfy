/** Small building blocks shared by the other modules. */
module Prelude {

  datatype Option<+T> = None | Some(value: T)

  /** Identifiers are UUIDs, taken here as natural numbers and ordered by value. */
  type Id = nat

  ghost predicate Distinct<T(!new)>(s: seq<T>) {
    forall i, j :: 0 <= i < j < |s| ==> s[i] != s[j]
  }

  function Elements<T(!new)>(s: seq<T>): (r: set<T>)
    ensures forall x :: x in r <==> x in s
  {
    set x | x in s
  }

  lemma ElementsOneMore<T(!new)>(s: seq<T>, x: T)
    ensures Elements(s + [x]) == Elements(s) + {x}
  {
  }

  lemma DistinctOneMore<T(!new)>(s: seq<T>, x: T)
    ensures Distinct(s + [x]) <==> Distinct(s) && x !in s
  {
    var t := s + [x];
    if Distinct(t) {
      assert forall i, j | 0 <= i < j < |s| :: s[i] == t[i] != t[j] == s[j];
      assert forall i | 0 <= i < |s| :: s[i] == t[i] != t[|s|];
    }
  }

  /** A sequence is at least as long as its set of elements, and exactly as long when nothing repeats. */
  lemma {:induction false} ElementsCount<T(!new)>(s: seq<T>)
    ensures |Elements(s)| <= |s|
    ensures |Elements(s)| == |s| <==> Distinct(s)
  {
    if s != [] {
      var n := |s| - 1;
      ElementsCount(s[..n]);
      assert Elements(s) == Elements(s[..n]) + {s[n]};
      DistinctOneMore(s[..n], s[n]);
      assert s == s[..n] + [s[n]];
    } else {
      assert Elements(s) == {};
    }
  }

  // ---- Sorting under a caller-supplied total order ----

  ghost predicate TotalOrder<T(!new)>(le: (T, T) -> bool) {
    && (forall x, y :: le(x, y) || le(y, x))
    && (forall x, y :: le(x, y) && le(y, x) ==> x == y)
    && (forall x, y, z :: le(x, y) && le(y, z) ==> le(x, z))
  }

  ghost predicate Ordered<T>(s: seq<T>, le: (T, T) -> bool) {
    forall i, j :: 0 <= i < j < |s| ==> le(s[i], s[j])
  }

  function Insert<T>(x: T, s: seq<T>, le: (T, T) -> bool): (r: seq<T>)
    ensures multiset(r) == multiset(s) + multiset{x}
  {
    if s == [] then [x]
    else if le(x, s[0]) then [x] + s
    else
      assert s == [s[0]] + s[1..];
      [s[0]] + Insert(x, s[1..], le)
  }

  function Sort<T>(s: seq<T>, le: (T, T) -> bool): (r: seq<T>)
    ensures multiset(r) == multiset(s)
    ensures |r| == |s|
  {
    if s == [] then []
    else
      assert s == [s[0]] + s[1..];
      var r := Insert(s[0], Sort(s[1..], le), le);
      assert |multiset(r)| == |multiset(s)|;
      r
  }

  lemma {:induction false} InsertOrdered<T(!new)>(x: T, s: seq<T>, le: (T, T) -> bool)
    requires TotalOrder(le) && Ordered(s, le)
    ensures Ordered(Insert(x, s, le), le)
  {
    if s != [] && !le(x, s[0]) {
      InsertOrdered(x, s[1..], le);
      var rest := Insert(x, s[1..], le);
      forall j | 0 <= j < |rest| ensures le(s[0], rest[j]) {
        assert rest[j] in multiset(rest);
        assert rest[j] == x || rest[j] in s[1..];
      }
    } else if s != [] {
      forall j | 0 <= j < |s| ensures le(x, s[j]) {
        assert j == 0 || le(s[0], s[j]);
      }
    }
  }

  lemma {:induction false} SortOrdered<T(!new)>(s: seq<T>, le: (T, T) -> bool)
    requires TotalOrder(le)
    ensures Ordered(Sort(s, le), le)
  {
    if s != [] {
      SortOrdered(s[1..], le);
      InsertOrdered(s[0], Sort(s[1..], le), le);
    }
  }

  lemma SortKeepsElements<T(!new)>(s: seq<T>, le: (T, T) -> bool)
    ensures Elements(Sort(s, le)) == Elements(s)
    ensures Distinct(s) ==> Distinct(Sort(s, le))
  {
    var r := Sort(s, le);
    forall x ensures x in r <==> x in s {
      assert x in r <==> x in multiset(r);
      assert x in s <==> x in multiset(s);
    }
    ElementsCount(s);
    ElementsCount(r);
    assert Elements(r) == Elements(s);
  }
}
