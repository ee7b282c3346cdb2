/** Stable sorting by an order relation: the specification of the library sort that the engine,
    the matchers, the calibrator and the graph walk all call. */
module Sorting {

  ghost predicate TotalPreorder<T(!new)>(leq: (T, T) -> bool) {
    && (forall x, y :: leq(x, y) || leq(y, x))
    && (forall x, y, z :: leq(x, y) && leq(y, z) ==> leq(x, z))
  }

  ghost predicate Sorted<T>(leq: (T, T) -> bool, s: seq<T>) {
    forall i, j :: 0 <= i < j < |s| ==> leq(s[i], s[j])
  }

  /** Inserts `x` after every element that is not above it, so equal elements keep their order. */
  function Insert<T(!new)>(leq: (T, T) -> bool, s: seq<T>, x: T): (r: seq<T>)
    ensures multiset(r) == multiset(s) + multiset{x}
    ensures |r| == |s| + 1
    ensures forall y :: y in r <==> y == x || y in s
  {
    if s == [] || leq(s[|s| - 1], x) then s + [x]
    else
      assert s == s[..|s| - 1] + [s[|s| - 1]];
      Insert(leq, s[..|s| - 1], x) + [s[|s| - 1]]
  }

  function SortBy<T(!new)>(leq: (T, T) -> bool, s: seq<T>): (r: seq<T>)
    ensures multiset(r) == multiset(s)
    ensures |r| == |s|
    ensures forall y :: y in r <==> y in s
  {
    if s == [] then []
    else
      assert s == s[..|s| - 1] + [s[|s| - 1]];
      Insert(leq, SortBy(leq, s[..|s| - 1]), s[|s| - 1])
  }

  lemma {:induction false} InsertSorted<T(!new)>(leq: (T, T) -> bool, s: seq<T>, x: T)
    requires TotalPreorder(leq) && Sorted(leq, s)
    ensures Sorted(leq, Insert(leq, s, x))
  {
    if s != [] && !leq(s[|s| - 1], x) {
      var last := s[|s| - 1];
      InsertSorted(leq, s[..|s| - 1], x);
      var r := Insert(leq, s[..|s| - 1], x);
      forall i | 0 <= i < |r| ensures leq(r[i], last) {
        assert r[i] in r;
        if r[i] != x {
          var k :| 0 <= k < |s| - 1 && s[..|s| - 1][k] == r[i];
        }
      }
    }
  }

  lemma {:induction false} SortBySorted<T(!new)>(leq: (T, T) -> bool, s: seq<T>)
    requires TotalPreorder(leq)
    ensures Sorted(leq, SortBy(leq, s))
  {
    if s == [] {
    } else {
      SortBySorted(leq, s[..|s| - 1]);
      InsertSorted(leq, SortBy(leq, s[..|s| - 1]), s[|s| - 1]);
    }
  }

  ghost predicate Distinct<T>(s: seq<T>) {
    forall i, j :: 0 <= i < j < |s| ==> s[i] != s[j]
  }

  /** Distinctness is a property of the multiset alone, so sorting keeps it. */
  lemma {:induction false} DistinctMultiset<T>(s: seq<T>)
    ensures Distinct(s) <==> forall x :: multiset(s)[x] <= 1
  {
    if s == [] {
    } else {
      var t, x := s[..|s| - 1], s[|s| - 1];
      assert s == t + [x];
      DistinctMultiset(t);
      if Distinct(s) {
        assert x !in t;
        assert multiset(t)[x] == 0;
      } else if Distinct(t) {
        assert x in t;
        assert multiset(s)[x] >= 2;
      } else {
        var y :| multiset(t)[y] > 1;
        assert multiset(s)[y] > 1;
      }
    }
  }

  lemma SortByDistinct<T(!new)>(leq: (T, T) -> bool, s: seq<T>)
    requires Distinct(s)
    ensures Distinct(SortBy(leq, s))
  {
    DistinctMultiset(s);
    DistinctMultiset(SortBy(leq, s));
  }

  /** The indices below `n` outside `used`, in increasing order. */
  function Others(n: nat, used: set<nat>): (r: seq<nat>)
    ensures forall x: nat :: x in r <==> x < n && x !in used
    ensures forall i :: 0 <= i < |r| ==> r[i] < n && r[i] !in used
    ensures forall i, j :: 0 <= i < j < |r| ==> r[i] < r[j]
  {
    if n == 0 then []
    else Others(n - 1, used) + (if n - 1 in used then [] else [n - 1])
  }

  ghost function Within(n: nat, used: set<nat>): set<nat> {
    set x | x in used && x < n
  }

  lemma {:induction false} OthersCountWithin(n: nat, used: set<nat>)
    ensures |Others(n, used)| == n - |Within(n, used)|
  {
    hide Others, Within;
    if n == 0 {
      CountedNone(used);
    } else {
      OthersCountWithin(n - 1, used);
      WithinStep(n - 1, used);
      OthersCountStep(n - 1, used);
    }
  }

  lemma CountedNone(used: set<nat>)
    ensures |Others(0, used)| == 0 && |Within(0, used)| == 0
  {
    assert Within(0, used) == {};
  }

  lemma OthersCountStep(n: nat, used: set<nat>)
    ensures |Others(n + 1, used)| == |Others(n, used)| + if n in used then 0 else 1
  {
  }

  lemma WithinStep(n: nat, used: set<nat>)
    ensures |Within(n + 1, used)| == |Within(n, used)| + if n in used then 1 else 0
  {
    var w := Within(n, used);
    assert n !in w;
    assert Within(n + 1, used) == if n in used then w + {n} else w;
  }

  /** ... and there are as many of them as `used` leaves. */
  lemma OthersCount(n: nat, used: set<nat>)
    requires forall x: nat :: x in used ==> x < n
    ensures |Others(n, used)| == n - |used|
  {
    OthersCountWithin(n, used);
    assert Within(n, used) == used;
  }
}
