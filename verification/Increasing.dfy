/** Strictly increasing lists of indices, determined by what they contain. */
module Increasing {
  import opened Sorting

  ghost predicate Increases(s: seq<nat>) {
    forall i, j :: 0 <= i < j < |s| ==> s[i] < s[j]
  }

  lemma LastIsMost(s: seq<nat>, x: nat)
    requires Increases(s) && s != []
    ensures x in s[..|s| - 1] <==> x in s && x < s[|s| - 1]
    ensures x in s ==> x <= s[|s| - 1]
    ensures Increases(s[..|s| - 1])
  {
    if x in s {
      var i :| 0 <= i < |s| && s[i] == x;
      if i < |s| - 1 { assert s[..|s| - 1][i] == x; }
    }
  }

  lemma {:induction false} IncreasingUnique(a: seq<nat>, b: seq<nat>)
    requires Increases(a) && Increases(b) && forall x :: x in a <==> x in b
    ensures a == b
  {
    SameEmpty(a, b);
    if a == [] {
    } else {
      var x, y := a[|a| - 1], b[|b| - 1];
      assert x in b && y in a;
      LastIsMost(a, y);
      LastIsMost(b, x);
      var c, d := a[..|a| - 1], b[..|b| - 1];
      forall z ensures z in c <==> z in d { LastIsMost(a, z); LastIsMost(b, z); }
      hide Increases;
      IncreasingUnique(c, d);
      assert a == c + [x] && b == d + [x];
    }
  }

  lemma SameEmpty(a: seq<nat>, b: seq<nat>)
    requires forall x :: x in a <==> x in b
    ensures a == [] <==> b == []
  {
    if a != [] { assert a[0] in b; }
    if b != [] { assert b[0] in a; }
  }

  /** A list is `Others` when it increases and holds what `Others` holds. */
  lemma OthersIs(n: nat, used: set<nat>, s: seq<nat>)
    requires Increases(s) && forall x: nat :: x in s <==> x < n && x !in used
    ensures Others(n, used) == s
  {
    IncreasingUnique(Others(n, used), s);
  }

  lemma OthersSkip(n: nat, used: set<nat>, x: nat)
    requires x >= n
    ensures Others(n, used + {x}) == Others(n, used)
  {
    OthersIs(n, used + {x}, Others(n, used));
  }

  lemma OthersStep(i: nat, used: set<nat>)
    requires i !in used
    ensures Others(i + 1, used) == Others(i, used) + [i]
    ensures Others(i + 1, used + {i}) == Others(i, used)
  {
    OthersSkip(i, used, i);
  }

  lemma OthersAll(n: nat)
    ensures Others(n, {}) == seq(n, i => i)
  {
    var s: seq<nat> := seq(n, i => i);
    forall x: nat ensures x in s <==> x < n {
      if x < n { assert s[x] == x; }
    }
    OthersIs(n, {}, s);
  }

  /** The members of `xs` at the places `js`. */
  function Pick(xs: seq<nat>, js: seq<nat>): (r: seq<nat>)
    requires forall k :: 0 <= k < |js| ==> js[k] < |xs|
    ensures |r| == |js| && forall k :: 0 <= k < |js| ==> r[k] == xs[js[k]]
  {
    seq(|js|, k requires 0 <= k < |js| => xs[js[k]])
  }

  /** `x` stands in `left` at one of the places `ks`. */
  ghost predicate StandsAt(left: seq<nat>, ks: set<nat>, x: nat) {
    exists k :: k in ks && k < |left| && left[k] == x
  }

  lemma PickIncreases(left: seq<nat>, js: seq<nat>)
    requires Increases(left) && Increases(js) && forall k :: 0 <= k < |js| ==> js[k] < |left|
    ensures Increases(Pick(left, js))
  {
  }

  lemma PickMembers(left: seq<nat>, ks: set<nat>, x: nat)
    requires Increases(left)
    ensures x in Pick(left, Others(|left|, ks)) <==> x in left && !StandsAt(left, ks, x)
  {
    var rest := Others(|left|, ks);
    var s := Pick(left, rest);
    if x in s {
      var k :| 0 <= k < |s| && s[k] == x;
      PickedStands(left, ks, rest[k]);
    }
    if x in left && !StandsAt(left, ks, x) {
      var k: nat :| k < |left| && left[k] == x;
      assert k in rest;
      var q :| 0 <= q < |rest| && rest[q] == k;
      assert s[q] == x;
    }
  }

  lemma PickedStands(left: seq<nat>, ks: set<nat>, k: nat)
    requires Increases(left) && k < |left| && k !in ks
    ensures left[k] in left && !StandsAt(left, ks, left[k])
  {
  }

  /** Leaving out some of those left is leaving out more: indices into a list of leftovers, mapped back,
      are the leftovers of the union. */
  lemma OthersPick(n: nat, used: set<nat>, ks: set<nat>, all: set<nat>)
    requires forall x: nat :: x in all <==> x in used || StandsAt(Others(n, used), ks, x)
    ensures Pick(Others(n, used), Others(|Others(n, used)|, ks)) == Others(n, all)
  {
    var left := Others(n, used);
    var s := Pick(left, Others(|left|, ks));
    PickIncreases(left, Others(|left|, ks));
    hide StandsAt, Increases;
    forall x: nat ensures x in s <==> x < n && x !in all {
      PickMembers(left, ks, x);
    }
    OthersIs(n, all, s);
  }
}
