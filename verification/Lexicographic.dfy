/** Dictionary order on sequences, and the order that compares lengths first. */
module Lexicographic {

  ghost predicate StrictOrder<T(!new)>(less: (T, T) -> bool) {
    && (forall x :: !less(x, x))
    && (forall x, y :: less(x, y) || x == y || less(y, x))
    && (forall x, y, z :: less(x, y) && less(y, z) ==> less(x, z))
  }

  predicate LexLess<T(==)>(less: (T, T) -> bool, a: seq<T>, b: seq<T>) {
    if b == [] then false
    else if a == [] then true
    else less(a[0], b[0]) || (a[0] == b[0] && LexLess(less, a[1..], b[1..]))
  }

  predicate ShortLess<T(==)>(less: (T, T) -> bool, a: seq<T>, b: seq<T>) {
    |a| < |b| || (|a| == |b| && LexLess(less, a, b))
  }

  lemma {:induction false} LexIrreflexive<T(!new)>(less: (T, T) -> bool, a: seq<T>)
    requires StrictOrder(less)
    ensures !LexLess(less, a, a)
  {
    if a == [] {
    } else {
      LexIrreflexive(less, a[1..]);
    }
  }

  lemma {:induction false} LexTotal<T(!new)>(less: (T, T) -> bool, a: seq<T>, b: seq<T>)
    requires StrictOrder(less)
    ensures LexLess(less, a, b) || a == b || LexLess(less, b, a)
  {
    if a != [] && b != [] {
      LexTotal(less, a[1..], b[1..]);
      assert a == [a[0]] + a[1..] && b == [b[0]] + b[1..];
    }
  }

  lemma {:induction false} LexTransitive<T(!new)>(less: (T, T) -> bool, a: seq<T>, b: seq<T>, c: seq<T>)
    requires StrictOrder(less)
    requires LexLess(less, a, b) && LexLess(less, b, c)
    ensures LexLess(less, a, c)
  {
    if a != [] && a[0] == b[0] && b[0] == c[0] {
      LexTransitive(less, a[1..], b[1..], c[1..]);
    }
  }

  /** Dictionary order over a strict total order is one. */
  lemma LexStrictOrder<T(!new)>(less: (T, T) -> bool)
    requires StrictOrder(less)
    ensures StrictOrder((a, b) => LexLess(less, a, b))
  {
    forall a ensures !LexLess(less, a, a) { LexIrreflexive(less, a); }
    forall a, b ensures LexLess(less, a, b) || a == b || LexLess(less, b, a) { LexTotal(less, a, b); }
    forall a, b, c | LexLess(less, a, b) && LexLess(less, b, c) ensures LexLess(less, a, c) {
      LexTransitive(less, a, b, c);
    }
  }

  lemma {:induction false} LexExtend<T(!new)>(less: (T, T) -> bool, a: seq<T>, b: seq<T>, x: T, y: T)
    requires StrictOrder(less) && |a| == |b|
    requires LexLess(less, a, b) || (a == b && less(x, y))
    ensures LexLess(less, a + [x], b + [y])
  {
    if a == [] {
      assert LexLess(less, [x], [y]);
    } else {
      assert (a + [x])[1..] == a[1..] + [x] && (b + [y])[1..] == b[1..] + [y];
      if a[0] == b[0] {
        LexExtend(less, a[1..], b[1..], x, y);
      }
    }
  }

  /** An earlier sequence stays earlier when both are extended by one element, whatever it is. */
  lemma ShortExtend<T(!new)>(less: (T, T) -> bool, a: seq<T>, b: seq<T>, x: T, y: T)
    requires StrictOrder(less)
    requires ShortLess(less, a, b) || (a == b && less(x, y))
    ensures ShortLess(less, a + [x], b + [y])
  {
    if |a| == |b| { LexExtend(less, a, b, x, y); }
  }

  lemma ShortTransitive<T(!new)>(less: (T, T) -> bool, a: seq<T>, b: seq<T>, c: seq<T>)
    requires StrictOrder(less)
    requires ShortLess(less, a, b) && ShortLess(less, b, c)
    ensures ShortLess(less, a, c)
  {
    if |a| == |b| == |c| { LexTransitive(less, a, b, c); }
  }

  lemma ShortAntisymmetric<T(!new)>(less: (T, T) -> bool, a: seq<T>, b: seq<T>)
    requires StrictOrder(less)
    ensures !(ShortLess(less, a, b) && ShortLess(less, b, a))
  {
    if ShortLess(less, a, b) && ShortLess(less, b, a) {
      LexTransitive(less, a, b, a);
      LexIrreflexive(less, a);
    }
  }

  /** `a` comes first by position `k`: they agree before it, and there `a` ends or has the lesser element. */
  ghost predicate FirstAt<T(!new)>(less: (T, T) -> bool, a: seq<T>, b: seq<T>, k: nat) {
    && k <= |a| && k < |b| && a[..k] == b[..k]
    && (k == |a| || (less(a[k], b[k]) && a[k] != b[k]))
  }

  lemma AgreeBefore<T(!new)>(less: (T, T) -> bool, a: seq<T>, b: seq<T>, k: nat)
    requires FirstAt(less, a, b, k) && k > 0
    ensures a != [] && b != [] && a[0] == b[0]
  {
    assert a[..k][0] == b[..k][0];
  }

  /** Dictionary order is decided at the first place where the two differ. */
  lemma {:induction false} LexExactly<T(!new)>(less: (T, T) -> bool, a: seq<T>, b: seq<T>)
    requires forall x :: !less(x, x)
    ensures LexLess(less, a, b) <==> exists k: nat :: FirstAt(less, a, b, k)
  {
    if a == [] || b == [] || a[0] != b[0] {
      assert b != [] && (a == [] || less(a[0], b[0])) ==> FirstAt(less, a, b, 0);
      if k: nat :| FirstAt(less, a, b, k) {
        if k > 0 { AgreeBefore(less, a, b, k); }
      }
    } else {
      LexExactly(less, a[1..], b[1..]);
      if k: nat :| FirstAt(less, a[1..], b[1..], k) {
        assert a[..k + 1] == [a[0]] + a[1..][..k] && b[..k + 1] == [b[0]] + b[1..][..k];
        assert FirstAt(less, a, b, k + 1);
      }
      if k: nat :| FirstAt(less, a, b, k) {
        assert k > 0;
        assert a[1..][..k - 1] == a[..k][1..] && b[1..][..k - 1] == b[..k][1..];
        assert FirstAt(less, a[1..], b[1..], k - 1);
      }
    }
  }

  // --- strings ---

  predicate CharLess(a: char, b: char) {
    a < b
  }

  /** Comparison of strings, character by character. */
  predicate StringLess(a: string, b: string) {
    LexLess(CharLess, a, b)
  }

  predicate StringLeq(a: string, b: string) {
    a == b || StringLess(a, b)
  }

  /** ... by the code of the first character that differs, a prefix coming first. */
  ghost predicate StringFirstAt(a: string, b: string, k: nat) {
    k <= |a| && k < |b| && a[..k] == b[..k] && (k == |a| || a[k] < b[k])
  }

  lemma StringExactly(a: string, b: string)
    ensures StringLess(a, b) <==> exists k: nat :: StringFirstAt(a, b, k)
  {
    LexExactly(CharLess, a, b);
    assert forall k: nat :: FirstAt(CharLess, a, b, k) <==> StringFirstAt(a, b, k);
  }

  lemma StringOrder()
    ensures StrictOrder(StringLess)
  {
    assert StrictOrder(CharLess);
    LexStrictOrder(CharLess);
    assert forall a, b :: StringLess(a, b) == LexLess(CharLess, a, b);
    var lex := (a, b) => LexLess(CharLess, a, b);
    assert forall a, b :: lex(a, b) == StringLess(a, b);
  }
}
