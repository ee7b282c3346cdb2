/** Verification batches (packages/ai/workflows/verification.py): greedy splitting under a row and a
    payload limit uses the fewest batches. */
module Batching {

  const MAX_CANDIDATES := 20
  const MAX_PAYLOAD_CHARS := 14000

  /** The serialised size of a candidate. */
  type Measure<!T> = T -> nat

  function Chars<T>(size: Measure<T>, cs: seq<T>): nat {
    if cs == [] then 0 else Chars(size, cs[..|cs| - 1]) + size(cs[|cs| - 1])
  }

  /** A batch that may be sent: not empty, and within both limits unless it is a single candidate. */
  predicate Legal<T>(size: Measure<T>, batch: seq<T>) {
    && 0 < |batch| <= MAX_CANDIDATES
    && (|batch| == 1 || Chars(size, batch) <= MAX_PAYLOAD_CHARS)
  }

  /** Grows a first batch of `k` candidates as far as the limits allow. */
  function Extend<T>(size: Measure<T>, cs: seq<T>, k: nat): (r: nat)
    requires k <= |cs|
    ensures k <= r <= |cs|
    decreases |cs| - k
  {
    if k < |cs| && k < MAX_CANDIDATES && Chars(size, cs[..k]) + size(cs[k]) <= MAX_PAYLOAD_CHARS
    then Extend(size, cs, k + 1)
    else k
  }

  function First<T>(size: Measure<T>, cs: seq<T>): (r: nat)
    requires cs != []
    ensures 0 < r <= |cs|
  {
    Extend(size, cs, 1)
  }

  function Split<T>(size: Measure<T>, cs: seq<T>): seq<seq<T>> {
    if cs == [] then [] else [cs[..First(size, cs)]] + Split(size, cs[First(size, cs)..])
  }

  /** A batch that cannot grow is sent as it stands. */
  lemma SendFull<T>(size: Measure<T>, current: seq<T>, rest: seq<T>)
    requires current != [] && First(size, current + rest) == |current|
    ensures Split(size, current + rest) == [current] + Split(size, rest)
  {
    assert (current + rest)[..|current|] == current && (current + rest)[|current|..] == rest;
  }

  /** Whether a batch under construction takes the next candidate. */
  lemma TakeNext<T>(size: Measure<T>, current: seq<T>, c: T, rest: seq<T>)
    requires current != []
    ensures var whole := current + [c] + rest;
            Extend(size, whole, |current|)
            == if |current| >= MAX_CANDIDATES || Chars(size, current) + size(c) > MAX_PAYLOAD_CHARS then |current|
               else Extend(size, whole, |current| + 1)
  {
    assert (current + [c] + rest)[..|current|] == current;
  }

  lemma CharsSnoc<T>(size: Measure<T>, cs: seq<T>, c: T)
    ensures Chars(size, cs + [c]) == Chars(size, cs) + size(c)
  {
    assert (cs + [c])[..|cs|] == cs;
  }

  method SplitVerificationBatches<T>(candidates: seq<T>, size: Measure<T>) returns (batches: seq<seq<T>>)
    ensures batches == Split(size, candidates)
  {
    hide Extend, Chars, Split;
    batches := [];
    var current: seq<T> := [];
    var currentChars := 0;
    assert Chars<T>(size, []) == 0 by { NoChars<T>(size); }
    assert [] + candidates[0..] == candidates;
    for i := 0 to |candidates|
      invariant currentChars == Chars(size, current)
      invariant batches + Split(size, current + candidates[i..]) == Split(size, candidates)
      invariant current != [] ==>
                  First(size, current + candidates[i..]) == Extend(size, current + candidates[i..], |current|)
      invariant i > 0 ==> current != []
    {
      var candidate := candidates[i];
      var chars := size(candidate);
      ghost var rest := candidates[i + 1..];
      assert candidates[i..] == [candidate] + rest;
      assert current + candidates[i..] == current + [candidate] + rest;
      if current != [] {
        TakeNext(size, current, candidate, rest);
      }
      if current != [] && (|current| >= MAX_CANDIDATES || currentChars + chars > MAX_PAYLOAD_CHARS) {
        SendFull(size, current, candidates[i..]);
        batches := batches + [current];
        current, currentChars := [], 0;
        NoChars<T>(size);
        assert [] + [candidate] + rest == candidates[i..];
      }
      CharsSnoc(size, current, candidate);
      current, currentChars := current + [candidate], currentChars + chars;
    }
    assert current + candidates[|candidates|..] == current;
    if current != [] {
      assert First(size, current + []) == |current| by { assert current + [] == current; }
      SendFull(size, current, []);
      batches := batches + [current];
    }
    NothingLeft<T>(size);
  }

  lemma NoChars<T>(size: Measure<T>)
    ensures Chars<T>(size, []) == 0
  {
  }

  lemma NothingLeft<T>(size: Measure<T>)
    ensures Split<T>(size, []) == []
  {
  }

  // --- what the split guarantees ---

  ghost function Flatten<T>(batches: seq<seq<T>>): seq<T> {
    if batches == [] then [] else batches[0] + Flatten(batches[1..])
  }

  lemma {:induction false} CharsPrefix<T>(size: Measure<T>, cs: seq<T>, k: nat)
    requires k <= |cs|
    ensures Chars(size, cs[..k]) <= Chars(size, cs)
  {
    if k < |cs| {
      CharsPrefix(size, cs[..|cs| - 1], k);
      assert cs[..|cs| - 1][..k] == cs[..k];
    } else {
      assert cs[..k] == cs;
    }
  }

  lemma {:induction false} CharsSuffix<T>(size: Measure<T>, cs: seq<T>, k: nat)
    requires k <= |cs|
    ensures Chars(size, cs[k..]) <= Chars(size, cs)
  {
    if k < |cs| {
      CharsSuffix(size, cs[..|cs| - 1], k);
      assert cs[k..][..|cs| - k - 1] == cs[..|cs| - 1][k..];
    }
  }

  lemma {:induction false} ExtendLegal<T>(size: Measure<T>, cs: seq<T>, k: nat)
    requires k <= |cs| && Legal(size, cs[..k])
    ensures Legal(size, cs[..Extend(size, cs, k)])
    decreases |cs| - k
  {
    if k < |cs| && k < MAX_CANDIDATES && Chars(size, cs[..k]) + size(cs[k]) <= MAX_PAYLOAD_CHARS {
      assert cs[..k + 1][..k] == cs[..k];
      ExtendLegal(size, cs, k + 1);
    }
  }

  lemma {:induction false} ExtendLongest<T>(size: Measure<T>, cs: seq<T>, k: nat, n: nat)
    requires k <= n <= |cs| && Legal(size, cs[..n])
    requires 0 < k
    ensures n <= Extend(size, cs, k)
    decreases |cs| - k
  {
    if k < n {
      assert cs[..n][..k + 1] == cs[..k + 1] && cs[..k + 1][..k] == cs[..k];
      CharsPrefix(size, cs[..n], k + 1);
      ExtendLongest(size, cs, k + 1, n);
    }
  }

  lemma FirstLegal<T>(size: Measure<T>, cs: seq<T>)
    requires cs != []
    ensures Legal(size, cs[..First(size, cs)])
  {
    ExtendLegal(size, cs, 1);
  }

  lemma FirstLongest<T>(size: Measure<T>, cs: seq<T>, n: nat)
    requires n <= |cs| && Legal(size, cs[..n])
    ensures n <= First(size, cs)
  {
    ExtendLongest(size, cs, 1, n);
  }

  lemma FlattenCons<T>(batch: seq<T>, rest: seq<seq<T>>)
    ensures Flatten([batch] + rest) == batch + Flatten(rest)
  {
    assert ([batch] + rest)[1..] == rest;
  }

  /** Together the batches are the input, in order. */
  lemma {:induction false} SplitWhole<T>(size: Measure<T>, cs: seq<T>)
    ensures Flatten(Split(size, cs)) == cs
    decreases |cs|
  {
    hide First, Flatten;
    if cs == [] {
      assert Flatten<T>([]) == [] by { NothingFlat<T>(); }
    } else {
      var f := First(size, cs);
      SplitWhole(size, cs[f..]);
      FlattenCons(cs[..f], Split(size, cs[f..]));
      assert cs == cs[..f] + cs[f..];
    }
  }

  lemma NothingFlat<T>()
    ensures Flatten<T>([]) == []
  {
  }

  /** Every batch may be sent. */
  lemma {:induction false} SplitLegal<T>(size: Measure<T>, cs: seq<T>, k: nat)
    requires k < |Split(size, cs)|
    ensures Legal(size, Split(size, cs)[k])
    ensures var batch := Split(size, cs)[k];
            0 < |batch| <= 20 && (|batch| == 1 || Chars(size, batch) <= 14000)
    decreases |cs|
  {
    assert forall batch :: Legal(size, batch) ==> 0 < |batch| <= 20 && (|batch| == 1 || Chars(size, batch) <= 14000);
    hide First, Legal;
    FirstLegal(size, cs);
    if k == 0 {
    } else {
      SplitLegal(size, cs[First(size, cs)..], k - 1);
    }
  }

  /** Dropping candidates from the front never needs more batches. */
  lemma {:induction false} SuffixFewer<T>(size: Measure<T>, cs: seq<T>, k: nat)
    requires k <= |cs|
    ensures |Split(size, cs[k..])| <= |Split(size, cs)|
    decreases |cs|
  {
    hide First, Legal;
    if k == 0 {
      assert cs[k..] == cs;
    } else if k < |cs| {
      var f := First(size, cs);
      assert |Split(size, cs)| == 1 + |Split(size, cs[f..])|;
      if k < f {
        var f' := First(size, cs[k..]);
        assert f - k <= f' by {
          FirstLegal(size, cs);
          SliceLegal(size, cs, k, f);
          FirstLongest(size, cs[k..], f - k);
        }
        assert |Split(size, cs[k..])| == 1 + |Split(size, cs[k..][f'..])|;
        assert cs[f..][k + f' - f..] == cs[k..][f'..];
        SuffixFewer(size, cs[f..], k + f' - f);
      } else {
        assert cs[f..][k - f..] == cs[k..];
        SuffixFewer(size, cs[f..], k - f);
      }
    }
  }

  lemma SliceLegal<T>(size: Measure<T>, cs: seq<T>, k: nat, f: nat)
    requires k < f <= |cs| && Legal(size, cs[..f])
    ensures Legal(size, cs[k..][..f - k])
  {
    CharsSuffix(size, cs[..f], k);
    assert cs[..f][k..] == cs[k..][..f - k];
  }

  /** No order-preserving split into sendable batches uses fewer of them. */
  lemma {:induction false} SplitFewest<T>(size: Measure<T>, cs: seq<T>, other: seq<seq<T>>)
    requires Flatten(other) == cs && forall k :: 0 <= k < |other| ==> Legal(size, other[k])
    ensures |Split(size, cs)| <= |other|
    decreases |other|
  {
    hide First, Legal, Flatten, Split;
    OtherStarts(size, cs, other);
    if other == [] {
    } else {
      var n := |other[0]|;
      FirstLongest(size, cs, n);
      SplitFewest(size, cs[n..], other[1..]);
      SplitOnce(size, cs, n);
    }
  }

  lemma OtherStarts<T>(size: Measure<T>, cs: seq<T>, other: seq<seq<T>>)
    requires Flatten(other) == cs && forall k :: 0 <= k < |other| ==> Legal(size, other[k])
    ensures other == [] ==> Split(size, cs) == []
    ensures other != [] ==> var n := |other[0]|; 0 < n <= |cs| && cs[..n] == other[0] && cs[n..] == Flatten(other[1..])
  {
  }

  /** A split goes on no worse after the first batch than after any shorter one. */
  lemma SplitOnce<T>(size: Measure<T>, cs: seq<T>, n: nat)
    requires cs != [] && n <= First(size, cs)
    ensures |Split(size, cs)| <= 1 + |Split(size, cs[n..])|
  {
    hide First;
    var f := First(size, cs);
    assert cs[n..][f - n..] == cs[f..];
    SuffixFewer(size, cs[n..], f - n);
  }
}
