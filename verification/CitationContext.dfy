/** The source shown to the model (packages/ai/workflows/verification.py): windows around the cited quotes,
    sorted and merged. */
module CitationContext {
  import opened Sorting
  import Citations

  type Window = w: (nat, nat) | w.0 <= w.1 witness (0, 0)

  const SAMPLE := 500

  /** Tuples compare by start, then by end. */
  predicate WindowLeq(a: Window, b: Window) {
    a.0 < b.0 || (a.0 == b.0 && a.1 <= b.1)
  }

  function Max(a: nat, b: nat): nat {
    if a < b then b else a
  }

  /** The last merged window takes in a window that starts no later than it ends. */
  function Add(merged: seq<Window>, w: Window): seq<Window> {
    var k := |merged| - 1;
    if merged != [] && w.0 <= merged[k].1 then merged[..k] + [(merged[k].0, Max(merged[k].1, w.1))] else merged + [w]
  }

  function Merge(ws: seq<Window>): seq<Window> {
    if ws == [] then [] else Add(Merge(ws[..|ws| - 1]), ws[|ws| - 1])
  }

  predicate Contains(outer: Window, inner: Window) {
    outer.0 <= inner.0 && inner.1 <= outer.1
  }

  /** Merged windows increase with a gap between each two. */
  ghost predicate Separated(ws: seq<Window>) {
    forall i, j :: 0 <= i < j < |ws| ==> ws[i].1 < ws[j].0
  }

  /** A window shows the characters from its start up to but not at its end. */
  predicate Inside(w: Window, x: nat) {
    w.0 <= x < w.1
  }

  ghost predicate Covered(ws: seq<Window>, x: nat) {
    exists i :: 0 <= i < |ws| && Inside(ws[i], x)
  }

  /** Some window of `ws` holds the whole of `w`. */
  ghost predicate Held(ws: seq<Window>, w: Window) {
    exists i :: 0 <= i < |ws| && Contains(ws[i], w)
  }

  /** What adding a window that starts no earlier than the last one does. */
  lemma AddStep(merged: seq<Window>, w: Window)
    requires Separated(merged) && (merged != [] ==> merged[|merged| - 1].0 <= w.0)
    ensures var more := Add(merged, w);
            && Separated(more) && more != [] && more[|more| - 1].0 <= w.0
            && Contains(more[|more| - 1], w)
            && |merged| <= |more|
            && forall i :: 0 <= i < |merged| ==> Contains(more[i], merged[i])
  {
  }

  lemma AddCovers(merged: seq<Window>, w: Window, x: nat)
    requires merged != [] ==> merged[|merged| - 1].0 <= w.0
    ensures Covered(Add(merged, w), x) <==> Covered(merged, x) || Inside(w, x)
  {
    var k, more := |merged| - 1, Add(merged, w);
    if merged != [] && w.0 <= merged[k].1 {
      assert forall i :: 0 <= i < k ==> more[i] == merged[i];
      assert Inside(more[k], x) <==> Inside(merged[k], x) || Inside(w, x);
    } else {
      assert forall i :: 0 <= i < |merged| ==> more[i] == merged[i];
      assert more[|merged|] == w;
    }
  }

  lemma AddHolds(merged: seq<Window>, w: Window)
    requires Separated(merged) && (merged != [] ==> merged[|merged| - 1].0 <= w.0)
    ensures Held(Add(merged, w), w)
    ensures forall v :: Held(merged, v) ==> Held(Add(merged, w), v)
  {
    AddStep(merged, w);
    hide Add, Separated;
    forall v | Held(merged, v) ensures Held(Add(merged, w), v) {
      var i :| 0 <= i < |merged| && Contains(merged[i], v);
      assert Contains(Add(merged, w)[i], v);
    }
  }

  lemma CoveredSnoc(t: seq<Window>, w: Window, x: nat)
    ensures Covered(t + [w], x) <==> Covered(t, x) || Inside(w, x)
  {
    var ws := t + [w];
    assert forall i :: 0 <= i < |t| ==> t[i] == ws[i];
    assert ws[|t|] == w;
  }

  lemma NoneSeparated()
    ensures Separated([])
  {
  }

  lemma SortedFront(ws: seq<Window>)
    requires Sorted(WindowLeq, ws) && ws != []
    ensures Sorted(WindowLeq, ws[..|ws| - 1])
    ensures |ws| > 1 ==> ws[|ws| - 2].0 <= ws[|ws| - 1].0
  {
    if |ws| > 1 { assert WindowLeq(ws[|ws| - 2], ws[|ws| - 1]); }
  }

  /** Merging sorted windows leaves windows with gaps between them. */
  lemma {:induction false} MergeSeparated(ws: seq<Window>)
    requires Sorted(WindowLeq, ws)
    ensures Separated(Merge(ws))
    ensures ws == [] <==> Merge(ws) == []
    ensures ws != [] ==> Merge(ws)[|Merge(ws)| - 1].0 <= ws[|ws| - 1].0
  {
    hide Sorted, Separated, WindowLeq, Add;
    if ws == [] {
      assert Separated(Merge(ws)) by { NoneSeparated(); }
    } else {
      SortedFront(ws);
      var t := ws[..|ws| - 1];
      MergeSeparated(t);
      AddStep(Merge(t), ws[|t|]);
    }
  }

  /** Merging neither loses nor adds a place. */
  lemma {:induction false} MergeCovers(ws: seq<Window>, x: nat)
    requires Sorted(WindowLeq, ws)
    ensures Covered(Merge(ws), x) <==> Covered(ws, x)
  {
    if ws == [] {
    } else {
      SortedFront(ws);
      var t, w := ws[..|ws| - 1], ws[|ws| - 1];
      hide Sorted, Separated, WindowLeq, Add, Covered, Inside;
      MergeCovers(t, x);
      MergeSeparated(t);
      AddCovers(Merge(t), w, x);
      assert ws == t + [w];
      CoveredSnoc(t, w, x);
    }
  }

  /** Every window lies whole in one merged window. */
  lemma {:induction false} MergeHolds(ws: seq<Window>, k: nat)
    requires Sorted(WindowLeq, ws) && k < |ws|
    ensures Held(Merge(ws), ws[k])
  {
    hide Sorted, Separated, WindowLeq, Add, Held;
    SortedFront(ws);
    var t, w := ws[..|ws| - 1], ws[|ws| - 1];
    MergeSeparated(t);
    AddHolds(Merge(t), w);
    if k < |t| {
      MergeHolds(t, k);
    }
  }

  // --- the context ---

  /** A span found always lies in the source. */
  lemma SpanInSource(u: Citations.Unicode, quote: string, source: string)
    requires Citations.FindCitationSpanFast(u, quote, source).Some?
    ensures var (lo, hi) := Citations.FindCitationSpanFast(u, quote, source).value; lo <= hi <= |source|
  {
    Citations.ScanShaped(u, quote, |quote|);
    Citations.ScanShaped(u, source, |source|);
    hide Citations.Scan;
  }

  /** A found span, widened by the radius within the source. */
  function Widen(span: Citations.Span, radius: nat, length: nat): Window
    requires span.0 <= span.1 <= length
  {
    (if span.0 < radius then 0 else span.0 - radius, if length < span.1 + radius then length else span.1 + radius)
  }

  function Windows(u: Citations.Unicode, quotes: seq<string>, source: string, radius: nat): (ws: seq<Window>)
    ensures forall i :: 0 <= i < |ws| ==> ws[i].1 <= |source|
  {
    if quotes == [] then []
    else
      var rest, quote := Windows(u, quotes[..|quotes| - 1], source, radius), quotes[|quotes| - 1];
      var span := Citations.FindCitationSpanFast(u, quote, source);
      if span.None? then rest
      else
        SpanInSource(u, quote, source);
        rest + [Widen(span.value, radius, |source|)]
  }

  function Joined(source: string, ws: seq<Window>): string
    requires forall i :: 0 <= i < |ws| ==> ws[i].1 <= |source|
  {
    if ws == [] then ""
    else if |ws| == 1 then source[ws[0].0..ws[0].1]
    else Joined(source, ws[..|ws| - 1]) + "\n\U{2026}\n" + source[ws[|ws| - 1].0..ws[|ws| - 1].1]
  }

  /** Pieces are joined with an ellipsis on a line of its own between each two. */
  lemma JoinedExactly(source: string, ws: seq<Window>, w: Window)
    requires w.1 <= |source| && forall i :: 0 <= i < |ws| ==> ws[i].1 <= |source|
    ensures Joined(source, [w]) == source[w.0..w.1]
    ensures ws != [] ==>
              Joined(source, ws + [w]) == Joined(source, ws) + "\n" + ['\U{2026}'] + "\n" + source[w.0..w.1]
  {
    assert (ws + [w])[..|ws|] == ws;
    assert "\n\U{2026}\n" == "\n" + ['\U{2026}'] + "\n";
  }

  lemma MergeSnoc(ws: seq<Window>, i: nat)
    requires i < |ws|
    ensures Merge(ws[..i + 1]) == Add(Merge(ws[..i]), ws[i])
  {
    assert ws[..i + 1][..i] == ws[..i];
  }

  method MergeWindows(ws: seq<Window>) returns (merged: seq<Window>)
    ensures merged == Merge(ws)
  {
    merged := [];
    assert Merge(ws[..0]) == [];
    hide Merge, Max;
    for i := 0 to |ws|
      invariant merged == Merge(ws[..i])
    {
      MergeSnoc(ws, i);
      var k := |merged| - 1;
      if merged != [] && ws[i].0 <= merged[k].1 {
        merged := merged[..k] + [(merged[k].0, Max(merged[k].1, ws[i].1))];
      } else {
        merged := merged + [ws[i]];
      }
    }
    assert ws[..|ws|] == ws;
  }

  /** The windows a context is made of. */
  function ContextWindows(u: Citations.Unicode, quotes: seq<string>, source: string, radius: nat): (ws: seq<Window>)
    ensures forall i :: 0 <= i < |ws| ==> ws[i].1 <= |source|
  {
    var ws := SortBy(WindowLeq, Windows(u, quotes, source, radius));
    assert forall i :: 0 <= i < |ws| ==> ws[i] in ws;
    MergeInside(ws, |source|);
    Merge(ws)
  }

  lemma {:induction false} MergeInside(ws: seq<Window>, n: nat)
    requires forall i :: 0 <= i < |ws| ==> ws[i].1 <= n
    ensures forall i :: 0 <= i < |Merge(ws)| ==> Merge(ws)[i].1 <= n
  {
    if ws == [] {
    } else {
      MergeInside(ws[..|ws| - 1], n);
    }
  }

  method Context(u: Citations.Unicode, quotes: seq<string>, source: string, radius: nat) returns (text: string)
    ensures text == if Windows(u, quotes, source, radius) == []
                    then source[..if |source| < 500 then |source| else 500]
                    else Joined(source, ContextWindows(u, quotes, source, radius))
  {
    hide Citations.FindCitationSpanFast, Merge, Joined, Widen;
    var windows: seq<Window> := [];
    for i := 0 to |quotes|
      invariant windows == Windows(u, quotes[..i], source, radius)
    {
      assert quotes[..i + 1][..i] == quotes[..i];
      var span := Citations.FindCitationSpanFast(u, quotes[i], source);
      if span.Some? {
        SpanInSource(u, quotes[i], source);
        windows := windows + [Widen(span.value, radius, |source|)];
      }
    }
    assert quotes[..|quotes|] == quotes;
    if windows == [] {
      return source[..if |source| < SAMPLE then |source| else SAMPLE];
    }
    var merged := MergeWindows(SortBy(WindowLeq, windows));
    assert merged == ContextWindows(u, quotes, source, radius);
    text := Joined(source, merged);
  }

  lemma {:induction false} QuoteWindow(u: Citations.Unicode, quotes: seq<string>, source: string, radius: nat, i: nat)
    requires i < |quotes| && Citations.FindCitationSpanFast(u, quotes[i], source).Some?
    ensures var span := Citations.FindCitationSpanFast(u, quotes[i], source).value;
            span.0 <= span.1 <= |source| && Widen(span, radius, |source|) in Windows(u, quotes, source, radius)
  {
    hide Citations.FindCitationSpanFast;
    SpanInSource(u, quotes[i], source);
    if i < |quotes| - 1 {
      QuoteWindow(u, quotes[..|quotes| - 1], source, radius, i);
    }
  }

  /** Every piece stands in the joined text. */
  lemma {:induction false} JoinedShows(source: string, ws: seq<Window>, i: nat) returns (e: nat)
    requires i < |ws| && forall k :: 0 <= k < |ws| ==> ws[k].1 <= |source|
    ensures Citations.OccursAt(Joined(source, ws), source[ws[i].0..ws[i].1], e)
  {
    var n := |ws| - 1;
    if n == 0 {
      e := 0;
    } else if i < n {
      e := JoinedShows(source, ws[..n], i);
      OccursBefore(Joined(source, ws[..n]), "\n\U{2026}\n" + source[ws[n].0..ws[n].1], source[ws[i].0..ws[i].1], e);
      assert Joined(source, ws)
          == Joined(source, ws[..n]) + ("\n\U{2026}\n" + source[ws[n].0..ws[n].1]);
    } else {
      e := |Joined(source, ws[..n]) + "\n\U{2026}\n"|;
    }
  }

  lemma OccursBefore(text: string, more: string, pattern: string, e: nat)
    requires Citations.OccursAt(text, pattern, e)
    ensures Citations.OccursAt(text + more, pattern, e)
  {
    assert (text + more)[e..e + |pattern|] == text[e..e + |pattern|];
  }

  lemma SliceOfSlice(s: string, a: nat, b: nat, d: nat, n: nat)
    requires a <= b <= |s| && d + n <= b - a
    ensures s[a..b][d..d + n] == s[a + d..a + d + n]
  {
    var inner, outer := s[a..b][d..d + n], s[a + d..a + d + n];
    forall k | 0 <= k < n ensures inner[k] == outer[k] {
      assert s[a..b][d + k] == s[a + d + k];
    }
    assert inner == outer;
  }

  /** What lies within a stretch of the source is shown where the stretch is. */
  lemma OccursWithin(text: string, source: string, w: Window, lo: nat, hi: nat, e: nat)
    requires w.0 <= lo <= hi <= w.1 <= |source| && Citations.OccursAt(text, source[w.0..w.1], e)
    ensures Citations.OccursAt(text, source[lo..hi], e + lo - w.0)
  {
    var s, d, n := source[w.0..w.1], lo - w.0, hi - lo;
    SliceOfSlice(source, w.0, w.1, d, n);
    SliceOfSlice(text, e, e + |s|, d, n);
    assert w.0 + d + n == hi;
  }

  /** A span held by the pieces is a part of the joined text. */
  lemma HeldShown(source: string, ws: seq<Window>, lo: nat, hi: nat) returns (e: nat)
    requires lo <= hi && Held(ws, (lo, hi)) && forall k :: 0 <= k < |ws| ==> ws[k].1 <= |source|
    ensures hi <= |source| && Citations.OccursAt(Joined(source, ws), source[lo..hi], e)
  {
    var i :| 0 <= i < |ws| && Contains(ws[i], (lo, hi));
    var at := JoinedShows(source, ws, i);
    hide Joined;
    OccursWithin(Joined(source, ws), source, ws[i], lo, hi, at);
    e := at + lo - ws[i].0;
  }

  /** Position `x` of the source is at most the radius away from a quote that is found. */
  ghost predicate Near(u: Citations.Unicode, quotes: seq<string>, source: string, radius: nat, x: nat) {
    x < |source| && exists i :: 0 <= i < |quotes| && NearSpan(u, quotes[i], source, radius, x)
  }

  ghost predicate NearSpan(u: Citations.Unicode, quote: string, source: string, radius: nat, x: nat) {
    var span := Citations.FindCitationSpanFast(u, quote, source);
    span.Some? && span.value.0 <= x + radius && x < span.value.1 + radius
  }

  lemma WidenExactly(span: Citations.Span, radius: nat, length: nat, x: nat)
    requires span.0 <= span.1 <= length
    ensures Inside(Widen(span, radius, length), x) <==>
            x < length && span.0 <= x + radius && x < span.1 + radius
  {
  }

  lemma {:induction false} WindowsNear(u: Citations.Unicode, quotes: seq<string>, source: string, radius: nat, x: nat)
    ensures Covered(Windows(u, quotes, source, radius), x) <==> Near(u, quotes, source, radius, x)
  {
    hide Citations.FindCitationSpanFast, Widen, Inside;
    if quotes == [] {
    } else {
      var t, quote := quotes[..|quotes| - 1], quotes[|quotes| - 1];
      WindowsNear(u, t, source, radius, x);
      var span := Citations.FindCitationSpanFast(u, quote, source);
      if span.Some? {
        SpanInSource(u, quote, source);
        WidenExactly(span.value, radius, |source|, x);
        CoveredSnoc(Windows(u, t, source, radius), Widen(span.value, radius, |source|), x);
      }
      hide Covered;
      NearSnoc(u, t, quote, source, radius, x);
      assert quotes == t + [quote];
    }
  }

  lemma NearSnoc(u: Citations.Unicode, t: seq<string>, quote: string, source: string, radius: nat, x: nat)
    ensures Near(u, t + [quote], source, radius, x) <==>
            Near(u, t, source, radius, x) || (x < |source| && NearSpan(u, quote, source, radius, x))
  {
    hide NearSpan;
    var quotes := t + [quote];
    assert quotes[|t|] == quote;
    if i :| 0 <= i < |t| && NearSpan(u, t[i], source, radius, x) {
      assert quotes[i] == t[i];
    }
  }

  /** Every quote that is found is shown whole, in one piece of the context, and stands in its text; the pieces
      are in order with a gap between each two, and show exactly the characters within the radius of a
      found quote. */
  lemma QuotesShown(u: Citations.Unicode, quotes: seq<string>, source: string, radius: nat, i: nat)
    requires i < |quotes| && Citations.FindCitationSpanFast(u, quotes[i], source).Some?
    ensures var ws := ContextWindows(u, quotes, source, radius);
            && Separated(ws)
            && Citations.FindCitationSpanFast(u, quotes[i], source).value.0
               <= Citations.FindCitationSpanFast(u, quotes[i], source).value.1
            && Held(ws, Citations.FindCitationSpanFast(u, quotes[i], source).value)
            && QuoteIn(Joined(source, ws), source, Citations.FindCitationSpanFast(u, quotes[i], source).value)
            && Windows(u, quotes, source, radius) != []
            && forall x :: Covered(ws, x) <==> Near(u, quotes, source, radius, x)
  {
    hide Citations.FindCitationSpanFast;
    var found, span := Windows(u, quotes, source, radius), Citations.FindCitationSpanFast(u, quotes[i], source).value;
    QuoteWindow(u, quotes, source, radius, i);
    var w := Widen(span, radius, |source|);
    WindowOrder();
    var ws := SortBy(WindowLeq, found);
    SortBySorted(WindowLeq, found);
    MergeSeparated(ws);
    hide Windows, Merge, Sorted, SortBy, WindowLeq;
    assert w in ws;
    var k :| 0 <= k < |ws| && ws[k] == w;
    MergeHolds(ws, k);
    HeldInner(Merge(ws), w, span);
    var e := HeldShown(source, ContextWindows(u, quotes, source, radius), span.0, span.1);
    forall x ensures Covered(Merge(ws), x) <==> Near(u, quotes, source, radius, x) {
      MergeCovers(ws, x);
      CoveredSame(ws, found, x);
      WindowsNear(u, quotes, source, radius, x);
    }
  }

  /** The text holds the stretch of the source behind the span, character for character. */
  ghost predicate QuoteIn(text: string, source: string, span: Citations.Span) {
    span.0 <= span.1 <= |source| && exists e: nat :: Citations.OccursAt(text, source[span.0..span.1], e)
  }

  lemma WindowOrder()
    ensures TotalPreorder(WindowLeq)
  {
  }

  lemma HeldInner(ws: seq<Window>, w: Window, v: Window)
    requires Held(ws, w) && Contains(w, v)
    ensures Held(ws, v)
  {
    var i :| 0 <= i < |ws| && Contains(ws[i], w);
    assert Contains(ws[i], v);
  }

  lemma CoveredSame(a: seq<Window>, b: seq<Window>, x: nat)
    requires forall w :: w in a <==> w in b
    ensures Covered(a, x) <==> Covered(b, x)
  {
    hide Inside;
    if i :| 0 <= i < |a| && Inside(a[i], x) {
      assert a[i] in b;
    }
    if i :| 0 <= i < |b| && Inside(b[i], x) {
      assert b[i] in a;
    }
  }
}
