/** Citation span verification (packages/policy_engine/citations.py): a quote is located in
    normalised text and reported in the offsets of the original. */
module Citations {
  import opened Options
  import opened Wording

  /** What the Unicode library supplies.  `expand` is a character after NFKC (Unicode Standard Annex
      #15), quote and dash folding and case folding; `sep` tells white space and punctuation;
      `blank` is white space. */
  datatype Unicode = Unicode(expand: char -> string, sep: char -> bool, blank: char -> bool)

  /** A space separates, and white space expands to separators only. */
  ghost predicate Proper(u: Unicode) {
    u.sep(' ') && forall c, k :: u.blank(c) && 0 <= k < |u.expand(c)| ==> u.sep(u.expand(c)[k])
  }

  /** Normalised text so far: its characters, where each came from, and a separator not yet written. */
  datatype Norm = Norm(chars: string, offsets: seq<nat>, pending: Option<nat>)

  function Put(u: Unicode, st: Norm, c: char, i: nat): Norm {
    if u.sep(c) then
      if st.chars == "" then st else st.(pending := Some(i))
    else
      match st.pending
      case None => Norm(st.chars + [c], st.offsets + [i], None)
      case Some(j) => Norm(st.chars + [' ', c], st.offsets + [j, i], None)
  }

  /** Feeds the first `k` characters of an expansion. */
  function Feed(u: Unicode, st: Norm, expanded: string, i: nat, k: nat): Norm
    requires k <= |expanded|
  {
    if k == 0 then st else Put(u, Feed(u, st, expanded, i, k - 1), expanded[k - 1], i)
  }

  /** The state after the first `k` characters of `value`. */
  function Scan(u: Unicode, value: string, k: nat): Norm
    requires k <= |value|
  {
    if k == 0 then Norm("", [], None)
    else
      var e := u.expand(value[k - 1]);
      Feed(u, Scan(u, value, k - 1), e, k - 1, |e|)
  }

  function Normalize(u: Unicode, value: string): Norm {
    Scan(u, value, |value|)
  }

  method NormalizeWithOffsets(u: Unicode, value: string) returns (chars: string, offsets: seq<nat>)
    ensures chars == Normalize(u, value).chars && offsets == Normalize(u, value).offsets
  {
    chars, offsets := "", [];
    var pending: Option<nat> := None;
    for i := 0 to |value|
      invariant Norm(chars, offsets, pending) == Scan(u, value, i)
    {
      var expanded := u.expand(value[i]);
      for k := 0 to |expanded|
        invariant Norm(chars, offsets, pending) == Feed(u, Scan(u, value, i), expanded, i, k)
      {
        var c := expanded[k];
        if u.sep(c) {
          if chars != "" {
            pending := Some(i);
          }
          continue;
        }
        if pending.Some? {
          chars, offsets := chars + [' '], offsets + [pending.value];
          pending := None;
        }
        chars, offsets := chars + [c], offsets + [i];
      }
    }
  }

  // --- the shape of normalised text ---

  /** Offsets never fall and stay below `bound`, and a waiting separator's is the largest. */
  ghost predicate Climbs(offsets: seq<nat>, pending: Option<nat>, bound: nat) {
    && (forall i, j :: 0 <= i < j < |offsets| ==> offsets[i] <= offsets[j])
    && (forall i :: 0 <= i < |offsets| ==> offsets[i] < bound)
    && (pending.Some? ==> pending.value < bound
                          && forall i :: 0 <= i < |offsets| ==> offsets[i] <= pending.value)
  }

  /** Separators are written as single spaces between other characters. */
  ghost predicate Parted(u: Unicode, chars: string) {
    && (chars != "" ==> !u.sep(chars[0]) && !u.sep(chars[|chars| - 1]))
    && (forall i :: 0 <= i < |chars| && u.sep(chars[i]) ==> chars[i] == ' ')
    && (forall i :: 0 <= i < |chars| - 1 && u.sep(chars[i]) ==> !u.sep(chars[i + 1]))
  }

  ghost predicate Shaped(u: Unicode, st: Norm, bound: nat) {
    && |st.chars| == |st.offsets|
    && (st.pending.Some? ==> st.chars != "")
    && Climbs(st.offsets, st.pending, bound)
    && Parted(u, st.chars)
  }

  lemma PutClimbs(u: Unicode, st: Norm, c: char, i: nat)
    requires Climbs(st.offsets, st.pending, i + 1)
    ensures Climbs(Put(u, st, c, i).offsets, Put(u, st, c, i).pending, i + 1)
  {
  }

  lemma PutParted(u: Unicode, st: Norm, c: char, i: nat)
    requires Parted(u, st.chars) && (st.pending.Some? ==> st.chars != "")
    ensures Parted(u, Put(u, st, c, i).chars)
  {
  }

  lemma PutShaped(u: Unicode, st: Norm, c: char, i: nat)
    requires Shaped(u, st, i + 1)
    ensures Shaped(u, Put(u, st, c, i), i + 1)
  {
    PutClimbs(u, st, c, i);
    PutParted(u, st, c, i);
    hide Climbs, Parted;
  }

  lemma {:induction false} FeedShaped(u: Unicode, st: Norm, expanded: string, i: nat, k: nat)
    requires k <= |expanded| && Shaped(u, st, i + 1)
    ensures Shaped(u, Feed(u, st, expanded, i, k), i + 1)
  {
    if k == 0 {
    } else {
      FeedShaped(u, st, expanded, i, k - 1);
      PutShaped(u, Feed(u, st, expanded, i, k - 1), expanded[k - 1], i);
    }
  }

  lemma {:induction false} ScanShaped(u: Unicode, value: string, k: nat)
    requires k <= |value|
    ensures Shaped(u, Scan(u, value, k), k)
  {
    if k == 0 {
    } else {
      ScanShaped(u, value, k - 1);
      assert Shaped(u, Scan(u, value, k - 1), k);
      hide Shaped, Feed;
      FeedShaped(u, Scan(u, value, k - 1), u.expand(value[k - 1]), k - 1, |u.expand(value[k - 1])|);
    }
  }

  /** `later` continues `earlier`, and every character it adds at `i` other than a written
      separator has offset `i`. */
  ghost predicate Grown(u: Unicode, earlier: Norm, later: Norm, i: nat) {
    && |earlier.chars| == |earlier.offsets| && |later.chars| == |later.offsets|
    && earlier.chars <= later.chars && earlier.offsets <= later.offsets
    && forall j :: |earlier.chars| <= j < |later.chars| && !u.sep(later.chars[j]) ==> later.offsets[j] == i
  }

  lemma {:induction false} FeedGrown(u: Unicode, st: Norm, expanded: string, i: nat, k: nat)
    requires u.sep(' ') && k <= |expanded| && |st.chars| == |st.offsets|
    ensures Grown(u, st, Feed(u, st, expanded, i, k), i)
  {
    if k == 0 {
    } else {
      FeedGrown(u, st, expanded, i, k - 1);
    }
  }

  /** A character other than a separator was written while its own source character was read. */
  lemma {:induction false} Emission(u: Unicode, value: string, k: nat, j: nat)
    requires u.sep(' ') && k <= |value| && j < |Scan(u, value, k).chars| && !u.sep(Scan(u, value, k).chars[j])
    ensures var st := Scan(u, value, k);
            && |st.chars| == |st.offsets| && st.offsets[j] < k
            && |Scan(u, value, st.offsets[j]).chars| <= j < |Scan(u, value, st.offsets[j] + 1).chars|
  {
    ScanShaped(u, value, k);
    ScanShaped(u, value, k - 1);
    var before := Scan(u, value, k - 1);
    FeedGrown(u, before, u.expand(value[k - 1]), k - 1, |u.expand(value[k - 1])|);
    if j < |before.chars| {
      Emission(u, value, k - 1, j);
    }
  }

  lemma {:induction false} ScanPrefix(u: Unicode, value: string, i: nat, k: nat)
    requires u.sep(' ') && i <= k <= |value|
    ensures Scan(u, value, i).chars <= Scan(u, value, k).chars
    ensures Scan(u, value, i).offsets <= Scan(u, value, k).offsets
  {
    if i < k {
      ScanPrefix(u, value, i, k - 1);
      ScanShaped(u, value, k - 1);
      FeedGrown(u, Scan(u, value, k - 1), u.expand(value[k - 1]), k - 1, |u.expand(value[k - 1])|);
    }
  }

  // --- what normalised text holds ---

  /** The words of the expanded text. */
  function Tokens(u: Unicode, value: string): seq<string> {
    SplitBy(u.sep, Expand(u.expand, value))
  }

  /** The text as citations are compared: single spaces between its words, whatever separated them. */
  function Form(u: Unicode, value: string): string {
    Spaced(Tokens(u, value))
  }

  /** The state tells the characters `e` read so far: the words written, and whether a separator waits. */
  ghost predicate Tells(u: Unicode, st: Norm, e: string) {
    var ws := SplitBy(u.sep, e);
    st.chars == Spaced(ws) && (st.pending.Some? <==> ws != [] && Fresh(u.sep, e))
  }

  lemma PutTells(u: Unicode, st: Norm, e: string, c: char, i: nat)
    requires Tells(u, st, e)
    ensures Tells(u, Put(u, st, c, i), e + [c])
  {
    var ws := SplitBy(u.sep, e);
    SplitWords(u.sep, e);
    SpacedNonEmpty(u.sep, ws);
    SplitSnoc(u.sep, e, c);
    if !u.sep(c) { NextSpaced(u.sep, ws, Fresh(u.sep, e), c); }
    hide SplitBy, Spaced, Grow;
  }

  lemma {:induction false} FeedTells(u: Unicode, st: Norm, e: string, x: string, i: nat, k: nat)
    requires k <= |x| && Tells(u, st, e)
    ensures Tells(u, Feed(u, st, x, i, k), e + x[..k])
  {
    hide Tells, Put;
    if k == 0 {
      assert e + x[..0] == e;
    } else {
      FeedTells(u, st, e, x, i, k - 1);
      PutTells(u, Feed(u, st, x, i, k - 1), e + x[..k - 1], x[k - 1], i);
      assert e + x[..k] == e + x[..k - 1] + [x[k - 1]];
    }
  }

  lemma {:induction false} ScanTells(u: Unicode, value: string, k: nat)
    requires k <= |value|
    ensures Tells(u, Scan(u, value, k), Expand(u.expand, value[..k]))
  {
    if k == 0 {
    } else {
      ScanTells(u, value, k - 1);
      var before, x := Expand(u.expand, value[..k - 1]), u.expand(value[k - 1]);
      hide Tells;
      FeedTells(u, Scan(u, value, k - 1), before, x, k - 1, |x|);
      assert value[..k][..k - 1] == value[..k - 1];
      assert x[..|x|] == x;
    }
  }

  /** Normalisation keeps every character of the expanded text that is not a separator, in order, and writes one
      space exactly where separators stand between two of them. */
  lemma NormalizeExactly(u: Unicode, value: string)
    ensures Normalize(u, value).chars == Form(u, value)
  {
    ScanTells(u, value, |value|);
    assert value[..|value|] == value;
  }

  // --- a slice of the source normalises to a slice of the normalised source ---

  function Shifted(p: Option<nat>, lo: nat): Option<nat> {
    match p
    case None => None
    case Some(j) => Some(j + lo)
  }

  /** `full` is `base`, then at most one written separator, then `part`. */
  ghost predicate Joined(full: Norm, base: Norm, part: Norm, lo: nat) {
    if part.chars == "" then part.pending == None && full.chars == base.chars
    else
      var g := |full.chars| - |base.chars| - |part.chars|;
      && (g == 0 || (g == 1 && full.chars[|base.chars|] == ' '))
      && full.chars[..|base.chars|] == base.chars
      && full.chars[|base.chars| + g..] == part.chars
      && full.pending == Shifted(part.pending, lo)
  }

  lemma PutJoined(u: Unicode, full: Norm, base: Norm, part: Norm, lo: nat, c: char, i: nat)
    requires Joined(full, base, part, lo)
    ensures Joined(Put(u, full, c, lo + i), base, Put(u, part, c, i), lo)
  {
  }

  lemma {:induction false} FeedJoined(u: Unicode, full: Norm, base: Norm, part: Norm, lo: nat, e: string, i: nat,
                                      k: nat)
    requires Joined(full, base, part, lo) && k <= |e|
    ensures Joined(Feed(u, full, e, lo + i, k), base, Feed(u, part, e, i, k), lo)
  {
    if k == 0 {
    } else {
      FeedJoined(u, full, base, part, lo, e, i, k - 1);
      PutJoined(u, Feed(u, full, e, lo + i, k - 1), base, Feed(u, part, e, i, k - 1), lo, e[k - 1], i);
    }
  }

  lemma {:induction false} ScanJoined(u: Unicode, value: string, lo: nat, hi: nat, k: nat)
    requires lo <= hi <= |value| && k <= hi - lo
    ensures Joined(Scan(u, value, lo + k), Scan(u, value, lo), Scan(u, value[lo..hi], k), lo)
  {
    if k == 0 {
    } else {
      ScanJoined(u, value, lo, hi, k - 1);
      var e := u.expand(value[lo + k - 1]);
      assert value[lo..hi][k - 1] == value[lo + k - 1];
      FeedJoined(u, Scan(u, value, lo + k - 1), Scan(u, value, lo), Scan(u, value[lo..hi], k - 1), lo, e, k - 1, |e|);
    }
  }

  // --- searching ---

  predicate OccursAt(text: string, pattern: string, i: nat) {
    i + |pattern| <= |text| && text[i..i + |pattern|] == pattern
  }

  /** The first occurrence at or after `from`. */
  function FindFrom(text: string, pattern: string, from: nat): (r: Option<nat>)
    requires from <= |text|
    ensures r.Some? ==> from <= r.value && OccursAt(text, pattern, r.value)
    ensures forall i: nat :: from <= i < (if r.Some? then r.value else |text| + 1) ==> !OccursAt(text, pattern, i)
    decreases |text| - from
  {
    if OccursAt(text, pattern, from) then Some(from)
    else if from == |text| then None
    else FindFrom(text, pattern, from + 1)
  }

  function Find(text: string, pattern: string): Option<nat> {
    FindFrom(text, pattern, 0)
  }

  type Span = (nat, nat)

  /** White space at both ends aside, is there anything in the quote? */
  predicate Blank(u: Unicode, quote: string) {
    forall i :: 0 <= i < |quote| ==> u.blank(quote[i])
  }

  function NormalizedSpan(n: Norm, start: nat, end: nat): Span
    requires start < end <= |n.offsets|
  {
    (n.offsets[start], n.offsets[end - 1] + 1)
  }

  function FindCitationSpanFast(u: Unicode, quote: string, source: string): Option<Span> {
    if Blank(u, quote) || source == "" then None
    else
      match Find(source, quote)
      case Some(start) => Some((start, start + |quote|))
      case None =>
        ScanShaped(u, quote, |quote|);
        ScanShaped(u, source, |source|);
        var q, n := Normalize(u, quote), Normalize(u, source);
        if q.chars == "" || |q.chars| > |n.chars| then None
        else
          match Find(n.chars, q.chars)
          case None => None
          case Some(start) => Some(NormalizedSpan(n, start, start + |q.chars|))
  }

  /** The source behind `start..end` of the normalised text, when neither end is a separator: what
      was written before its first character came earlier, and its last character is written. */
  lemma HitBounds(u: Unicode, source: string, start: nat, end: nat)
    requires u.sep(' ') && start < end <= |Normalize(u, source).chars|
    requires !u.sep(Normalize(u, source).chars[start]) && !u.sep(Normalize(u, source).chars[end - 1])
    ensures |Normalize(u, source).chars| == |Normalize(u, source).offsets|
    ensures var (lo, hi) := NormalizedSpan(Normalize(u, source), start, end);
            && lo < hi <= |source|
            && |Scan(u, source, lo).chars| <= start < |Scan(u, source, lo + 1).chars|
            && |Scan(u, source, hi - 1).chars| < end <= |Scan(u, source, hi).chars|
            && Scan(u, source, hi).chars <= Normalize(u, source).chars
            && Scan(u, source, lo + 1).chars <= Scan(u, source, hi).chars
  {
    hide Scan, Joined;
    ScanShaped(u, source, |source|);
    Emission(u, source, |source|, start);
    Emission(u, source, |source|, end - 1);
    var (lo, hi) := NormalizedSpan(Normalize(u, source), start, end);
    hide Shaped;
    ScanPrefix(u, source, hi, |source|);
    ScanPrefix(u, source, lo + 1, hi);
  }

  /** The stretch of source behind a normalised occurrence of `pattern` at `start` is non-empty, in
      bounds, and itself normalises to text that contains the pattern. */
  lemma OccurrenceWitness(u: Unicode, source: string, pattern: string, start: nat)
    requires Proper(u) && pattern != "" && OccursAt(Normalize(u, source).chars, pattern, start)
    requires !u.sep(pattern[0]) && !u.sep(pattern[|pattern| - 1])
    requires |Normalize(u, source).chars| == |Normalize(u, source).offsets|
    ensures var (lo, hi) := NormalizedSpan(Normalize(u, source), start, start + |pattern|);
            && lo < hi <= |source|
            && exists d: nat :: OccursAt(Normalize(u, source[lo..hi]).chars, pattern, d)
  {
    hide Scan, Joined, Normalize;
    var (lo, hi) := NormalizedSpan(Normalize(u, source), start, start + |pattern|);
    HitSlice(u, source, pattern, start);
    hide OccursAt;
    JoinedContains(u, Scan(u, source, hi), Scan(u, source, lo), Normalize(u, source[lo..hi]), lo, pattern, start);
  }

  /** The scan up to the end of a hit's stretch ends in the hit, and the stretch alone normalises to its tail. */
  lemma HitSlice(u: Unicode, source: string, pattern: string, start: nat)
    requires u.sep(' ') && pattern != "" && OccursAt(Normalize(u, source).chars, pattern, start)
    requires !u.sep(pattern[0]) && !u.sep(pattern[|pattern| - 1])
    requires |Normalize(u, source).chars| == |Normalize(u, source).offsets|
    ensures var (lo, hi) := NormalizedSpan(Normalize(u, source), start, start + |pattern|);
            && lo < hi <= |source|
            && Joined(Scan(u, source, hi), Scan(u, source, lo), Normalize(u, source[lo..hi]), lo)
            && OccursAt(Scan(u, source, hi).chars, pattern, start)
            && |Scan(u, source, lo).chars| <= start < |Scan(u, source, lo + 1).chars|
            && |Scan(u, source, hi - 1).chars| < start + |pattern|
            && Scan(u, source, lo + 1).chars <= Scan(u, source, hi).chars
  {
    hide Scan, Joined;
    var n, end := Normalize(u, source), start + |pattern|;
    assert n.chars[start] == pattern[0] && n.chars[end - 1] == pattern[|pattern| - 1];
    HitBounds(u, source, start, end);
    var (lo, hi) := NormalizedSpan(n, start, end);
    ScanJoined(u, source, lo, hi, hi - lo);
    assert |source[lo..hi]| == hi - lo;
    assert Scan(u, source, hi).chars[start..end] == n.chars[start..end];
  }

  lemma JoinedContains(u: Unicode, full: Norm, base: Norm, part: Norm, lo: nat, pattern: string, start: nat)
    requires Joined(full, base, part, lo) && u.sep(' ')
    requires pattern != "" && !u.sep(pattern[0]) && OccursAt(full.chars, pattern, start)
    requires |base.chars| <= start
    ensures exists d: nat :: OccursAt(part.chars, pattern, d)
  {
    var g := |full.chars| - |base.chars| - |part.chars|;
    assert full.chars[start] == pattern[0];
    assert part.chars != "";
    assert start >= |base.chars| + g;
    var d := start - |base.chars| - g;
    assert part.chars[d..d + |pattern|] == full.chars[start..start + |pattern|];
    assert OccursAt(part.chars, pattern, d);
  }

  /** The ends of normalised text are never separators. */
  lemma NormalizedEnds(u: Unicode, value: string)
    ensures var n := Normalize(u, value);
            && |n.chars| == |n.offsets|
            && (n.chars != "" ==> !u.sep(n.chars[0]) && !u.sep(n.chars[|n.chars| - 1]))
  {
    ScanShaped(u, value, |value|);
  }

  /** Every span found is a faithful witness: it is non-empty and in bounds, and the source between
      its ends normalises to text containing the normalised quote. */
  lemma SpanWitness(u: Unicode, quote: string, source: string)
    requires Proper(u) && FindCitationSpanFast(u, quote, source).Some?
    ensures var (lo, hi) := FindCitationSpanFast(u, quote, source).value;
            && lo < hi <= |source|
            && (source[lo..hi] == quote
                || exists d: nat :: OccursAt(Normalize(u, source[lo..hi]).chars, Normalize(u, quote).chars, d))
  {
    if Find(source, quote).None? {
      NormalizedEnds(u, quote);
      NormalizedEnds(u, source);
      var q, n := Normalize(u, quote).chars, Normalize(u, source).chars;
      OccurrenceWitness(u, source, q, Find(n, q).value);
    }
  }

  // --- when every character stands for at most one ---

  ghost predicate Single(u: Unicode) {
    forall c :: |u.expand(c)| <= 1
  }

  lemma SingleStep(u: Unicode, value: string, k: nat)
    requires Single(u) && Proper(u) && k < |value|
    ensures var before, after := Scan(u, value, k), Scan(u, value, k + 1);
            after.chars == before.chars
            || (after.chars != "" && !u.sep(after.chars[|after.chars| - 1])
                && (after.chars == before.chars + [after.chars[|after.chars| - 1]]
                    || after.chars == before.chars + [' ', after.chars[|after.chars| - 1]]))
  {
    var e := u.expand(value[k]);
    assert Feed(u, Scan(u, value, k), e, k, 0) == Scan(u, value, k);
  }

  /** Then a normalised hit normalises back to exactly the normalised quote. */
  lemma SingleWitness(u: Unicode, source: string, pattern: string, start: nat)
    requires Proper(u) && Single(u) && pattern != "" && OccursAt(Normalize(u, source).chars, pattern, start)
    requires !u.sep(pattern[0]) && !u.sep(pattern[|pattern| - 1])
    requires |Normalize(u, source).chars| == |Normalize(u, source).offsets|
    ensures var (lo, hi) := NormalizedSpan(Normalize(u, source), start, start + |pattern|);
            lo < hi <= |source| && Normalize(u, source[lo..hi]).chars == pattern
  {
    hide Scan, Joined, Normalize;
    var (lo, hi) := NormalizedSpan(Normalize(u, source), start, start + |pattern|);
    HitSlice(u, source, pattern, start);
    var base, first, full := Scan(u, source, lo), Scan(u, source, lo + 1), Scan(u, source, hi);
    SingleStep(u, source, lo);
    SingleStep(u, source, hi - 1);
    assert full.chars[start] == pattern[0] && full.chars[start + |pattern| - 1] == pattern[|pattern| - 1];
    assert start + |pattern| == |full.chars| by { ScanPrefix(u, source, hi - 1, hi); }
    assert start == |first.chars| - 1 by { ScanPrefix(u, source, lo, lo + 1); }
    NormalizedEnds(u, source[lo..hi]);
    SinglePart(base, first, full, Normalize(u, source[lo..hi]), lo, pattern, start);
  }

  lemma SinglePart(base: Norm, first: Norm, full: Norm, part: Norm, lo: nat, pattern: string, start: nat)
    requires Joined(full, base, part, lo) && pattern != ""
    requires OccursAt(full.chars, pattern, start) && start + |pattern| == |full.chars|
    requires first.chars <= full.chars && |base.chars| <= start == |first.chars| - 1
    requires full.chars[start] != ' '
    requires first.chars == base.chars + [full.chars[start]] || first.chars == base.chars + [' ', full.chars[start]]
    requires part.chars != "" ==> part.chars[0] != ' '
    ensures part.chars == pattern
  {
    var g := |full.chars| - |base.chars| - |part.chars|;
    assert part.chars == full.chars[|base.chars| + g..];
    assert full.chars[|base.chars| + g] == part.chars[0];
    assert full.chars[|base.chars|] == first.chars[|base.chars|];
    assert start == |base.chars| + g;
  }

  lemma SpanEqualsQuote(u: Unicode, quote: string, source: string)
    requires Proper(u) && Single(u) && FindCitationSpanFast(u, quote, source).Some?
    ensures var (lo, hi) := FindCitationSpanFast(u, quote, source).value;
            && lo < hi <= |source|
            && Normalize(u, source[lo..hi]).chars == Normalize(u, quote).chars
  {
    SpanWitness(u, quote, source);
    if Find(source, quote).None? {
      NormalizedEnds(u, quote);
      NormalizedEnds(u, source);
      var q, n := Normalize(u, quote).chars, Normalize(u, source).chars;
      SingleWitness(u, source, q, Find(n, q).value);
    }
  }

  /** Nothing is missed: a quote that normalises like some stretch of the source is found, however
      its case, spacing and punctuation were altered. */
  lemma AlteredCopyFound(u: Unicode, quote: string, source: string, lo: nat, hi: nat)
    requires Proper(u) && lo <= hi <= |source|
    requires Normalize(u, quote).chars != "" && Normalize(u, source[lo..hi]).chars == Normalize(u, quote).chars
    ensures FindCitationSpanFast(u, quote, source).Some?
  {
    hide Scan, Joined, Shaped;
    var q, n := Normalize(u, quote).chars, Normalize(u, source).chars;
    NotBlank(u, quote);
    assert source != "" by { EmptyScan(u, source[lo..hi]); }
    assert |source[lo..hi]| == hi - lo;
    ScanJoined(u, source, lo, hi, hi - lo);
    ScanPrefix(u, source, hi, |source|);
    var at := JoinedAt(Scan(u, source, hi), Scan(u, source, lo), Scan(u, source[lo..hi], hi - lo), lo);
    assert n[at..at + |q|] == Scan(u, source, hi).chars[at..at + |q|];
    assert OccursAt(n, q, at);
  }

  lemma EmptyScan(u: Unicode, value: string)
    ensures value == "" ==> Normalize(u, value).chars == ""
  {
  }

  lemma JoinedAt(full: Norm, base: Norm, part: Norm, lo: nat) returns (at: nat)
    requires Joined(full, base, part, lo) && part.chars != ""
    ensures OccursAt(full.chars, part.chars, at)
  {
    at := |full.chars| - |part.chars|;
  }

  lemma {:induction false} BlankFeed(u: Unicode, e: string, i: nat, k: nat)
    requires k <= |e| && forall j :: 0 <= j < |e| ==> u.sep(e[j])
    ensures Feed(u, Norm("", [], None), e, i, k) == Norm("", [], None)
  {
    if k == 0 {
    } else {
      BlankFeed(u, e, i, k - 1);
    }
  }

  lemma {:induction false} BlankScan(u: Unicode, value: string, k: nat)
    requires Proper(u) && k <= |value| && Blank(u, value)
    ensures Scan(u, value, k) == Norm("", [], None)
  {
    if k == 0 {
    } else {
      BlankScan(u, value, k - 1);
      BlankFeed(u, u.expand(value[k - 1]), k - 1, |u.expand(value[k - 1])|);
    }
  }

  lemma NotBlank(u: Unicode, quote: string)
    requires Proper(u) && Normalize(u, quote).chars != ""
    ensures !Blank(u, quote)
  {
    if Blank(u, quote) { BlankScan(u, quote, |quote|); }
  }

  // --- the verdict ---

  datatype MatchType = Exact | Normalized | Fuzzy | NotFound

  datatype Verdict = Verdict(valid: bool, matchType: MatchType, span: Option<Span>, score: real)

  const THRESHOLD := 0.95

  const ABSENT := Verdict(false, NotFound, None, 0.0)

  /** The maximal runs of non-spaces in the first `k` characters. */
  function Words(text: string, k: nat): (r: seq<Span>)
    requires k <= |text|
    ensures forall i :: 0 <= i < |r| ==> r[i].0 < r[i].1 <= k
  {
    if k == 0 then []
    else
      var w := Words(text, k - 1);
      if text[k - 1] == ' ' then w
      else if w != [] && w[|w| - 1].1 == k - 1 then w[..|w| - 1] + [(w[|w| - 1].0, k)]
      else w + [(k - 1, k)]
  }

  function Slices(text: string, spans: seq<Span>): seq<string>
    requires forall i :: 0 <= i < |spans| ==> spans[i].0 < spans[i].1 <= |text|
  {
    seq(|spans|, i requires 0 <= i < |spans| => text[spans[i].0..spans[i].1])
  }

  predicate Earlier(a: Span, b: Span) {
    a.0 < b.0 || (a.0 == b.0 && a.1 < b.1)
  }

  predicate IsSpace(c: char) {
    c == ' '
  }

  lemma {:induction false} WordsEnd(text: string, k: nat)
    requires k <= |text|
    ensures var w := Words(text, k);
            (w != [] && w[|w| - 1].1 == k) <==> (k > 0 && text[k - 1] != ' ')
  {
    if k > 0 { WordsEnd(text, k - 1); }
  }

  /** The runs are the words that spaces separate. */
  lemma {:induction false} WordsSplit(text: string, k: nat)
    requires k <= |text|
    ensures Slices(text, Words(text, k)) == SplitBy(IsSpace, text[..k])
  {
    if k == 0 {
    } else {
      hide SplitBy, Grow;
      WordsSplit(text, k - 1);
      WordsEnd(text, k - 1);
      assert text[..k] == text[..k - 1] + [text[k - 1]];
      SplitSnoc(IsSpace, text[..k - 1], text[k - 1]);
      assert Fresh(IsSpace, text[..k - 1]) <==> k == 1 || text[k - 2] == ' ';
      SlicesStep(text, Words(text, k - 1), k);
      NoWords(IsSpace, text[..k - 1]);
    }
  }

  lemma SlicesStep(text: string, ws: seq<Span>, k: nat)
    requires 0 < k <= |text| && forall i :: 0 <= i < |ws| ==> ws[i].0 < ws[i].1 <= |text|
    ensures Slices(text, ws + [(k - 1, k)]) == Slices(text, ws) + [[text[k - 1]]]
    ensures ws != [] && ws[|ws| - 1].1 == k - 1 ==>
              Slices(text, ws[..|ws| - 1] + [(ws[|ws| - 1].0, k)]) == Grow(Slices(text, ws), text[k - 1])
  {
    assert text[k - 1..k] == [text[k - 1]];
    if ws != [] && ws[|ws| - 1].1 == k - 1 {
      var lo := ws[|ws| - 1].0;
      assert text[lo..k] == text[lo..k - 1] + [text[k - 1]];
    }
  }

  /** The fuzzy scan compares the words of the two texts. */
  lemma FormWords(u: Unicode, value: string)
    requires u.sep(' ')
    ensures var n := Normalize(u, value).chars;
            Slices(n, Words(n, |n|)) == Tokens(u, value)
  {
    var n, ws := Normalize(u, value).chars, Tokens(u, value);
    NormalizeExactly(u, value);
    WordsSplit(n, |n|);
    assert n[..|n|] == n;
    SplitWords(u.sep, Expand(u.expand, value));
    forall k | 0 <= k < |ws| ensures IsWord(IsSpace, ws[k]) {
      assert IsWord(u.sep, ws[k]);
    }
    SplitSpaced(IsSpace, ws);
  }

  /** A token-set similarity of two token lists; the library's ratio is taken as given. */
  type Ratio = (seq<string>, seq<string>) -> real

  /** The window lengths tried, in increasing order. */
  function WindowLengths(n: nat): seq<nat>
    requires n > 0
  {
    if n == 1 then [1, 2] else [n - 1, n, n + 1]
  }

  datatype Search = Search(quote: seq<string>, text: string, words: seq<Span>, norm: Norm)

  ghost predicate Searchable(s: Search) {
    && s.quote != []
    && s.text == s.norm.chars && |s.norm.chars| == |s.norm.offsets|
    && s.words == Words(s.text, |s.text|)
  }

  /** The window of `length` words from word `start`. */
  predicate InText(s: Search, length: nat, start: nat) {
    length > 0 && start + length <= |s.words|
  }

  function WindowScore(ratio: Ratio, s: Search, length: nat, start: nat): real
    requires Searchable(s) && InText(s, length, start)
  {
    ratio(s.quote, Slices(s.text, s.words)[start..start + length])
  }

  lemma {:induction false} WordsOrdered(text: string, k: nat)
    requires k <= |text|
    ensures forall i, j :: 0 <= i < j < |Words(text, k)| ==> Words(text, k)[i].1 <= Words(text, k)[j].0
  {
    if k > 0 { WordsOrdered(text, k - 1); }
  }

  function WindowSpan(s: Search, length: nat, start: nat): Span
    requires Searchable(s) && InText(s, length, start)
  {
    WordsOrdered(s.text, |s.text|);
    NormalizedSpan(s.norm, s.words[start].0, s.words[start + length - 1].1)
  }

  datatype Window = Window(length: nat, start: nat)

  ghost predicate NoBetter(ratio: Ratio, s: Search, w: Window, score: real, span: Option<Span>)
    requires Searchable(s)
  {
    && InText(s, w.length, w.start)
    && WindowScore(ratio, s, w.length, w.start) <= score
    && (WindowScore(ratio, s, w.length, w.start) == score ==>
          span.Some? && !Earlier(WindowSpan(s, w.length, w.start), span.value))
  }

  ghost predicate Scores(ratio: Ratio, s: Search, w: Window, score: real, span: Span)
    requires Searchable(s)
  {
    && InText(s, w.length, w.start)
    && WindowScore(ratio, s, w.length, w.start) == score && WindowSpan(s, w.length, w.start) == span
  }

  /** `(score, span)` is the best of the windows in `tried`: the highest score, the earliest span
      among equals. */
  ghost predicate BestOf(ratio: Ratio, s: Search, tried: set<Window>, score: real, span: Option<Span>)
    requires Searchable(s)
  {
    && (forall w :: w in tried ==> NoBetter(ratio, s, w, score, span))
    && (span.Some? ==> exists w :: w in tried && Scores(ratio, s, w, score, span.value))
    && (span.None? ==> score == 0.0)
  }

  lemma KeepBest(ratio: Ratio, s: Search, tried: set<Window>, score: real, span: Option<Span>, w: Window)
    requires Searchable(s) && BestOf(ratio, s, tried, score, span) && InText(s, w.length, w.start)
    ensures var score', span' := WindowScore(ratio, s, w.length, w.start), WindowSpan(s, w.length, w.start);
            if score' > score || (score' == score && (span.None? || Earlier(span', span.value)))
            then BestOf(ratio, s, tried + {w}, score', Some(span'))
            else BestOf(ratio, s, tried + {w}, score, span)
  {
    hide Searchable, WindowScore, WindowSpan, InText;
    var score', span' := WindowScore(ratio, s, w.length, w.start), WindowSpan(s, w.length, w.start);
    assert Scores(ratio, s, w, score', span');
    if span.Some? {
      var best :| best in tried && Scores(ratio, s, best, score, span.value);
      assert best in tried + {w};
    }
  }

  /** Among windows of the same score, `span` is the first. */
  ghost predicate NotEarlier(ratio: Ratio, s: Search, w: Window, score: real, span: Span)
    requires Searchable(s)
  {
    && InText(s, w.length, w.start)
    && (WindowScore(ratio, s, w.length, w.start) == score ==>
          var (lo, hi) := WindowSpan(s, w.length, w.start);
          span.0 < lo || (span.0 == lo && span.1 <= hi))
  }

  /** The windows the verdict ranges over: as long as the quote, or one word shorter or longer. */
  ghost predicate Eligible(s: Search, w: Window)
    requires Searchable(s)
  {
    |s.quote| - 1 <= w.length <= |s.quote| + 1 && InText(s, w.length, w.start)
  }

  /** One window length: every window of it is tried, and the best kept. */
  method TryLength(ratio: Ratio, s: Search, length: nat, score0: real, span0: Option<Span>, ghost tried0: set<Window>)
    returns (score: real, span: Option<Span>, ghost tried: set<Window>)
    requires Searchable(s) && length in WindowLengths(|s.quote|)
    requires BestOf(ratio, s, tried0, score0, span0)
    ensures BestOf(ratio, s, tried, score, span)
    ensures forall w :: w in tried <==> w in tried0 || (w.length == length && Eligible(s, w))
  {
    LengthsExactly(|s.quote|);
    hide Searchable, WindowScore, WindowSpan, BestOf, WindowLengths, Words;
    score, span, tried := score0, span0, tried0;
    if length > |s.words| {
      return;
    }
    for start := 0 to |s.words| - length + 1
      invariant BestOf(ratio, s, tried, score, span)
      invariant forall w :: w in tried <==> w in tried0 || (w.length == length && w.start < start && Eligible(s, w))
    {
      KeepBest(ratio, s, tried, score, span, Window(length, start));
      var windowScore := WindowScore(ratio, s, length, start);
      var windowSpan := WindowSpan(s, length, start);
      if windowScore > score || (windowScore == score && (span.None? || Earlier(windowSpan, span.value))) {
        score, span := windowScore, Some(windowSpan);
      }
      tried := tried + {Window(length, start)};
    }
  }

  /** The fuzzy scan over all windows of nearly the quote's length. */
  method BestWindow(ratio: Ratio, s: Search) returns (score: real, span: Option<Span>, ghost tried: set<Window>)
    requires Searchable(s)
    ensures BestOf(ratio, s, tried, score, span)
    ensures forall w :: w in tried <==> Eligible(s, w)
  {
    assert |s.quote| > 0;
    LengthsExactly(|s.quote|);
    hide Searchable, BestOf, WindowLengths, Words, InText;
    score, span := 0.0, None;
    tried := {};
    assert BestOf(ratio, s, {}, 0.0, None) by { NothingTried(ratio, s); }
    var lengths := WindowLengths(|s.quote|);
    for k := 0 to |lengths|
      invariant BestOf(ratio, s, tried, score, span)
      invariant forall w :: w in tried <==> w.length in lengths[..k] && Eligible(s, w)
    {
      assert lengths[..k + 1] == lengths[..k] + [lengths[k]];
      assert lengths[k] in lengths;
      score, span, tried := TryLength(ratio, s, lengths[k], score, span, tried);
    }
    assert lengths[..|lengths|] == lengths;
  }

  lemma NothingTried(ratio: Ratio, s: Search)
    requires Searchable(s)
    ensures BestOf(ratio, s, {}, 0.0, None)
  {
  }

  lemma LengthsExactly(n: nat)
    requires n > 0
    ensures forall l: nat :: l in WindowLengths(n) <==> l > 0 && n - 1 <= l <= n + 1
  {
    assert n > 1 ==> WindowLengths(n)[0] == n - 1 && WindowLengths(n)[1] == n && WindowLengths(n)[2] == n + 1;
    assert n == 1 ==> WindowLengths(n)[0] == 1 && WindowLengths(n)[1] == 2;
  }

  function SearchOf(u: Unicode, quote: string, source: string): Search {
    var q, n := Normalize(u, quote).chars, Normalize(u, source);
    Search(Slices(q, Words(q, |q|)), n.chars, Words(n.chars, |n.chars|), n)
  }

  /** The quote and the source reach the fuzzy scan. */
  ghost predicate Scanned(u: Unicode, quote: string, source: string) {
    && !Blank(u, quote) && source != ""
    && FindCitationSpanFast(u, quote, source).None?
    && Normalize(u, quote).chars != "" && |Normalize(u, quote).chars| <= |Normalize(u, source).chars|
  }

  ghost predicate CloseWindow(u: Unicode, ratio: Ratio, quote: string, source: string, w: Window)
    requires Searchable(SearchOf(u, quote, source))
  {
    var s := SearchOf(u, quote, source);
    Eligible(s, w) && WindowScore(ratio, s, w.length, w.start) >= 0.95
  }

  /** A window of the text's words, as long as the quote or one word shorter or longer. */
  predicate WordWindow(q: seq<string>, t: seq<string>, w: Window) {
    0 < w.length && |q| - 1 <= w.length <= |q| + 1 && w.start + w.length <= |t|
  }

  function WordScore(ratio: Ratio, q: seq<string>, t: seq<string>, w: Window): real
    requires WordWindow(q, t, w)
  {
    ratio(q, t[w.start..w.start + w.length])
  }

  ghost predicate CloseWords(ratio: Ratio, q: seq<string>, t: seq<string>, w: Window) {
    WordWindow(q, t, w) && WordScore(ratio, q, t, w) >= 0.95
  }

  /** The windows tried are windows of words, scored as such. */
  lemma SearchExactly(u: Unicode, ratio: Ratio, quote: string, source: string, w: Window)
    requires Proper(u) && Searchable(SearchOf(u, quote, source))
    ensures var s, q, t := SearchOf(u, quote, source), Tokens(u, quote), Tokens(u, source);
            && (Eligible(s, w) <==> WordWindow(q, t, w))
            && (Eligible(s, w) ==> WindowScore(ratio, s, w.length, w.start) == WordScore(ratio, q, t, w))
  {
    FormWords(u, quote);
    FormWords(u, source);
    hide Words, Normalize, Tokens;
  }

  /** The fuzzy verdict, on the words of the two texts. */
  lemma VerdictOnWords(u: Unicode, ratio: Ratio, quote: string, source: string, score: real)
    requires Proper(u) && Searchable(SearchOf(u, quote, source))
    ensures var s, q, t := SearchOf(u, quote, source), Tokens(u, quote), Tokens(u, source);
            && ((exists w :: CloseWindow(u, ratio, quote, source, w)) <==> exists w :: CloseWords(ratio, q, t, w))
            && ((forall w :: Eligible(s, w) ==> WindowScore(ratio, s, w.length, w.start) <= score)
                ==> forall w :: WordWindow(q, t, w) ==> WordScore(ratio, q, t, w) <= score)
  {
    var s, q, t := SearchOf(u, quote, source), Tokens(u, quote), Tokens(u, source);
    hide SearchOf, Tokens, WindowScore, WordScore, Searchable;
    forall w
      ensures Eligible(s, w) <==> WordWindow(q, t, w)
      ensures Eligible(s, w) ==> WindowScore(ratio, s, w.length, w.start) == WordScore(ratio, q, t, w)
      ensures CloseWindow(u, ratio, quote, source, w) <==> CloseWords(ratio, q, t, w)
    {
      SearchExactly(u, ratio, quote, source, w);
    }
  }

  ghost predicate ExactHit(u: Unicode, quote: string, source: string) {
    !Blank(u, quote) && source != "" && exists i: nat :: OccursAt(source, quote, i)
  }

  ghost predicate FormHit(u: Unicode, quote: string, source: string) {
    Form(u, quote) != "" && exists i: nat :: OccursAt(Form(u, source), Form(u, quote), i)
  }

  /** When the search succeeds and when the scan is reached, on the texts' forms. */
  lemma SearchOnForms(u: Unicode, quote: string, source: string)
    requires Proper(u)
    ensures FindCitationSpanFast(u, quote, source).Some? <==> ExactHit(u, quote, source) || FormHit(u, quote, source)
    ensures Scanned(u, quote, source) <==>
            && !ExactHit(u, quote, source) && !FormHit(u, quote, source)
            && Form(u, quote) != "" && |Form(u, quote)| <= |Form(u, source)|
  {
    var q, n := Normalize(u, quote).chars, Normalize(u, source).chars;
    NormalizeExactly(u, quote);
    NormalizeExactly(u, source);
    EmptyScan(u, source);
    if q != "" { NotBlank(u, quote); }
    if Blank(u, quote) { BlankScan(u, quote, |quote|); }
    hide Normalize, Form, Blank, OccursAt;
    assert (exists i: nat :: OccursAt(source, quote, i)) <==> Find(source, quote).Some? by { FindAny(source, quote); }
    assert (exists i: nat :: OccursAt(n, q, i)) <==> Find(n, q).Some? by { FindAny(n, q); }
    assert Find(n, q).Some? ==> |q| <= |n| by { FindFits(n, q); }
  }

  lemma FindAny(text: string, pattern: string)
    ensures (exists i: nat :: OccursAt(text, pattern, i)) <==> Find(text, pattern).Some?
  {
    if i: nat :| OccursAt(text, pattern, i) {
      assert i <= |text|;
    }
  }

  lemma FindFits(text: string, pattern: string)
    ensures Find(text, pattern).Some? ==> |pattern| <= |text|
  {
  }

  method VerifyCitation(u: Unicode, ratio: Ratio, quote: string, source: string) returns (v: Verdict)
    requires Proper(u)
    // valid verdicts carry a span, invalid ones none
    ensures v.valid <==> v.matchType != NotFound
    ensures v.valid <==> v.span.Some?
    // the fast search agrees with the exact and normalised verdicts, span included
    ensures v.matchType in {Exact, Normalized} <==> FindCitationSpanFast(u, quote, source).Some?
    ensures v.matchType in {Exact, Normalized} ==> v.span == FindCitationSpanFast(u, quote, source) && v.score == 1.0
    ensures v.matchType == Exact <==> !Blank(u, quote) && source != "" && exists i: nat :: OccursAt(source, quote, i)
    // on the texts' forms: no other text passes as exact or normalised, and none that does is refused
    ensures v.matchType == Normalized <==> !ExactHit(u, quote, source) && FormHit(u, quote, source)
    ensures v.matchType == Fuzzy <==>
            && !ExactHit(u, quote, source) && !FormHit(u, quote, source)
            && Form(u, quote) != "" && |Form(u, quote)| <= |Form(u, source)|
            && exists w :: CloseWords(ratio, Tokens(u, quote), Tokens(u, source), w)
    ensures v.matchType == Fuzzy ==>
              forall w :: WordWindow(Tokens(u, quote), Tokens(u, source), w) ==>
                            WordScore(ratio, Tokens(u, quote), Tokens(u, source), w) <= v.score
    // a fuzzy verdict is the best window at or above the threshold, and is given whenever there is one
    ensures v.matchType == Fuzzy ==> Scanned(u, quote, source) && v.score >= THRESHOLD
    ensures Scanned(u, quote, source) ==>
              var s := SearchOf(u, quote, source);
              && Searchable(s)
              && (v.matchType == Fuzzy <==> exists w :: CloseWindow(u, ratio, quote, source, w))
              && (forall w :: Eligible(s, w) ==> WindowScore(ratio, s, w.length, w.start) <= v.score)
              && (v.matchType == Fuzzy ==> exists w :: Eligible(s, w) && Scores(ratio, s, w, v.score, v.span.value))
              && (v.matchType == Fuzzy ==>
                  forall w :: Eligible(s, w) ==> NotEarlier(ratio, s, w, v.score, v.span.value))
    // every span is a non-empty stretch of the source
    ensures v.span.Some? ==> v.span.value.0 < v.span.value.1 <= |source|
  {
    SearchOnForms(u, quote, source);
    hide Form, Tokens, FormHit, CloseWords;
    if Blank(u, quote) || source == "" {
      return ABSENT;
    }
    var exact := Find(source, quote);
    if exact.Some? {
      assert OccursAt(source, quote, exact.value);
      assert quote != "";
      return Verdict(true, Exact, Some((exact.value, exact.value + |quote|)), 1.0);
    }
    var q, qOffsets := NormalizeWithOffsets(u, quote);
    var n, nOffsets := NormalizeWithOffsets(u, source);
    if q == "" || |q| > |n| {
      return ABSENT;
    }
    var found := Find(n, q);
    if found.Some? {
      SpanWitness(u, quote, source);
      NormalizedEnds(u, source);
      return Verdict(true, Normalized, Some((nOffsets[found.value], nOffsets[found.value + |q| - 1] + 1)), 1.0);
    }
    v := FuzzyVerdict(u, ratio, quote, source);
    VerdictOnWords(u, ratio, quote, source, v.score);
  }

  lemma {:induction false} WordsNonEmpty(text: string, k: nat)
    requires k <= |text| && exists i :: 0 <= i < k && text[i] != ' '
    ensures Words(text, k) != []
  {
    if text[k - 1] == ' ' { WordsNonEmpty(text, k - 1); }
  }

  lemma ScanSearchable(u: Unicode, quote: string, source: string)
    requires Proper(u) && Scanned(u, quote, source)
    ensures Searchable(SearchOf(u, quote, source))
  {
    var q := Normalize(u, quote).chars;
    NormalizedEnds(u, quote);
    NormalizedEnds(u, source);
    assert q[0] != ' ';
    WordsNonEmpty(q, |q|);
  }

  lemma WindowInSource(u: Unicode, source: string, s: Search, w: Window)
    requires Searchable(s) && s.norm == Normalize(u, source) && InText(s, w.length, w.start)
    ensures WindowSpan(s, w.length, w.start).0 < WindowSpan(s, w.length, w.start).1 <= |source|
  {
    ScanShaped(u, source, |source|);
    WordsOrdered(s.text, |s.text|);
  }

  method FuzzyVerdict(u: Unicode, ratio: Ratio, quote: string, source: string) returns (v: Verdict)
    requires Proper(u) && Scanned(u, quote, source)
    ensures v.valid <==> v.matchType == Fuzzy
    ensures v.matchType in {Fuzzy, NotFound} && (v.valid <==> v.span.Some?)
    ensures v.matchType == Fuzzy ==> v.score >= THRESHOLD && v.span.value.0 < v.span.value.1 <= |source|
    ensures var s := SearchOf(u, quote, source);
            && Searchable(s)
            && (v.matchType == Fuzzy <==> exists w :: CloseWindow(u, ratio, quote, source, w))
            && (forall w :: Eligible(s, w) ==> WindowScore(ratio, s, w.length, w.start) <= v.score)
            && (v.matchType == Fuzzy ==> exists w :: Eligible(s, w) && Scores(ratio, s, w, v.score, v.span.value))
            && (v.matchType == Fuzzy ==> forall w :: Eligible(s, w) ==> NotEarlier(ratio, s, w, v.score, v.span.value))
  {
    ScanSearchable(u, quote, source);
    var s := SearchOf(u, quote, source);
    var score, span, tried := BestWindow(ratio, s);
    hide Scanned, Searchable, SearchOf, WindowScore, WindowSpan;
    forall w | Eligible(s, w)
      ensures WindowScore(ratio, s, w.length, w.start) <= score
      ensures span.Some? ==> NotEarlier(ratio, s, w, score, span.value)
    {
      assert NoBetter(ratio, s, w, score, span);
    }
    if span.Some? {
      ghost var w :| w in tried && Scores(ratio, s, w, score, span.value);
      WindowInSource(u, source, s, w);
      assert score >= THRESHOLD ==> CloseWindow(u, ratio, quote, source, w);
    }
    if span.Some? && score >= THRESHOLD {
      v := Verdict(true, Fuzzy, span, score);
    } else {
      v := Verdict(false, NotFound, None, score);
    }
  }
}
