/** Section spans and chunks (packages/diff_engine/sections.py, scripts/extract_obligations_full.py):
    offsets survive from the document through sections and chunks to citations. */
module Sections {
  import opened Options
  import opened Sorting
  import Citations

  // --- section spans ---

  /** A numbered line of the body that may open a section. */
  datatype Heading = Heading(number: nat, start: nat, line: string)

  datatype TocEntry = TocEntry(number: nat, title: string)

  /** How well a heading line matches a title: prefix agreement first, then token overlap. */
  datatype Rating = Rating(prefix: bool, overlap: real)

  /** The parts of the document text that pattern matching supplies: the table of contents in order,
      the headings in text order, and where a section's first sub-clause starts. */
  datatype Outline = Outline(toc: seq<TocEntry>, headings: seq<Heading>, subclause: nat -> Option<nat>)

  /** Table entries have distinct numbers; headings lie in the text, one after another. */
  ghost predicate WellFormed(o: Outline, length: nat) {
    && (forall i, j :: 0 <= i < j < |o.toc| ==> o.toc[i].number != o.toc[j].number)
    && (forall i, j :: 0 <= i < j < |o.headings| ==> o.headings[i].start < o.headings[j].start)
    && (forall i :: 0 <= i < |o.headings| ==> o.headings[i].start < length)
  }

  function Smallest(toc: seq<TocEntry>): nat {
    if toc == [] then 1
    else if |toc| == 1 then toc[0].number
    else
      var rest := Smallest(toc[..|toc| - 1]);
      if toc[|toc| - 1].number < rest then toc[|toc| - 1].number else rest
  }

  /** The start of the last heading with `number` before `limit`, or 0. */
  function LastStart(headings: seq<Heading>, number: nat, limit: Option<nat>): nat {
    if headings == [] then 0
    else
      var rest, h := LastStart(headings[..|headings| - 1], number, limit), headings[|headings| - 1];
      if h.number == number && (limit.None? || h.start < limit.value) && h.start > rest then h.start else rest
  }

  /** Where the body begins: the table of contents itself lies before it. */
  function RegionStart(o: Outline): nat {
    var first := Smallest(o.toc);
    LastStart(o.headings, first, o.subclause(first))
  }

  type Rate = (string, string) -> Rating

  /** Prefix, then overlap, then the earlier heading. */
  predicate Preferred(rate: Rate, title: string, a: Heading, b: Heading) {
    var x, y := rate(title, a.line), rate(title, b.line);
    || (x.prefix && !y.prefix)
    || (x.prefix == y.prefix && x.overlap > y.overlap)
    || (x.prefix == y.prefix && x.overlap == y.overlap && a.start < b.start)
  }

  predicate IsOption(o: Outline, e: TocEntry, h: Heading) {
    h.number == e.number && h.start >= RegionStart(o)
  }

  /** The best option for an entry among the first `k` headings. */
  function Choose(o: Outline, rate: Rate, e: TocEntry, k: nat): (r: Option<Heading>)
    requires k <= |o.headings|
    ensures r.None? <==> forall i :: 0 <= i < k ==> !IsOption(o, e, o.headings[i])
    ensures r.Some? ==> r.value in o.headings[..k] && IsOption(o, e, r.value)
  {
    if k == 0 then None
    else
      var rest, h := Choose(o, rate, e, k - 1), o.headings[k - 1];
      assert o.headings[..k] == o.headings[..k - 1] + [h];
      if IsOption(o, e, h) && (rest.None? || Preferred(rate, e.title, h, rest.value)) then Some(h) else rest
  }

  datatype Chosen = Chosen(number: nat, start: nat)

  predicate NoLater(a: Chosen, b: Chosen) {
    a.start <= b.start
  }

  /** One heading for each entry among the first `k` that has an option. */
  function ChooseAll(o: Outline, rate: Rate, k: nat): seq<Chosen>
    requires k <= |o.toc|
  {
    if k == 0 then []
    else
      match Choose(o, rate, o.toc[k - 1], |o.headings|)
      case None => ChooseAll(o, rate, k - 1)
      case Some(h) => ChooseAll(o, rate, k - 1) + [Chosen(h.number, h.start)]
  }

  datatype BodySpan = BodySpan(number: nat, start: nat, end: nat)

  /** Each chosen heading's section runs to the next one, the last to the end of the text. */
  function SpansOf(chosen: seq<Chosen>, length: nat): seq<BodySpan> {
    seq(|chosen|, i requires 0 <= i < |chosen| =>
      BodySpan(chosen[i].number, chosen[i].start, if i + 1 < |chosen| then chosen[i + 1].start else length))
  }

  function BodySpans(o: Outline, rate: Rate, length: nat): seq<BodySpan> {
    SpansOf(SortBy(NoLater, ChooseAll(o, rate, |o.toc|)), length)
  }

  method LocateBodySpans(o: Outline, rate: Rate, length: nat) returns (spans: seq<BodySpan>)
    ensures spans == BodySpans(o, rate, length)
  {
    var chosen := [];
    hide Preferred, IsOption, SortBy;
    for k := 0 to |o.toc|
      invariant chosen == ChooseAll(o, rate, k)
    {
      var best: Option<Heading> := None;
      for i := 0 to |o.headings|
        invariant best == Choose(o, rate, o.toc[k], i)
      {
        var h := o.headings[i];
        if IsOption(o, o.toc[k], h) && (best.None? || Preferred(rate, o.toc[k].title, h, best.value)) {
          best := Some(h);
        }
      }
      if best.Some? {
        chosen := chosen + [Chosen(best.value.number, best.value.start)];
      }
    }
    chosen := SortBy(NoLater, chosen);
    spans := SpansOf(chosen, length);
  }

  /** No option is preferred to the chosen one. */
  lemma {:induction false} ChooseBest(o: Outline, rate: Rate, e: TocEntry, k: nat, i: nat)
    requires k <= |o.headings| && i < k && IsOption(o, e, o.headings[i])
    ensures Choose(o, rate, e, k).Some?
    ensures !Preferred(rate, e.title, o.headings[i], Choose(o, rate, e, k).value)
  {
    if i < k - 1 {
      ChooseBest(o, rate, e, k - 1, i);
    }
  }

  // --- the region and the choice, on positions and ratings ---

  lemma {:induction false} SmallestExactly(toc: seq<TocEntry>)
    ensures toc == [] ==> Smallest(toc) == 1
    ensures toc != [] ==> (exists i :: 0 <= i < |toc| && toc[i].number == Smallest(toc))
                          && forall i :: 0 <= i < |toc| ==> Smallest(toc) <= toc[i].number
  {
    if |toc| > 1 {
      var t := toc[..|toc| - 1];
      SmallestExactly(t);
      var k :| 0 <= k < |t| && t[k].number == Smallest(t);
      assert toc[k] == t[k];
      assert forall i :: 0 <= i < |t| ==> t[i] == toc[i];
      if toc[|toc| - 1].number < Smallest(t) {
        assert toc[|toc| - 1].number == Smallest(toc);
      } else {
        assert toc[k].number == Smallest(toc);
      }
    } else if |toc| == 1 {
      assert toc[0].number == Smallest(toc);
    }
  }

  /** A heading of the number ahead of the limit. */
  predicate Opens(h: Heading, number: nat, limit: Option<nat>) {
    h.number == number && (limit.None? || h.start < limit.value)
  }

  lemma {:induction false} LastStartExactly(headings: seq<Heading>, number: nat, limit: Option<nat>)
    ensures forall i :: 0 <= i < |headings| && Opens(headings[i], number, limit) ==>
              headings[i].start <= LastStart(headings, number, limit)
    ensures LastStart(headings, number, limit) == 0
            || exists i :: 0 <= i < |headings| && Opens(headings[i], number, limit)
                           && headings[i].start == LastStart(headings, number, limit)
  {
    if headings == [] {
    } else {
      var t, h := headings[..|headings| - 1], headings[|headings| - 1];
      LastStartExactly(t, number, limit);
      assert forall i :: 0 <= i < |t| ==> t[i] == headings[i];
      if LastStart(t, number, limit) != 0 && LastStart(headings, number, limit) == LastStart(t, number, limit) {
        var k :| 0 <= k < |t| && Opens(t[k], number, limit) && t[k].start == LastStart(t, number, limit);
        assert headings[k].start == LastStart(headings, number, limit);
      }
    }
  }

  /** The number of the first section: the smallest of the table of contents, or 1. */
  ghost predicate FirstNumber(toc: seq<TocEntry>, n: nat) {
    if toc == [] then n == 1
    else (exists i :: 0 <= i < |toc| && toc[i].number == n) && forall i :: 0 <= i < |toc| ==> n <= toc[i].number
  }

  /** The body begins at the last heading of the first section's number ahead of its first sub-clause, or at the
      start of the text. */
  lemma RegionExactly(o: Outline, n: nat)
    requires FirstNumber(o.toc, n)
    ensures forall i :: 0 <= i < |o.headings| && Opens(o.headings[i], n, o.subclause(n)) ==>
              o.headings[i].start <= RegionStart(o)
    ensures RegionStart(o) == 0
            || exists i :: 0 <= i < |o.headings| && Opens(o.headings[i], n, o.subclause(n))
                           && o.headings[i].start == RegionStart(o)
  {
    SmallestExactly(o.toc);
    assert n == Smallest(o.toc);
    LastStartExactly(o.headings, n, o.subclause(n));
  }

  /** No heading of the entry's number in the body suits its title better than the one chosen: not one that agrees
      in prefix where it does not, not one of more overlap where they agree alike, not an earlier one of the same. */
  lemma ChosenExactly(o: Outline, rate: Rate, e: TocEntry, i: nat)
    requires i < |o.headings| && o.headings[i].number == e.number && o.headings[i].start >= RegionStart(o)
    ensures var c := Choose(o, rate, e, |o.headings|);
            && c.Some? && c.value in o.headings && c.value.number == e.number && c.value.start >= RegionStart(o)
            && var x, y := rate(e.title, o.headings[i].line), rate(e.title, c.value.line);
               && (x.prefix ==> y.prefix)
               && ((x.prefix <==> y.prefix) ==>
                     && x.overlap <= y.overlap
                     && (x.overlap == y.overlap ==> c.value.start <= o.headings[i].start))
  {
    ChooseBest(o, rate, e, |o.headings|, i);
    assert o.headings[..|o.headings|] == o.headings;
  }

  lemma NotChosen(o: Outline, rate: Rate, e: TocEntry)
    ensures Choose(o, rate, e, |o.headings|).None? <==>
            forall i :: 0 <= i < |o.headings| && o.headings[i].number == e.number ==>
                          o.headings[i].start < RegionStart(o)
  {
  }

  /** No section starts before the body begins. */
  lemma SpansInBody(o: Outline, rate: Rate, length: nat, n: nat, i: nat, h: nat)
    requires WellFormed(o, length) && FirstNumber(o.toc, n) && i < |BodySpans(o, rate, length)|
    requires h < |o.headings| && Opens(o.headings[h], n, o.subclause(n))
    ensures o.headings[h].start <= BodySpans(o, rate, length)[i].start
  {
    RegionExactly(o, n);
    SpanBelongs(o, rate, length, i);
    hide RegionStart, BodySpans;
  }

  /** Consecutive, non-empty, ending with the text. */
  ghost predicate TilesText(spans: seq<BodySpan>, length: nat) {
    && (forall i :: 0 <= i < |spans| ==> spans[i].start < spans[i].end <= length)
    && (forall i :: 0 <= i < |spans| - 1 ==> spans[i].end == spans[i + 1].start)
    && (spans != [] ==> spans[|spans| - 1].end == length)
  }

  /** `c` stands at a heading of the body with the number of one of the first `k` entries. */
  ghost predicate Stands(o: Outline, length: nat, k: nat, c: Chosen)
    requires k <= |o.toc|
  {
    && RegionStart(o) <= c.start < length
    && (exists j :: 0 <= j < k && o.toc[j].number == c.number)
    && exists h :: h in o.headings && h.number == c.number && h.start == c.start
  }

  lemma ChosenStands(o: Outline, rate: Rate, length: nat, k: nat)
    requires WellFormed(o, length) && k < |o.toc|
    ensures var h := Choose(o, rate, o.toc[k], |o.headings|);
            h.Some? ==> Stands(o, length, k + 1, Chosen(h.value.number, h.value.start))
  {
    assert o.headings[..|o.headings|] == o.headings;
  }

  lemma StandsOn(o: Outline, length: nat, k: nat, c: Chosen)
    requires k < |o.toc| && Stands(o, length, k, c)
    ensures Stands(o, length, k + 1, c)
  {
  }

  lemma {:induction false} ChooseAllStarts(o: Outline, rate: Rate, length: nat, k: nat)
    requires WellFormed(o, length) && k <= |o.toc|
    ensures forall c :: c in ChooseAll(o, rate, k) ==> Stands(o, length, k, c)
    ensures forall i, j :: 0 <= i < j < |ChooseAll(o, rate, k)| ==>
              ChooseAll(o, rate, k)[i].number != ChooseAll(o, rate, k)[j].number
  {
    if k == 0 {
    } else {
      ChooseAllStarts(o, rate, length, k - 1);
      ChosenStands(o, rate, length, k - 1);
      var t := ChooseAll(o, rate, k - 1);
      forall c | c in t ensures Stands(o, length, k, c) && c.number != o.toc[k - 1].number {
        StandsOn(o, length, k - 1, c);
      }
      assert forall i :: 0 <= i < |t| ==> t[i] in t;
      hide Stands, Choose;
    }
  }

  lemma ChosenStartsDistinct(o: Outline, rate: Rate, length: nat)
    requires WellFormed(o, length)
    ensures forall a, b :: a in ChooseAll(o, rate, |o.toc|) && b in ChooseAll(o, rate, |o.toc|) ==>
              a.start == b.start ==> a == b
  {
    ChooseAllStarts(o, rate, length, |o.toc|);
    var all := ChooseAll(o, rate, |o.toc|);
    forall a, b | a in all && b in all && a.start == b.start ensures a == b {
      var g :| g in o.headings && g.number == a.number && g.start == a.start;
      var h :| h in o.headings && h.number == b.number && h.start == b.start;
      var i :| 0 <= i < |o.headings| && o.headings[i] == g;
      var j :| 0 <= j < |o.headings| && o.headings[j] == h;
      assert i == j;
    }
  }

  ghost predicate StartsRise(chosen: seq<Chosen>, length: nat) {
    && (forall i :: 0 <= i < |chosen| ==> chosen[i].start < length)
    && (forall i, j :: 0 <= i < j < |chosen| ==> chosen[i].start < chosen[j].start)
  }

  lemma SortedStarts(o: Outline, rate: Rate, length: nat)
    requires WellFormed(o, length)
    ensures StartsRise(SortBy(NoLater, ChooseAll(o, rate, |o.toc|)), length)
  {
    var all := ChooseAll(o, rate, |o.toc|);
    assert Distinct(all) && forall c :: c in all ==> c.start < length by {
      ChooseAllStarts(o, rate, length, |o.toc|);
      NumbersDistinct(all);
    }
    ChosenStartsDistinct(o, rate, length);
    StartsSorted(all, length);
  }

  lemma StartsSorted(all: seq<Chosen>, length: nat)
    requires Distinct(all) && forall c :: c in all ==> c.start < length
    requires forall a, b :: a in all && b in all && a.start == b.start ==> a == b
    ensures StartsRise(SortBy(NoLater, all), length)
  {
    hide SortBy;
    var sorted := SortBy(NoLater, all);
    SortBySorted(NoLater, all);
    SortByDistinct(NoLater, all);
    assert forall i :: 0 <= i < |sorted| ==> sorted[i] in sorted;
    forall i, j | 0 <= i < j < |sorted| ensures sorted[i].start < sorted[j].start {
      assert NoLater(sorted[i], sorted[j]) && sorted[i] != sorted[j];
    }
  }

  lemma SpansOfTile(chosen: seq<Chosen>, length: nat)
    requires StartsRise(chosen, length)
    ensures TilesText(SpansOf(chosen, length), length)
  {
    var spans := SpansOf(chosen, length);
    forall i | 0 <= i < |spans| ensures spans[i].start < spans[i].end <= length {
      if i + 1 < |chosen| { assert chosen[i].start < chosen[i + 1].start; }
    }
  }

  lemma SpansOfDisjoint(chosen: seq<Chosen>, length: nat, i: nat, j: nat)
    requires StartsRise(chosen, length) && i < j < |chosen|
    ensures SpansOf(chosen, length)[i].end <= SpansOf(chosen, length)[j].start
  {
    assert i + 1 < j ==> chosen[i + 1].start < chosen[j].start;
  }

  lemma NumbersDistinct(s: seq<Chosen>)
    requires forall i, j :: 0 <= i < j < |s| ==> s[i].number != s[j].number
    ensures Distinct(s)
  {
  }

  /** `e` has a heading, and `c` is it. */
  predicate Picks(o: Outline, rate: Rate, e: TocEntry, c: Chosen) {
    var h := Choose(o, rate, e, |o.headings|);
    h.Some? && c == Chosen(h.value.number, h.value.start)
  }

  lemma {:induction false} ChooseAllMembers(o: Outline, rate: Rate, k: nat, c: Chosen)
    requires k <= |o.toc|
    ensures c in ChooseAll(o, rate, k) <==> exists j :: 0 <= j < k && Picks(o, rate, o.toc[j], c)
  {
    hide Choose;
    if k == 0 {
    } else {
      ChooseAllMembers(o, rate, k - 1, c);
    }
  }

  /** The span runs from the heading chosen for the entry. */
  predicate Belongs(o: Outline, rate: Rate, e: TocEntry, s: BodySpan) {
    e.number == s.number && Picks(o, rate, e, Chosen(s.number, s.start))
  }

  lemma PicksNumber(o: Outline, rate: Rate, e: TocEntry, c: Chosen)
    requires Picks(o, rate, e, c)
    ensures c.number == e.number
  {
  }

  lemma SpanOf(chosen: seq<Chosen>, length: nat, i: nat)
    requires i < |chosen|
    ensures |SpansOf(chosen, length)| == |chosen|
    ensures Chosen(SpansOf(chosen, length)[i].number, SpansOf(chosen, length)[i].start) == chosen[i]
  {
  }

  ghost predicate HasEntry(o: Outline, rate: Rate, s: BodySpan) {
    exists j :: 0 <= j < |o.toc| && Belongs(o, rate, o.toc[j], s)
  }

  ghost predicate HasSpan(o: Outline, rate: Rate, e: TocEntry, spans: seq<BodySpan>) {
    exists i :: 0 <= i < |spans| && Belongs(o, rate, e, spans[i])
  }

  ghost predicate SpansAndEntries(o: Outline, rate: Rate, spans: seq<BodySpan>) {
    && (forall i :: 0 <= i < |spans| ==> HasEntry(o, rate, spans[i]))
    && (forall j :: 0 <= j < |o.toc| && Choose(o, rate, o.toc[j], |o.headings|).Some? ==>
          HasSpan(o, rate, o.toc[j], spans))
  }

  /** Every span belongs to an entry, ... */
  lemma SpanBelongs(o: Outline, rate: Rate, length: nat, i: nat)
    requires i < |BodySpans(o, rate, length)|
    ensures HasEntry(o, rate, BodySpans(o, rate, length)[i])
  {
    var all := ChooseAll(o, rate, |o.toc|);
    var sorted := SortBy(NoLater, all);
    SpanLength(sorted, length);
    SpanOf(sorted, length, i);
    assert sorted[i] in sorted && sorted[i] in all;
    ChooseAllMembers(o, rate, |o.toc|, sorted[i]);
    hide SortBy, ChooseAll, SpansOf, Picks;
    var j :| 0 <= j < |o.toc| && Picks(o, rate, o.toc[j], sorted[i]);
    PicksNumber(o, rate, o.toc[j], sorted[i]);
    assert Belongs(o, rate, o.toc[j], BodySpans(o, rate, length)[i]);
  }

  /** ... and every entry that has a heading in the body owns a span. */
  lemma EntryOwns(o: Outline, rate: Rate, length: nat, j: nat)
    requires j < |o.toc| && Choose(o, rate, o.toc[j], |o.headings|).Some?
    ensures HasSpan(o, rate, o.toc[j], BodySpans(o, rate, length))
  {
    var h := Choose(o, rate, o.toc[j], |o.headings|).value;
    var c := Chosen(h.number, h.start);
    assert Picks(o, rate, o.toc[j], c);
    var all := ChooseAll(o, rate, |o.toc|);
    ChooseAllMembers(o, rate, |o.toc|, c);
    var sorted := SortBy(NoLater, all);
    assert c in sorted;
    hide SortBy, ChooseAll, SpansOf, Picks, Choose;
    var i :| 0 <= i < |sorted| && sorted[i] == c;
    SpanOf(sorted, length, i);
    PicksNumber(o, rate, o.toc[j], c);
    assert Belongs(o, rate, o.toc[j], BodySpans(o, rate, length)[i]);
  }

  lemma SpanLength(chosen: seq<Chosen>, length: nat)
    ensures |SpansOf(chosen, length)| == |chosen|
  {
  }

  lemma SpansInOrder(o: Outline, rate: Rate, length: nat)
    requires WellFormed(o, length)
    ensures TilesText(BodySpans(o, rate, length), length)
    ensures forall i, j :: 0 <= i < j < |BodySpans(o, rate, length)| ==>
              BodySpans(o, rate, length)[i].end <= BodySpans(o, rate, length)[j].start
  {
    SortedStarts(o, rate, length);
    hide SortBy, ChooseAll;
    var sorted := SortBy(NoLater, ChooseAll(o, rate, |o.toc|));
    SpansOfTile(sorted, length);
    forall i, j | 0 <= i < j < |sorted|
      ensures SpansOf(sorted, length)[i].end <= SpansOf(sorted, length)[j].start
    {
      SpansOfDisjoint(sorted, length, i, j);
    }
  }

  /** The chosen spans are disjoint and tile the text from the first chosen heading to the end; each starts
      at the heading chosen for a table entry of its number, and every entry with a heading has one. */
  lemma SpansTile(o: Outline, rate: Rate, length: nat)
    requires WellFormed(o, length)
    ensures TilesText(BodySpans(o, rate, length), length)
    ensures forall i, j :: 0 <= i < j < |BodySpans(o, rate, length)| ==>
              BodySpans(o, rate, length)[i].end <= BodySpans(o, rate, length)[j].start
    ensures SpansAndEntries(o, rate, BodySpans(o, rate, length))
  {
    SpansInOrder(o, rate, length);
    EntriesMatched(o, rate, length);
  }

  lemma EntriesMatched(o: Outline, rate: Rate, length: nat)
    ensures SpansAndEntries(o, rate, BodySpans(o, rate, length))
  {
    hide BodySpans, Choose, HasEntry, HasSpan;
    forall i | 0 <= i < |BodySpans(o, rate, length)| ensures HasEntry(o, rate, BodySpans(o, rate, length)[i]) {
      SpanBelongs(o, rate, length, i);
    }
    forall j | 0 <= j < |o.toc| && Choose(o, rate, o.toc[j], |o.headings|).Some?
      ensures HasSpan(o, rate, o.toc[j], BodySpans(o, rate, length))
    {
      EntryOwns(o, rate, length, j);
    }
  }

  // --- sections ---

  datatype Section = Section(number: nat, title: string, charStart: Option<nat>, charEnd: Option<nat>, body: string)

  function SpanFor(spans: seq<BodySpan>, number: nat): (r: Option<BodySpan>)
    ensures r.Some? ==> r.value in spans && r.value.number == number
    ensures r.None? ==> forall i :: 0 <= i < |spans| ==> spans[i].number != number
  {
    if spans == [] then None
    else if spans[|spans| - 1].number == number then Some(spans[|spans| - 1])
    else SpanFor(spans[..|spans| - 1], number)
  }

  function SectionOf(text: string, spans: seq<BodySpan>, e: TocEntry, maxBody: nat): Section
    requires forall i :: 0 <= i < |spans| ==> spans[i].start < spans[i].end <= |text|
  {
    match SpanFor(spans, e.number)
    case None => Section(e.number, e.title, None, None, "")
    case Some(s) =>
      var end := if s.end < s.start + maxBody then s.end else s.start + maxBody;
      Section(e.number, e.title, Some(s.start), Some(s.end), text[s.start..end])
  }

  predicate SmallerNumber(a: TocEntry, b: TocEntry) {
    a.number <= b.number
  }

  /** The sections of a document, by number; an entry that is not located has no body. */
  method ExtractSections(text: string, o: Outline, rate: Rate, maxBody: nat) returns (sections: seq<Section>)
    requires WellFormed(o, |text|)
    ensures |sections| == |o.toc|
    ensures forall k :: 0 <= k < |sections| ==> FromEntry(SortBy(SmallerNumber, o.toc)[k], sections[k])
    ensures forall k :: 0 <= k < |sections| ==> Faithful(text, sections[k])
    ensures forall k :: 0 <= k < |sections| ==> InPlace(text, o, rate, maxBody, sections[k])
    ensures forall i, j :: 0 <= i < j < |sections| ==> sections[i].number < sections[j].number
  {
    hide Faithful, InPlace, SortBy, BodySpans, WellFormed, Distinct;
    var spans := LocateBodySpans(o, rate, |text|);
    SpansInOrder(o, rate, |text|);
    var entries := SortBy(SmallerNumber, o.toc);
    EntriesRise(o, |text|);
    sections := [];
    for k := 0 to |entries|
      invariant |sections| == k
      invariant forall i :: 0 <= i < k ==> Faithful(text, sections[i]) && InPlace(text, o, rate, maxBody, sections[i])
      invariant forall i :: 0 <= i < k ==> FromEntry(entries[i], sections[i])
    {
      SectionPlaced(text, o, rate, maxBody, entries[k]);
      sections := sections + [SectionOf(text, spans, entries[k], maxBody)];
    }
  }

  lemma SectionPlaced(text: string, o: Outline, rate: Rate, maxBody: nat, e: TocEntry)
    requires TilesText(BodySpans(o, rate, |text|), |text|)
    ensures var s := SectionOf(text, BodySpans(o, rate, |text|), e, maxBody);
            FromEntry(e, s) && Faithful(text, s) && InPlace(text, o, rate, maxBody, s)
  {
    hide BodySpans;
    var spans := BodySpans(o, rate, |text|);
    var found := SpanFor(spans, e.number);
    if found.Some? {
      var i :| 0 <= i < |spans| && spans[i] == found.value;
    }
  }

  lemma EntriesRise(o: Outline, length: nat)
    requires WellFormed(o, length)
    ensures forall i, j :: 0 <= i < j < |o.toc| ==>
              SortBy(SmallerNumber, o.toc)[i].number < SortBy(SmallerNumber, o.toc)[j].number
  {
    var entries := SortBy(SmallerNumber, o.toc);
    SortBySorted(SmallerNumber, o.toc);
    SortByDistinct(SmallerNumber, o.toc);
    forall i, j | 0 <= i < j < |entries| ensures entries[i].number < entries[j].number {
      assert SmallerNumber(entries[i], entries[j]);
      assert entries[i] in o.toc && entries[j] in o.toc;
    }
  }

  /** The section carries the number and the title of the entry. */
  predicate FromEntry(e: TocEntry, s: Section) {
    s.number == e.number && s.title == e.title
  }

  /** A section's body is what the document says from its start. */
  ghost predicate Faithful(text: string, s: Section) {
    match s.charStart
    case None => s.body == ""
    case Some(start) => start + |s.body| <= |text| && text[start..start + |s.body|] == s.body
  }

  /** A located section has a chosen span, and its body is that span up to `maxBody` characters. */
  ghost predicate InPlace(text: string, o: Outline, rate: Rate, maxBody: nat, s: Section) {
    && (s.charStart.Some? ==>
          && s.charEnd.Some?
          && BodySpan(s.number, s.charStart.value, s.charEnd.value) in BodySpans(o, rate, |text|)
          && s.charStart.value + |s.body| <= s.charEnd.value
          && (s.charStart.value + |s.body| == s.charEnd.value || |s.body| == maxBody))
    && (s.charStart.None? ==> forall b :: b in BodySpans(o, rate, |text|) ==> b.number != s.number)
  }

  // --- chunks ---

  datatype Chunk = Chunk(sectionNumber: nat, title: string, index: nat, count: nat, body: string,
                         charStart: Option<nat>, charEnd: Option<nat>)

  datatype Chunking = Chunked(chunks: seq<Chunk>) | ValueError

  /** The last newline in `text[lo..hi]`. */
  function LastNewline(text: string, lo: nat, hi: nat): (r: Option<nat>)
    requires hi <= |text|
    ensures r.Some? ==> lo <= r.value < hi && text[r.value] == '\n'
    ensures forall i: nat :: (if r.Some? then r.value + 1 else lo) <= i < hi ==> text[i] != '\n'
    decreases hi
  {
    if hi <= lo then None
    else if text[hi - 1] == '\n' then Some(hi - 1)
    else LastNewline(text, lo, hi - 1)
  }

  /** Where the chunk that starts at `start` is cut: after the last newline of its second half, the
      character at the limit included, or at the limit. */
  function Cut(text: string, start: nat, max: nat): (cut: nat)
    requires 0 < max && start + max < |text|
    ensures start < cut <= start + max + 1
    ensures start + max / 2 < cut
  {
    match LastNewline(text, start + max / 2, start + max + 1)
    case None => start + max
    case Some(i) => i + 1
  }

  function ChunkSpans(text: string, start: nat, max: nat): (r: seq<(nat, nat)>)
    requires 0 < max && start <= |text|
    ensures forall k :: 0 <= k < |r| ==> r[k].0 <= r[k].1 <= |text|
    decreases |text| - start
  {
    if |text| - start > max then [(start, Cut(text, start, max))] + ChunkSpans(text, Cut(text, start, max), max)
    else [(start, |text|)]
  }

  function Shift(base: Option<nat>, offset: nat): Option<nat> {
    match base
    case None => None
    case Some(b) => Some(b + offset)
  }

  function ChunkOf(s: Section, spans: seq<(nat, nat)>, k: nat): Chunk
    requires k < |spans| && spans[k].0 <= spans[k].1 <= |s.body|
  {
    Chunk(s.number, s.title, k, |spans|, s.body[spans[k].0..spans[k].1],
          Shift(s.charStart, spans[k].0), Shift(s.charStart, spans[k].1))
  }

  /** Spans that start at `from`, follow on from each other and end with the text. */
  ghost predicate TilesFrom(spans: seq<(nat, nat)>, from: nat, length: nat) {
    && spans != [] && spans[0].0 == from && spans[|spans| - 1].1 == length
    && (forall i :: 0 <= i < |spans| ==> spans[i].0 <= spans[i].1 <= length)
    && (forall i :: 0 <= i < |spans| - 1 ==> spans[i].1 == spans[i + 1].0)
  }

  lemma {:induction false} ChunkSpansTile(text: string, start: nat, max: nat)
    requires 0 < max && start <= |text|
    ensures TilesFrom(ChunkSpans(text, start, max), start, |text|)
    decreases |text| - start
  {
    if |text| - start > max {
      ChunkSpansTile(text, Cut(text, start, max), max);
    }
  }

  /** A chunk from `s` to `e` ends after the last newline of its second half, the character at the limit included,
      or at the limit when there is none. */
  ghost predicate CutWell(text: string, s: nat, e: nat, max: nat) {
    && s < e && s + max < |text|
    && (if exists i :: s + max / 2 <= i <= s + max && text[i] == '\n'
        then s + max / 2 < e <= s + max + 1 && text[e - 1] == '\n'
             && forall i :: e <= i <= s + max ==> text[i] != '\n'
        else e == s + max)
  }

  lemma CutIsWell(text: string, start: nat, max: nat)
    requires 0 < max && start + max < |text|
    ensures CutWell(text, start, Cut(text, start, max), max)
  {
  }

  /** Every chunk but the last is cut there, and the last is no longer than the limit. */
  lemma {:induction false} CutsExactly(text: string, start: nat, max: nat, k: nat)
    requires 0 < max && start <= |text| && k < |ChunkSpans(text, start, max)|
    ensures var spans := ChunkSpans(text, start, max);
            if k < |spans| - 1 then CutWell(text, spans[k].0, spans[k].1, max)
            else spans[k].1 == |text| && |text| <= spans[k].0 + max
    decreases |text| - start
  {
    if |text| - start > max {
      CutIsWell(text, start, max);
      hide Cut, CutWell;
      if k > 0 {
        CutsExactly(text, Cut(text, start, max), max, k - 1);
      } else {
        assert |ChunkSpans(text, Cut(text, start, max), max)| > 0 by {
          ChunkSpansTile(text, Cut(text, start, max), max);
        }
      }
    }
  }

  method CutSpans(text: string, max: nat) returns (spans: seq<(nat, nat)>)
    requires max > 0
    ensures spans == ChunkSpans(text, 0, max)
  {
    hide Cut;
    spans := [];
    var start := 0;
    while |text| - start > max
      invariant start <= |text|
      invariant spans + ChunkSpans(text, start, max) == ChunkSpans(text, 0, max)
      decreases |text| - start
    {
      var cut := Cut(text, start, max);
      assert spans + ([(start, cut)] + ChunkSpans(text, cut, max))
             == (spans + [(start, cut)]) + ChunkSpans(text, cut, max);
      spans := spans + [(start, cut)];
      start := cut;
    }
    spans := spans + [(start, |text|)];
  }

  function Chunks(section: Section, max: nat): seq<Chunk>
    requires max > 0
  {
    var spans := ChunkSpans(section.body, 0, max);
    seq(|spans|, k requires 0 <= k < |spans| => ChunkOf(section, spans, k))
  }

  method ChunkSection(section: Section, max: int) returns (r: Chunking)
    ensures r == if max <= 0 then ValueError else Chunked(Chunks(section, max))
  {
    if max <= 0 {
      return ValueError;
    }
    var spans := CutSpans(section.body, max);
    r := Chunked(seq(|spans|, k requires 0 <= k < |spans| => ChunkOf(section, spans, k)));
  }

  function Concat(bodies: seq<string>): string {
    if bodies == [] then "" else bodies[0] + Concat(bodies[1..])
  }

  function Bodies(chunks: seq<Chunk>): seq<string> {
    seq(|chunks|, k requires 0 <= k < |chunks| => chunks[k].body)
  }

  function Slices(text: string, spans: seq<(nat, nat)>): seq<string>
    requires forall i :: 0 <= i < |spans| ==> spans[i].0 <= spans[i].1 <= |text|
  {
    seq(|spans|, k requires 0 <= k < |spans| => text[spans[k].0..spans[k].1])
  }

  lemma {:induction false} SlicesConcat(text: string, start: nat, max: nat)
    requires 0 < max && start <= |text|
    ensures Concat(Slices(text, ChunkSpans(text, start, max))) == text[start..]
    decreases |text| - start
  {
    hide Cut;
    if |text| - start > max {
      var cut := Cut(text, start, max);
      var rest := ChunkSpans(text, cut, max);
      SlicesConcat(text, cut, max);
      assert Slices(text, [(start, cut)] + rest)[1..] == Slices(text, rest);
      assert text[start..] == text[start..cut] + text[cut..];
    } else {
      assert Slices(text, [(start, |text|)])[1..] == [];
    }
  }

  /** Nothing is lost or repeated: a section's chunks, joined, are its body. */
  lemma ChunksLossless(section: Section, max: nat)
    requires max > 0
    ensures Concat(Bodies(Chunks(section, max))) == section.body
  {
    SlicesConcat(section.body, 0, max);
    assert Bodies(Chunks(section, max)) == Slices(section.body, ChunkSpans(section.body, 0, max));
  }

  /** Every chunk keeps the limit, but for one more character when a newline sits exactly at it; every
      chunk but the last is more than half full, and a chunk cut short ends with a newline. */
  lemma {:induction false} ChunkSizes(text: string, start: nat, max: nat, k: nat)
    requires 0 < max && start <= |text| && k < |ChunkSpans(text, start, max)|
    ensures var (lo, hi) := ChunkSpans(text, start, max)[k];
            && lo <= hi <= |text| && hi - lo <= max + 1
            && (hi - lo == max + 1 ==> text[hi - 1] == '\n')
            && (k < |ChunkSpans(text, start, max)| - 1 ==>
                  hi - lo > max / 2 && (hi - lo < max ==> text[hi - 1] == '\n'))
    decreases |text| - start
  {
    if |text| - start > max && k > 0 {
      ChunkSizes(text, Cut(text, start, max), max, k - 1);
    }
  }

  // --- citations ---

  /** Where a citation taken from a chunk is recorded in the document. */
  function CitationOffsets(chunk: Chunk, quote: string): (Option<nat>, Option<nat>) {
    match (chunk.charStart, Citations.Find(chunk.body, quote))
    case (Some(base), Some(i)) => (Some(base + i), Some(base + i + |quote|))
    case _ => (None, None)
  }

  lemma SubSlice(text: string, base: nat, body: string, lo: nat, hi: nat)
    requires base + |body| <= |text| && text[base..base + |body|] == body && lo <= hi <= |body|
    ensures text[base + lo..base + hi] == body[lo..hi]
  {
    forall k | lo <= k < hi ensures text[base + k] == body[k] {
      assert text[base..base + |body|][k] == body[k];
    }
  }

  /** A chunk's offsets point at its own text. */
  lemma ChunkInDocument(text: string, section: Section, max: nat, k: nat)
    requires Faithful(text, section) && max > 0 && k < |Chunks(section, max)|
    ensures var chunk := Chunks(section, max)[k];
            && chunk.sectionNumber == section.number && chunk.title == section.title
            && chunk.index == k && chunk.count == |Chunks(section, max)|
            && (chunk.charStart.Some? <==> section.charStart.Some?)
            && (chunk.charStart.Some? ==>
                  chunk.charEnd.Some?
                  && chunk.charStart.value <= chunk.charEnd.value <= |text|
                  && text[chunk.charStart.value..chunk.charEnd.value] == chunk.body)
  {
    var (lo, hi) := ChunkSpans(section.body, 0, max)[k];
    if section.charStart.Some? {
      SubSlice(text, section.charStart.value, section.body, lo, hi);
    }
  }

  /** Slicing the document at a stored citation's offsets gives exactly the quote; offsets are stored
      whenever the section is located and the chunk contains the quote. */
  lemma CitationSlice(text: string, section: Section, max: nat, k: nat, quote: string)
    requires Faithful(text, section) && max > 0 && k < |Chunks(section, max)|
    ensures var chunk := Chunks(section, max)[k];
            var (start, end) := CitationOffsets(chunk, quote);
            && (start.Some? <==> end.Some?)
            && (start.Some? <==> section.charStart.Some? && exists i: nat :: Citations.OccursAt(chunk.body, quote, i))
            && (start.Some? ==> start.value <= end.value <= |text| && text[start.value..end.value] == quote)
  {
    ChunkInDocument(text, section, max, k);
    var chunk := Chunks(section, max)[k];
    hide *;
    CitationInChunk(text, chunk, quote);
  }

  lemma CitationInChunk(text: string, chunk: Chunk, quote: string)
    requires chunk.charStart.Some? ==>
               chunk.charStart.value + |chunk.body| <= |text|
               && text[chunk.charStart.value..chunk.charStart.value + |chunk.body|] == chunk.body
    ensures var (start, end) := CitationOffsets(chunk, quote);
            && (start.Some? <==> end.Some?)
            && (start.Some? <==> chunk.charStart.Some? && exists i: nat :: Citations.OccursAt(chunk.body, quote, i))
            && (start.Some? ==> start.value <= end.value <= |text| && text[start.value..end.value] == quote)
  {
    var found := Citations.Find(chunk.body, quote);
    if found.Some? {
      assert Citations.OccursAt(chunk.body, quote, found.value);
      if chunk.charStart.Some? {
        SubSlice(text, chunk.charStart.value, chunk.body, found.value, found.value + |quote|);
      }
    }
  }
}
