/** The comparison of one aligned section pair (packages/diff_engine/obligation_diff.py). */
module ObligationDiff {
  import opened GreedyPairs
  import opened Matching
  import opened Materiality
  import opened Options
  import opened SelfMatching
  import opened SemanticDiff
  import opened Severity
  import opened Sorting
  import opened Titles
  import Sections
  import Wording

  const OBLIGATION_TAU := 0.72
  const COVERAGE_FLOOR := 0.8
  const RENUMBERED_BODY_STABILITY_FLOOR := 0.85

  type Section = Sections.Section

  /** The readers of field values, the cleaning of body text, and the words that mark a high risk. */
  datatype Settings = Settings(reader: Reader, clean: string -> string, risky: string -> bool) {
    function Alphabet(): Titles.Alphabet {
      reader.alphabet
    }
  }

  function Ratio(k: real, d: real): real
    requires d > 0.0
  {
    k / d
  }

  datatype ObligationCompare = ObligationCompare(
    nOld: nat, nNew: nat, nMatched: nat, fieldDeltas: set<Field>, created: nat, removed: nat,
    maxMateriality: Level, reasons: seq<Reason>)
  {
    /** The part of the larger side that found a partner. */
    function CoverageRatio(): real {
      var denominator := if nOld < nNew then nNew else nOld;
      if denominator == 0 then 0.0 else Ratio(nMatched as real, denominator as real)
    }

    predicate HasFieldDelta() {
      fieldDeltas != {} && CoverageRatio() >= COVERAGE_FLOOR
    }
  }

  function ObligationText(s: Settings, o: ObligationFields): string {
    Strip(s.Alphabet().blank, o.normalizedObligation + " " + Given(o.action) + " " + Given(o.object_))
  }

  function Texts(s: Settings, os: seq<ObligationFields>): (ts: seq<string>)
    ensures |ts| == |os|
  {
    seq(|os|, i requires 0 <= i < |os| => ObligationText(s, os[i]))
  }

  /** What the matched pairs have shown so far. */
  datatype Delta = Delta(fields: set<Field>, level: Level, reasons: seq<Reason>)

  function PairVerdict(s: Settings, before: ObligationFields, after: ObligationFields): MaterialityVerdict {
    Assessed(s.reader, ChangeVerdict(Modified, ChangedFields(s.reader, before, after)), Some(before), Some(after))
  }

  function AddPair(s: Settings, d: Delta, before: ObligationFields, after: ObligationFields): Delta {
    var changed := ChangedFields(s.reader, before, after);
    if changed == [] then d
    else
      var m := PairVerdict(s, before, after);
      Delta(d.fields + FieldSet(changed), Max(d.level, m.level), d.reasons + m.reasons)
  }

  ghost predicate InRange(os: seq<ObligationFields>, ns: seq<ObligationFields>, es: seq<Edge>) {
    forall k :: 0 <= k < |es| ==> es[k].left < |os| && es[k].right < |ns|
  }

  function Deltas(s: Settings, os: seq<ObligationFields>, ns: seq<ObligationFields>, es: seq<Edge>): Delta
    requires InRange(os, ns, es)
  {
    if es == [] then Delta({}, NoChange, [])
    else
      var e := es[|es| - 1];
      AddPair(s, Deltas(s, os, ns, es[..|es| - 1]), os[e.left], ns[e.right])
  }

  function Comparison(s: Settings, os: seq<ObligationFields>, ns: seq<ObligationFields>,
                      a: Assignment): ObligationCompare
    requires InRange(os, ns, Edges(a.pairs))
  {
    var d := Deltas(s, os, ns, Edges(a.pairs));
    ObligationCompare(|os|, |ns|, |a.pairs|, d.fields, |a.unmatchedNew|, |a.unmatchedOld|, d.level, d.reasons)
  }

  /** `a` is a best matching of the two lists by obligation text. */
  ghost predicate Paired(s: Settings, os: seq<ObligationFields>, ns: seq<ObligationFields>, tau: real, a: Assignment) {
    Assigned(Texts(s, os), Texts(s, ns), Lexical(s.Alphabet()), tau, a)
  }

  /** ... with ties broken by the smallest indices. */
  ghost predicate PairedFirst(s: Settings, os: seq<ObligationFields>, ns: seq<ObligationFields>, tau: real,
                              a: Assignment) {
    AssignedFirst(Texts(s, os), Texts(s, ns), Lexical(s.Alphabet()), tau, a)
  }

  lemma PairedInRange(s: Settings, os: seq<ObligationFields>, ns: seq<ObligationFields>, tau: real, a: Assignment)
    requires Paired(s, os, ns, tau, a)
    ensures InRange(os, ns, Edges(a.pairs)) && |Edges(a.pairs)| == |a.pairs|
  {
    AssignedPartition(Texts(s, os), Texts(s, ns), Lexical(s.Alphabet()), tau, a);
    hide Assigned, Edges, Texts;
    EdgesOf(a.pairs, 0);
  }

  method CompareObligations(s: Settings, os: seq<ObligationFields>, ns: seq<ObligationFields>, tau: real)
    returns (result: ObligationCompare, ghost a: Assignment)
    ensures Paired(s, os, ns, tau, a) && InRange(os, ns, Edges(a.pairs)) && PairedFirst(s, os, ns, tau, a)
    ensures result == Comparison(s, os, ns, a)
  {
    hide Assigned, AssignedFirst, Texts, Edges, Deltas, Others;
    a := Assignment([], Others(|os|, {}), Others(|ns|, {}));
    if os == [] || ns == [] {
      NothingAssigned(Texts(s, os), Texts(s, ns), Lexical(s.Alphabet()), tau);
      PairedInRange(s, os, ns, tau, a);
      NothingCompared(s, os, ns);
      result := ObligationCompare(|os|, |ns|, 0, {}, |ns|, |os|, NoChange, []);
      return;
    }
    var assignment := MatchTexts(Texts(s, os), Texts(s, ns), tau, Lexical(s.Alphabet()));
    a := assignment;
    PairedInRange(s, os, ns, tau, a);
    var d := CollectDeltas(s, os, ns, assignment.pairs);
    result := ObligationCompare(|os|, |ns|, |assignment.pairs|, d.fields, |assignment.unmatchedNew|,
                                |assignment.unmatchedOld|, d.level, d.reasons);
  }

  lemma NothingCompared(s: Settings, os: seq<ObligationFields>, ns: seq<ObligationFields>)
    ensures Edges([]) == [] && Deltas(s, os, ns, []) == Delta({}, NoChange, [])
    ensures |Others(|os|, {})| == |os| && |Others(|ns|, {})| == |ns|
  {
    OthersCount(|os|, {});
    OthersCount(|ns|, {});
  }

  method CollectDeltas(s: Settings, os: seq<ObligationFields>, ns: seq<ObligationFields>, pairs: seq<Pair>)
    returns (d: Delta)
    requires InRange(os, ns, Edges(pairs))
    ensures d == Deltas(s, os, ns, Edges(pairs))
  {
    hide Assessed;
    ghost var es := Edges(pairs);
    d := Delta({}, NoChange, []);
    for k := 0 to |pairs|
      invariant d == Deltas(s, os, ns, es[..k])
    {
      assert es[k] == pairs[k].edge && es[..k + 1][..k] == es[..k];
      var before, after := os[pairs[k].edge.left], ns[pairs[k].edge.right];
      var changed := DiffFields(s.reader, before, after);
      var verdict := ChangeVerdict(Modified, changed);
      if verdict.IsSubstantive() {
        var m := AssessMateriality(s.reader, verdict, Some(before), Some(after));
        d := Delta(d.fields + FieldSet(changed), Max(d.level, m.level), d.reasons + m.reasons);
      }
    }
    assert es[..|pairs|] == es;
  }

  // --- what a comparison says ---

  /** Some matched pair differs in `f`. */
  ghost predicate SomeDiffers(s: Settings, os: seq<ObligationFields>, ns: seq<ObligationFields>, es: seq<Edge>,
                              f: Field)
    requires InRange(os, ns, es)
  {
    exists k :: 0 <= k < |es| && Differs(s.reader, os[es[k].left], ns[es[k].right], f)
  }

  /** The field deltas are the fields in which some matched pair differs. */
  lemma {:induction false} DeltaFields(s: Settings, os: seq<ObligationFields>, ns: seq<ObligationFields>, es: seq<Edge>,
                                       f: Field)
    requires InRange(os, ns, es)
    ensures f in Deltas(s, os, ns, es).fields <==> SomeDiffers(s, os, ns, es, f)
  {
    hide Differs, AddPair, SomeDiffers;
    if es == [] {
      assert !SomeDiffers(s, os, ns, es, f) by { NoneDiffer(s, os, ns, f); }
    } else {
      var t, e := es[..|es| - 1], es[|es| - 1];
      assert es == t + [e];
      DeltaFields(s, os, ns, t, f);
      SomeDiffersSnoc(s, os, ns, t, e, f);
      AddPairFields(s, Deltas(s, os, ns, t), os[e.left], ns[e.right], f);
    }
  }

  lemma NoneDiffer(s: Settings, os: seq<ObligationFields>, ns: seq<ObligationFields>, f: Field)
    ensures !SomeDiffers(s, os, ns, [], f)
  {
  }

  lemma SomeDiffersSnoc(s: Settings, os: seq<ObligationFields>, ns: seq<ObligationFields>, t: seq<Edge>, e: Edge,
                        f: Field)
    requires InRange(os, ns, t + [e]) && InRange(os, ns, t) && e.left < |os| && e.right < |ns|
    ensures SomeDiffers(s, os, ns, t + [e], f) <==>
            SomeDiffers(s, os, ns, t, f) || Differs(s.reader, os[e.left], ns[e.right], f)
  {
    hide Differs;
    var es := t + [e];
    assert es[|t|] == e;
    if SomeDiffers(s, os, ns, t, f) {
      var k :| 0 <= k < |t| && Differs(s.reader, os[t[k].left], ns[t[k].right], f);
      assert es[k] == t[k];
    }
  }

  lemma AddPairFields(s: Settings, d: Delta, before: ObligationFields, after: ObligationFields, f: Field)
    ensures f in AddPair(s, d, before, after).fields <==> f in d.fields || Differs(s.reader, before, after, f)
  {
    hide Differs, PairVerdict, Max;
  }

  /** The materiality is that of the most material matched pair. */
  lemma {:induction false} DeltaLevel(s: Settings, os: seq<ObligationFields>, ns: seq<ObligationFields>, es: seq<Edge>,
                                      l: Level)
    requires InRange(os, ns, es)
    ensures Rank(Deltas(s, os, ns, es).level) >= Rank(l) <==>
            l == NoChange
            || exists k :: 0 <= k < |es| && Rank(PairLevel(s.reader, os[es[k].left], ns[es[k].right])) >= Rank(l)
  {
    hide PairLevel, AddPair;
    if es == [] {
    } else {
      var t, e := es[..|es| - 1], es[|es| - 1];
      assert forall k :: 0 <= k < |t| ==> t[k] == es[k];
      DeltaLevel(s, os, ns, t, l);
      AddPairLevel(s, Deltas(s, os, ns, t), os[e.left], ns[e.right]);
    }
  }

  lemma AddPairLevel(s: Settings, d: Delta, before: ObligationFields, after: ObligationFields)
    ensures AddPair(s, d, before, after).level == Max(d.level, PairLevel(s.reader, before, after))
  {
    UnchangedLevel(s, before, after);
    hide PairLevel, PairVerdict, ChangedFields, FieldSet;
  }

  lemma UnchangedLevel(s: Settings, before: ObligationFields, after: ObligationFields)
    ensures ChangedFields(s.reader, before, after) == [] ==> PairLevel(s.reader, before, after) == NoChange
    ensures PairVerdict(s, before, after).level == PairLevel(s.reader, before, after)
  {
    hide ModifiedReasons;
  }

  /** Both sides are accounted for, and the ratio is a ratio. */
  lemma ComparisonCounts(s: Settings, os: seq<ObligationFields>, ns: seq<ObligationFields>, tau: real, a: Assignment)
    requires Paired(s, os, ns, tau, a) && InRange(os, ns, Edges(a.pairs))
    ensures var r := Comparison(s, os, ns, a);
            && r.nMatched + r.removed == |os| && r.nMatched + r.created == |ns|
            && 0.0 <= r.CoverageRatio() <= 1.0
            && (r.HasFieldDelta() ==>
                  r.removed as real <= 0.2 * |os| as real && r.created as real <= 0.2 * |ns| as real)
  {
    AssignedPartition(Texts(s, os), Texts(s, ns), Lexical(s.Alphabet()), tau, a);
    PairedInRange(s, os, ns, tau, a);
    hide Assigned, Edges, Deltas, Others, Ratio;
    var r := Comparison(s, os, ns, a);
    var d := if r.nOld < r.nNew then r.nNew else r.nOld;
    if d > 0 {
      RatioBounds(r.nMatched, d);
    }
  }

  lemma QuotientOrder(q: real, x: real, k: real, bound: real)
    requires x > 0.0 && q * x == k
    ensures q >= bound <==> k >= bound * x
    ensures q <= bound <==> k <= bound * x
  {
    assert (q - bound) * x == k - bound * x;
  }

  lemma RatioOrder(k: real, d: real, bound: real)
    requires d > 0.0
    ensures Ratio(k, d) >= bound <==> k >= bound * d
    ensures Ratio(k, d) <= bound <==> k <= bound * d
  {
    assert k / d * d == k;
    QuotientOrder(k / d, d, k, bound);
  }

  lemma RatioBounds(k: nat, d: nat)
    requires k <= d && d > 0
    ensures 0.0 <= Ratio(k as real, d as real) <= 1.0
    ensures Ratio(k as real, d as real) >= 0.8 <==> k as real >= 0.8 * d as real
  {
    hide Ratio;
    RatioOrder(k as real, d as real, 0.0);
    RatioOrder(k as real, d as real, 1.0);
    RatioOrder(k as real, d as real, 0.8);
  }

  // --- comparing a list with itself ---

  /** Obligations whose texts cannot be told apart agree in every field. */
  ghost predicate NoLookalikes(s: Settings, os: seq<ObligationFields>) {
    forall i, j, f :: 0 <= i < |os| && 0 <= j < |os|
                      && Alike(s.Alphabet(), ObligationText(s, os[i]), ObligationText(s, os[j]))
                      ==> !Differs(s.reader, os[i], os[j], f)
  }

  /** The solver's contract alone does not settle what comparing an unchanged list shows: it excludes a trusted
      delta exactly when no two obligations read the same and differ, since a cheapest matching may cross those. */
  lemma SelfComparison(s: Settings, os: seq<ObligationFields>, tau: real)
    requires 0.0 <= tau < 1.0
    ensures NoLookalikes(s, os) <==>
            forall a :: Paired(s, os, os, tau, a) && InRange(os, os, Edges(a.pairs)) ==>
                          !Comparison(s, os, os, a).HasFieldDelta()
  {
    hide Paired, Comparison, InRange, Edges;
    if NoLookalikes(s, os) {
      forall a | Paired(s, os, os, tau, a) && InRange(os, os, Edges(a.pairs))
        ensures !Comparison(s, os, os, a).HasFieldDelta()
      {
        SelfAgrees(s, os, tau, a);
      }
    } else {
      var i, j, f :| 0 <= i < |os| && 0 <= j < |os|
                     && Alike(s.Alphabet(), ObligationText(s, os[i]), ObligationText(s, os[j]))
                     && Differs(s.reader, os[i], os[j], f);
      var a := CrossedDelta(s, os, tau, i, j, f);
    }
  }

  /** Breaking ties by the smallest indices settles it: nothing is crossed, and there is no delta. */
  lemma SelfComparisonFirst(s: Settings, os: seq<ObligationFields>, tau: real, a: Assignment)
    requires 0.0 <= tau < 1.0 && PairedFirst(s, os, os, tau, a) && InRange(os, os, Edges(a.pairs))
    ensures Comparison(s, os, os, a).fieldDeltas == {}
  {
    SelfFirst(s.Alphabet(), Texts(s, os), tau, a);
    hide AssignedFirst, ObligationText, Deltas, Norm, NormSet;
    var es := Edges(a.pairs);
    forall f ensures f !in Deltas(s, os, os, es).fields {
      DeltaFields(s, os, os, es, f);
      forall k | 0 <= k < |es| ensures es[k] == Edge(k, k) {
        EdgesOf(a.pairs, k);
      }
    }
  }

  /** Two obligations that read the same and differ in their deadline. */
  function Report(deadline: Option<string>): ObligationFields {
    ObligationFields("report", None, None, None, [], [], None, deadline, None, None, [], None)
  }

  lemma DeadlineDiffers(s: Settings)
    requires s.Alphabet() == Ascii()
    ensures Differs(s.reader, Report(None), Report(Some("t")), Deadline)
  {
    var a := Ascii();
    assert "t"[..0] == "" && "t"[|"t"| - 1] == 't';
    assert Collapse(a, "t") == Collapse(a, "") + ['t'] == "t";
    assert Strip(a.blank, "t") == "t";
    assert Wording.Expand(a.casefold, "t") == Wording.Expand(a.casefold, "") + AsciiLower('t') == "t";
    assert Norm(s.reader, "") == "";
  }

  /** Such a list may show a trusted delta against itself by the contract alone, and does not under the
      tie-break. */
  lemma CrossedWitness(s: Settings) returns (a: Assignment)
    requires s.Alphabet() == Ascii()
    ensures var os := [Report(None), Report(Some("t"))];
            && Paired(s, os, os, OBLIGATION_TAU, a) && InRange(os, os, Edges(a.pairs))
            && Comparison(s, os, os, a).HasFieldDelta()
            && !PairedFirst(s, os, os, OBLIGATION_TAU, a)
  {
    var os := [Report(None), Report(Some("t"))];
    assert ObligationText(s, os[0]) == ObligationText(s, os[1]);
    AlikeEquivalence(s.Alphabet(), ObligationText(s, os[0]), ObligationText(s, os[1]));
    DeadlineDiffers(s);
    hide *;
    a := CrossedDelta(s, os, OBLIGATION_TAU, 0, 1, Deadline);
    NotFirst(s, os, a);
  }

  lemma NotFirst(s: Settings, os: seq<ObligationFields>, a: Assignment)
    requires InRange(os, os, Edges(a.pairs)) && Comparison(s, os, os, a).HasFieldDelta()
    ensures !PairedFirst(s, os, os, OBLIGATION_TAU, a)
  {
    hide Comparison, PairedFirst, InRange, Edges;
    if PairedFirst(s, os, os, OBLIGATION_TAU, a) {
      SelfComparisonFirst(s, os, OBLIGATION_TAU, a);
    }
  }

  lemma SelfAgrees(s: Settings, os: seq<ObligationFields>, tau: real, a: Assignment)
    requires 0.0 <= tau < 1.0 && NoLookalikes(s, os)
    requires Paired(s, os, os, tau, a) && InRange(os, os, Edges(a.pairs))
    ensures Comparison(s, os, os, a).fieldDeltas == {}
  {
    SelfAssigned(s.Alphabet(), Texts(s, os), tau, a);
    hide Assigned, Alike, Differs, ObligationText, Deltas;
    var es := Edges(a.pairs);
    forall f ensures !SomeDiffers(s, os, os, es, f) {
      forall k | 0 <= k < |es| ensures !Differs(s.reader, os[es[k].left], os[es[k].right], f) {
        EdgesOf(a.pairs, k);
      }
    }
    forall f ensures f !in Deltas(s, os, os, es).fields {
      DeltaFields(s, os, os, es, f);
    }
  }

  lemma CrossedDelta(s: Settings, os: seq<ObligationFields>, tau: real, i: nat, j: nat, f: Field)
    returns (a: Assignment)
    requires 0.0 <= tau < 1.0 && i < |os| && j < |os| && Differs(s.reader, os[i], os[j], f)
    requires Alike(s.Alphabet(), ObligationText(s, os[i]), ObligationText(s, os[j]))
    ensures Paired(s, os, os, tau, a) && InRange(os, os, Edges(a.pairs))
    ensures Comparison(s, os, os, a).HasFieldDelta()
  {
    TextsAt(s, os, i);
    TextsAt(s, os, j);
    hide *;
    a := CrossedAssigned(s.Alphabet(), Texts(s, os), tau, i, j);
    CrossedPaired(s, os, tau, a);
    DeltaShown(s, os, a, i, j, f);
  }

  lemma TextsAt(s: Settings, os: seq<ObligationFields>, i: nat)
    requires i < |os|
    ensures Texts(s, os)[i] == ObligationText(s, os[i])
  {
  }

  lemma CrossedPaired(s: Settings, os: seq<ObligationFields>, tau: real, a: Assignment)
    requires Assigned(Texts(s, os), Texts(s, os), Lexical(s.Alphabet()), tau, a)
    ensures Paired(s, os, os, tau, a) && InRange(os, os, Edges(a.pairs))
  {
    hide Assigned, Texts, InRange, Edges;
    PairedInRange(s, os, os, tau, a);
  }

  lemma DeltaShown(s: Settings, os: seq<ObligationFields>, a: Assignment, i: nat, j: nat, f: Field)
    requires InRange(os, os, Edges(a.pairs)) && |a.pairs| == |os| && i < |os| && j < |os|
    requires a.pairs[i].edge == Edge(i, j) && Differs(s.reader, os[i], os[j], f)
    ensures Comparison(s, os, os, a).HasFieldDelta()
  {
    EdgesOf(a.pairs, i);
    hide Differs, Deltas, Edges, FieldSet, Ratio;
    assert SomeDiffers(s, os, os, Edges(a.pairs), f);
    DeltaFields(s, os, os, Edges(a.pairs), f);
    RatioBounds(|os|, |os|);
  }

  // --- the section pair ---

  datatype ChangeRow = ChangeRow(
    kind: ChangeKind, title: string, changedFields: set<Field>, oldNumber: Option<nat>, newNumber: Option<nat>,
    materiality: MaterialityVerdict, similarity: Option<real>, compare: Option<ObligationCompare>)
  {
    predicate RequiresConfirmation() {
      materiality.RequiresConfirmation()
    }
  }

  function FieldsFromSection(s: Settings, sec: Section, withRisk: bool): ObligationFields {
    var canon := CanonicalTitle(s.Alphabet(), sec.title);
    ObligationFields(canon, None, None, Some(canon), [], [], None, None, None, None, [],
                     if withRisk then Some(if s.risky(sec.title) then "high" else "medium") else None)
  }

  function SectionVerdict(s: Settings, was: Section, now: Section): ChangeVerdict {
    ChangeVerdict(Modified, ChangedFields(s.reader, FieldsFromSection(s, was, false), FieldsFromSection(s, now, false)))
  }

  /** What a change of title alone amounts to. */
  function TitleVerdict(s: Settings, was: Section, now: Section): MaterialityVerdict {
    Assessed(s.reader, SectionVerdict(s, was, now), Some(FieldsFromSection(s, was, false)),
             Some(FieldsFromSection(s, now, false)))
  }

  function BodySimilarity(s: Settings, was: Section, now: Section): real {
    LexicalSimilarity(s.Alphabet(), s.clean(was.body), s.clean(now.body))
  }

  predicate StableRenumbering(s: Settings, was: Section, now: Section) {
    && was.number != now.number
    && CanonicalTitle(s.Alphabet(), was.title) == CanonicalTitle(s.Alphabet(), now.title)
    && BodySimilarity(s, was, now) >= RENUMBERED_BODY_STABILITY_FLOOR
  }

  predicate Trusted(obl: Option<ObligationCompare>) {
    obl.Some? && obl.value.HasFieldDelta()
  }

  /** The row for a matched pair, given the comparison of its obligations if there was one. */
  function PairRow(s: Settings, was: Section, now: Section, similarity: real, obl: Option<ObligationCompare>)
    : Option<ChangeRow>
  {
    var verdict := SectionVerdict(s, was, now);
    if !verdict.IsSubstantive() && !(Trusted(obl) && !StableRenumbering(s, was, now)) then None
    else
      var own := if verdict.IsSubstantive() then TitleVerdict(s, was, now) else MaterialityVerdict(NoChange, []);
      var m := if Trusted(obl)
               then MaterialityVerdict(Max(own.level, obl.value.maxMateriality), own.reasons + obl.value.reasons)
               else own;
      var changed := if Trusted(obl) then FieldSet(verdict.changedFields) + obl.value.fieldDeltas
                     else FieldSet(verdict.changedFields);
      Some(ChangeRow(Modified, now.title, changed, Some(was.number), Some(now.number), m, Some(similarity), obl))
  }

  /** `obl` is a comparison the engine may make of the two lists; none is made when both are empty. */
  ghost predicate Compares(s: Settings, os: seq<ObligationFields>, ns: seq<ObligationFields>,
                           obl: Option<ObligationCompare>) {
    if os == [] && ns == [] then obl == None
    else exists a :: Paired(s, os, ns, 0.72, a) && InRange(os, ns, Edges(a.pairs))
                     && obl == Some(Comparison(s, os, ns, a))
  }

  /** ... the one that breaking ties by the smallest indices gives. */
  ghost predicate ComparesFirst(s: Settings, os: seq<ObligationFields>, ns: seq<ObligationFields>,
                                obl: Option<ObligationCompare>) {
    if os == [] && ns == [] then obl == None
    else exists a :: PairedFirst(s, os, ns, 0.72, a) && InRange(os, ns, Edges(a.pairs))
                     && obl == Some(Comparison(s, os, ns, a))
  }

  lemma SelfComparesFirst(s: Settings, os: seq<ObligationFields>, obl: Option<ObligationCompare>)
    requires ComparesFirst(s, os, os, obl)
    ensures !Trusted(obl)
  {
    hide PairedFirst, Comparison, InRange, Edges;
    if os != [] {
      var a :| PairedFirst(s, os, os, OBLIGATION_TAU, a) && InRange(os, os, Edges(a.pairs))
               && obl == Some(Comparison(s, os, os, a));
      SelfComparisonFirst(s, os, OBLIGATION_TAU, a);
    }
  }

  /** Of the comparisons an unchanged list may get, one shows a trusted delta if any does. */
  lemma SelfCompares(s: Settings, os: seq<ObligationFields>) returns (obl: Option<ObligationCompare>)
    ensures Compares(s, os, os, obl)
    ensures Trusted(obl) <==> !NoLookalikes(s, os)
  {
    hide Paired, Comparison, InRange, Edges, Alike, Differs, ObligationText;
    if os == [] {
      obl := None;
    } else if NoLookalikes(s, os) {
      AlikeEquivalence(s.Alphabet(), Texts(s, os)[0], Texts(s, os)[0]);
      var a := CrossedAssigned(s.Alphabet(), Texts(s, os), OBLIGATION_TAU, 0, 0);
      CrossedPaired(s, os, OBLIGATION_TAU, a);
      SelfAgrees(s, os, OBLIGATION_TAU, a);
      obl := Some(Comparison(s, os, os, a));
    } else {
      var i, j, f :| 0 <= i < |os| && 0 <= j < |os|
                     && Alike(s.Alphabet(), ObligationText(s, os[i]), ObligationText(s, os[j]))
                     && Differs(s.reader, os[i], os[j], f);
      var a := CrossedDelta(s, os, OBLIGATION_TAU, i, j, f);
      obl := Some(Comparison(s, os, os, a));
    }
  }

  /** ... and none does when its look-alikes agree. */
  lemma SelfComparesSilent(s: Settings, os: seq<ObligationFields>, obl: Option<ObligationCompare>)
    requires Compares(s, os, os, obl) && NoLookalikes(s, os)
    ensures !Trusted(obl)
  {
    hide Paired, Comparison, InRange, Edges, NoLookalikes;
    if os != [] {
      var a :| Paired(s, os, os, OBLIGATION_TAU, a) && InRange(os, os, Edges(a.pairs))
        && obl == Some(Comparison(s, os, os, a));
      SelfAgrees(s, os, OBLIGATION_TAU, a);
    }
  }

  method DiffPair(s: Settings, was: Section, now: Section, similarity: real, oldObls: seq<ObligationFields>,
                  newObls: seq<ObligationFields>)
    returns (row: Option<ChangeRow>, ghost compare: Option<ObligationCompare>)
    ensures Compares(s, oldObls, newObls, compare) && ComparesFirst(s, oldObls, newObls, compare)
    ensures row == PairRow(s, was, now, similarity, compare)
  {
    hide ChangedFields, Assessed, Paired, PairedFirst, Comparison, InRange, Edges, CanonicalTitle, BodySimilarity;
    var ofOld, ofNew := FieldsFromSection(s, was, false), FieldsFromSection(s, now, false);
    var changedFields := DiffFields(s.reader, ofOld, ofNew);
    var verdict := ChangeVerdict(Modified, changedFields);
    var own := MaterialityVerdict(NoChange, []);
    if verdict.IsSubstantive() {
      own := AssessMateriality(s.reader, verdict, Some(ofOld), Some(ofNew));
    }
    var obl: Option<ObligationCompare> := None;
    if oldObls != [] || newObls != [] {
      var o, a := CompareObligations(s, oldObls, newObls, OBLIGATION_TAU);
      obl := Some(o);
    }
    compare := obl;
    var flips := obl.Some? && obl.value.HasFieldDelta() && !StableRenumbering(s, was, now);
    if !verdict.IsSubstantive() && !flips {
      return None, compare;
    }
    var changed, m := FieldSet(verdict.changedFields), own;
    if obl.Some? && obl.value.HasFieldDelta() {
      changed := changed + obl.value.fieldDeltas;
      m := MaterialityVerdict(Max(own.level, obl.value.maxMateriality), own.reasons + obl.value.reasons);
    }
    row := Some(ChangeRow(Modified, now.title, changed, Some(was.number), Some(now.number), m, Some(similarity), obl));
  }

  function DiffCreated(s: Settings, now: Section): ChangeRow {
    var m := Assessed(s.reader, ChangeVerdict(Created, []), None, Some(FieldsFromSection(s, now, true)));
    ChangeRow(Created, now.title, {}, None, Some(now.number), m, None, None)
  }

  function DiffRemoved(s: Settings, was: Section): ChangeRow {
    var m := Assessed(s.reader, ChangeVerdict(Removed, []), Some(FieldsFromSection(s, was, true)), None);
    ChangeRow(Removed, was.title, {}, Some(was.number), None, m, None, None)
  }

  /** A section that came or went is always put up for confirmation. */
  lemma WholeSectionsConfirmed(s: Settings, sec: Section)
    ensures DiffCreated(s, sec).RequiresConfirmation() && DiffCreated(s, sec).kind == Created
    ensures DiffRemoved(s, sec).RequiresConfirmation() && DiffRemoved(s, sec).kind == Removed
  {
    hide HighRisk, FieldsFromSection;
  }

  // --- when a pair is reported ---

  lemma SectionTexts(s: Settings, sec: Section, f: Field)
    ensures var o := FieldsFromSection(s, sec, false);
            && ListOf(o, f) == []
            && TextOf(o, f) == if f in WORDING then CanonicalTitle(s.Alphabet(), sec.title) else ""
  {
    hide CanonicalTitle;
  }

  lemma TitleFields(s: Settings, was: Section, now: Section, f: Field)
    requires Proper(s.Alphabet())
    ensures Differs(s.reader, FieldsFromSection(s, was, false), FieldsFromSection(s, now, false), f) <==>
              f in WORDING && CanonicalTitle(s.Alphabet(), was.title) != CanonicalTitle(s.Alphabet(), now.title)
  {
    CanonicalIsNormal(s.Alphabet(), was.title);
    CanonicalIsNormal(s.Alphabet(), now.title);
    SectionTexts(s, was, f);
    SectionTexts(s, now, f);
    hide CanonicalTitle, NormText, FieldsFromSection, TextOf, ListOf, NormSet;
  }

  /** The section comparison is substantive exactly when the canonical titles differ. */
  lemma TitleDecides(s: Settings, was: Section, now: Section)
    requires Proper(s.Alphabet())
    ensures SectionVerdict(s, was, now).IsSubstantive() <==>
            CanonicalTitle(s.Alphabet(), was.title) != CanonicalTitle(s.Alphabet(), now.title)
    ensures SectionVerdict(s, was, now).IsSubstantive() ==>
              FieldSet(SectionVerdict(s, was, now).changedFields) == WORDING
  {
    var before, after := FieldsFromSection(s, was, false), FieldsFromSection(s, now, false);
    var changed := ChangedFields(s.reader, before, after);
    hide CanonicalTitle, Differs, FieldsFromSection, ChangedFields;
    forall f ensures f in changed <==>
                     f in WORDING && CanonicalTitle(s.Alphabet(), was.title) != CanonicalTitle(s.Alphabet(), now.title)
    {
      TitleFields(s, was, now, f);
    }
    if changed != [] {
      assert changed[0] in changed;
    } else {
      assert NormalizedObligation in WORDING && NormalizedObligation !in changed;
    }
  }

  lemma TitleIsLow(s: Settings, was: Section, now: Section)
    requires Proper(s.Alphabet()) && SectionVerdict(s, was, now).IsSubstantive()
    ensures TitleVerdict(s, was, now).level == Low
  {
    TitleDecides(s, was, now);
    hide CanonicalTitle, FieldsFromSection, ChangedFields, ModifiedReasons, Join;
    WordingLevel(s.reader, WORDING, FieldsFromSection(s, was, false), FieldsFromSection(s, now, false));
    assert NormalizedObligation in WORDING;
  }

  /** A pair is reported exactly when its canonical titles differ, or its obligations show a trusted field
      delta and it is not a stable renumbering.  Its level is LOW for the title and whatever the
      obligations add. */
  lemma PairReported(s: Settings, was: Section, now: Section, similarity: real, obl: Option<ObligationCompare>)
    requires Proper(s.Alphabet())
    ensures var titles := CanonicalTitle(s.Alphabet(), was.title) != CanonicalTitle(s.Alphabet(), now.title);
            var row := PairRow(s, was, now, similarity, obl);
            var stable := was.number != now.number && !titles
                          && LexicalSimilarity(s.Alphabet(), s.clean(was.body), s.clean(now.body)) >= 0.85;
            && (row.Some? <==> titles || (Trusted(obl) && !stable))
            && (row.Some? ==>
                  && row.value.kind == Modified && row.value.title == now.title
                  && row.value.oldNumber == Some(was.number) && row.value.newNumber == Some(now.number)
                  && row.value.similarity == Some(similarity) && row.value.compare == obl
                  && row.value.changedFields
                     == (if titles then WORDING else {}) + (if Trusted(obl) then obl.value.fieldDeltas else {})
                  && row.value.materiality.level
                     == Max(if titles then Low else NoChange,
                            if Trusted(obl) then obl.value.maxMateriality else NoChange))
  {
    TitleDecides(s, was, now);
    var verdict := SectionVerdict(s, was, now);
    assert verdict.IsSubstantive() ==> TitleVerdict(s, was, now).level == Low by {
      if verdict.IsSubstantive() { TitleIsLow(s, was, now); }
    }
    assert !verdict.IsSubstantive() ==> FieldSet(verdict.changedFields) == {};
    hide CanonicalTitle, LexicalSimilarity, ChangedFields, Assessed, FieldsFromSection, SectionVerdict, FieldSet;
  }

  /** Renumbering under the same title, with a body at least 0.85 alike, is never reported, whatever the
      obligation maps say. */
  lemma StableRenumberingSilent(s: Settings, was: Section, now: Section, similarity: real,
                                obl: Option<ObligationCompare>)
    requires Proper(s.Alphabet()) && was.number != now.number
    requires NormalizeForMatch(s.Alphabet(), was.title) == NormalizeForMatch(s.Alphabet(), now.title)
    requires LexicalSimilarity(s.Alphabet(), s.clean(was.body), s.clean(now.body)) >= 0.85
    ensures PairRow(s, was, now, similarity, obl) == None
  {
    hide PairRow, NormalizeForMatch, CanonicalTitle, LexicalSimilarity;
    AlignedTitlesAgree(s.Alphabet(), was.title, now.title);
    PairReported(s, was, now, similarity, obl);
  }
}
