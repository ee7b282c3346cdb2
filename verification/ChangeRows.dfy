/** The rows of a change list, said of the sections and obligations themselves (packages/diff_engine/engine.py and
    obligation_diff.py): when a comparison is trusted, what each row holds, and how the rows are ordered. */
module ChangeRows {
  import opened DiffPipeline
  import opened DiffReport
  import opened FieldChanges
  import opened GreedyPairs
  import opened Lexicographic
  import opened Matching
  import opened Materiality
  import opened ObligationDiff
  import opened Options
  import opened Severity
  import opened Sorting
  import opened Titles
  import Wording

  type Section = ObligationDiff.Section

  // --- the comparison of obligations ---

  /** Obligations are paired by their wording, action and object, without outer white space. */
  lemma ObligationTextExactly(s: Settings, o: ObligationFields) returns (i: nat, j: nat)
    ensures var t := o.normalizedObligation + " " + (if o.action.Some? then o.action.value else "") + " "
                     + (if o.object_.Some? then o.object_.value else "");
            Trimmed(s.Alphabet().blank, t, i, j) && ObligationText(s, o) == t[i..j]
  {
    i, j := StripExactly(s.Alphabet().blank, o.normalizedObligation + " " + Given(o.action) + " " + Given(o.object_));
  }

  /** A delta is trusted exactly when at least four fifths of either side found a partner. */
  lemma TrustedExactly(c: ObligationCompare)
    requires c.nMatched <= c.nOld && c.nMatched <= c.nNew
    ensures Trusted(Some(c)) <==>
            && c.fieldDeltas != {} && c.nOld + c.nNew > 0
            && 5 * c.nMatched >= 4 * c.nOld && 5 * c.nMatched >= 4 * c.nNew
    ensures !Trusted(None)
  {
    var d := if c.nOld < c.nNew then c.nNew else c.nOld;
    if d > 0 {
      RatioBounds(c.nMatched, d);
    }
    hide Ratio;
  }

  /** The comparison's reasons are those of its pairs. */
  lemma {:induction false} DeltaReasons(s: Settings, os: seq<ObligationFields>, ns: seq<ObligationFields>,
                                        es: seq<Edge>, v: Reason)
    requires InRange(os, ns, es)
    ensures v in Deltas(s, os, ns, es).reasons <==> SomePairGives(s, os, ns, es, v)
  {
    if es == [] {
    } else {
      hide AddPair, PairGives, SomePairGives, InRange;
      var t, e := es[..|es| - 1], es[|es| - 1];
      assert es == t + [e];
      GivesSnoc(s, os, ns, t, e, v);
      DeltaReasons(s, os, ns, t, v);
      AddPairGives(s, Deltas(s, os, ns, t), os[e.left], ns[e.right], v);
    }
  }

  ghost predicate SomePairGives(s: Settings, os: seq<ObligationFields>, ns: seq<ObligationFields>, es: seq<Edge>,
                                v: Reason)
    requires InRange(os, ns, es)
  {
    exists k :: 0 <= k < |es| && PairGives(s, os[es[k].left], ns[es[k].right], v)
  }

  lemma GivesSnoc(s: Settings, os: seq<ObligationFields>, ns: seq<ObligationFields>, t: seq<Edge>, e: Edge, v: Reason)
    requires InRange(os, ns, t + [e])
    ensures InRange(os, ns, t) && e.left < |os| && e.right < |ns|
    ensures SomePairGives(s, os, ns, t + [e], v) <==>
            SomePairGives(s, os, ns, t, v) || PairGives(s, os[e.left], ns[e.right], v)
  {
    hide PairGives;
    var es := t + [e];
    assert es[|t|] == e;
    assert forall k :: 0 <= k < |t| ==> es[k] == t[k];
    if SomePairGives(s, os, ns, t, v) {
      var k :| 0 <= k < |t| && PairGives(s, os[t[k].left], ns[t[k].right], v);
      assert PairGives(s, os[es[k].left], ns[es[k].right], v);
    }
  }

  /** The pair's changed fields give the reason. */
  ghost predicate PairGives(s: Settings, b: ObligationFields, a: ObligationFields, v: Reason) {
    GivesReason(s.reader, FieldSet(ChangedFields(s.reader, b, a)), b, a, v)
  }

  lemma AddPairGives(s: Settings, d: Delta, b: ObligationFields, a: ObligationFields, v: Reason)
    ensures v in AddPair(s, d, b, a).reasons <==> v in d.reasons || PairGives(s, b, a, v)
  {
    var changed := FieldSet(ChangedFields(s.reader, b, a));
    ReasonsExactly(s.reader, changed, b, a);
    hide ChangedFields, ModifiedReasons;
    if ChangedFields(s.reader, b, a) == [] {
      assert changed == {};
    }
  }

  // --- the rows of whole sections ---

  /** Small letters are not white space and are left alone by case folding. */
  ghost predicate PlainLetters(a: Alphabet) {
    forall c :: 'a' <= c <= 'z' ==> !a.blank(c) && a.casefold(c) == [c]
  }

  lemma {:induction false} FoldLetters(a: Alphabet, w: string)
    requires PlainLetters(a) && forall k :: 0 <= k < |w| ==> 'a' <= w[k] <= 'z'
    ensures Wording.Expand(a.casefold, w) == w
    ensures Strip(a.blank, w) == w
  {
    if w == "" {
    } else {
      FoldLetters(a, w[..|w| - 1]);
      StripIdle(a.blank, w);
    }
  }

  /** A created section's row: its title and number, HIGH when its title speaks of a risk and else MEDIUM. */
  lemma CreatedExactly(s: Settings, sec: Section)
    requires PlainLetters(s.Alphabet())
    ensures DiffCreated(s, sec)
            == ChangeRow(Created, sec.title, {}, None, Some(sec.number),
                         if s.risky(sec.title) then MaterialityVerdict(High, [Reason(NewHighRiskObligation, [])])
                         else MaterialityVerdict(Medium, [Reason(NewObligation, [])]), None, None)
  {
    FoldLetters(s.Alphabet(), "high");
    FoldLetters(s.Alphabet(), "medium");
    hide Wording.Expand, Strip, CanonicalTitle;
  }

  /** A removed section's row: its title and number, always MEDIUM. */
  lemma RemovedExactly(s: Settings, sec: Section)
    ensures DiffRemoved(s, sec)
            == ChangeRow(Removed, sec.title, {}, Some(sec.number), None,
                         MaterialityVerdict(Medium, [Reason(ObligationRemoved, [])]), None, None)
  {
  }

  // --- the change list ---

  /** The pairs a run looks at: the aligned ones as fully alike, then those of the matcher with its similarities, on
      the sections that its indices into the leftovers stand for. */
  lemma PairsExactly(j: Job, a: Assignment, k: nat)
    requires Fits(j, a) && k < |MatchedPairs(j, a)|
    ensures var n := |Structural(j)|;
            MatchedPairs(j, a)[k]
            == if k < n then Pair(Structural(j)[k], 1.0)
               else
                 var p := a.pairs[k - n];
                 Pair(Edge(LeftOld(j)[p.edge.left], LeftNew(j)[p.edge.right]), p.similarity)
  {
    hide Structural, LeftOld, LeftNew;
  }

  /** What is in the change list: the row of each reported pair, and a row for every created and every removed
      section. */
  lemma ChangesExactly(j: Job, t: Trace, v: ChangeRow)
    requires Shaped(j, t)
    ensures v in Changes(j, t) <==>
            || SomeRowAt(j, t.residual, t.compares, v)
            || (exists k :: k in CreatedIndices(j, t.residual) && v == DiffCreated(j.s, j.ns[k]))
            || (exists k :: k in RemovedIndices(j, t.residual) && v == DiffRemoved(j.s, j.os[k]))
  {
    hide RowAt, DiffCreated, DiffRemoved, CreatedIndices, RemovedIndices, Fits, MatchedPairs, RowLeq;
    ModifiedExactly(j, t.residual, t.compares, v);
    var created, removed := CreatedIndices(j, t.residual), RemovedIndices(j, t.residual);
    CreatedRowsExactly(j.s, j.ns, created, v);
    RemovedRowsExactly(j.s, j.os, removed, v);
    hide ModifiedRows, CreatedRows, RemovedRows;
  }

  /** The row of a reported pair. */
  ghost predicate SomeRowAt(j: Job, a: Assignment, cs: seq<Option<ObligationCompare>>, v: ChangeRow)
    requires Fits(j, a) && |cs| <= |MatchedPairs(j, a)|
  {
    exists k: nat :: k < |cs| && RowAt(j, a, k, cs[k]) == Some(v)
  }

  lemma SomeRowSnoc(j: Job, a: Assignment, t: seq<Option<ObligationCompare>>, c: Option<ObligationCompare>,
                    v: ChangeRow)
    requires Fits(j, a) && |t| < |MatchedPairs(j, a)|
    ensures SomeRowAt(j, a, t + [c], v) <==> SomeRowAt(j, a, t, v) || RowAt(j, a, |t|, c) == Some(v)
  {
    hide RowAt, Fits, MatchedPairs;
    var cs := t + [c];
    assert cs[|t|] == c;
    assert forall k: nat :: k < |t| ==> cs[k] == t[k];
    if SomeRowAt(j, a, t, v) {
      var k: nat :| k < |t| && RowAt(j, a, k, t[k]) == Some(v);
      assert RowAt(j, a, k, cs[k]) == Some(v);
    }
  }

  lemma {:induction false} ModifiedExactly(j: Job, a: Assignment, cs: seq<Option<ObligationCompare>>, v: ChangeRow)
    requires Fits(j, a) && |cs| <= |MatchedPairs(j, a)|
    ensures v in ModifiedRows(j, a, cs) <==> SomeRowAt(j, a, cs, v)
  {
    hide RowAt, Fits, MatchedPairs, SomeRowAt, ModifiedRows;
    if cs == [] {
      NoneModified(j, a, v);
    } else {
      var t, c := cs[..|cs| - 1], cs[|cs| - 1];
      ModifiedExactly(j, a, t, v);
      SomeRowSnoc(j, a, t, c, v);
      ModifiedSnoc(j, a, t, c, v);
      assert cs == t + [c];
    }
  }

  lemma NoneModified(j: Job, a: Assignment, v: ChangeRow)
    requires Fits(j, a)
    ensures ModifiedRows(j, a, []) == [] && !SomeRowAt(j, a, [], v)
  {
    hide RowAt, Fits, MatchedPairs;
  }

  lemma ModifiedSnoc(j: Job, a: Assignment, t: seq<Option<ObligationCompare>>, c: Option<ObligationCompare>,
                     v: ChangeRow)
    requires Fits(j, a) && |t| < |MatchedPairs(j, a)|
    ensures v in ModifiedRows(j, a, t + [c]) <==> v in ModifiedRows(j, a, t) || RowAt(j, a, |t|, c) == Some(v)
  {
    hide RowAt, Fits, MatchedPairs;
    assert (t + [c])[..|t|] == t;
  }

  lemma CreatedRowsExactly(s: Settings, ns: seq<Section>, js: seq<nat>, v: ChangeRow)
    requires forall k :: 0 <= k < |js| ==> js[k] < |ns|
    ensures v in CreatedRows(s, ns, js) <==> exists k :: k in js && v == DiffCreated(s, ns[k])
  {
    hide DiffCreated;
    var rows := CreatedRows(s, ns, js);
    if k :| k in js && v == DiffCreated(s, ns[k]) {
      var i :| 0 <= i < |js| && js[i] == k;
      assert rows[i] == v;
    }
  }

  lemma RemovedRowsExactly(s: Settings, os: seq<Section>, js: seq<nat>, v: ChangeRow)
    requires forall k :: 0 <= k < |js| ==> js[k] < |os|
    ensures v in RemovedRows(s, os, js) <==> exists k :: k in js && v == DiffRemoved(s, os[k])
  {
    hide DiffRemoved;
    var rows := RemovedRows(s, os, js);
    if k :| k in js && v == DiffRemoved(s, os[k]) {
      var i :| 0 <= i < |js| && js[i] == k;
      assert rows[i] == v;
    }
  }

  // --- their order ---

  /** The number a row of decimal digits stands for. */
  ghost function ValueOf(digits: string): int {
    if digits == "" then 0
    else 10 * ValueOf(digits[..|digits| - 1]) + (digits[|digits| - 1] as int - '0' as int)
  }

  lemma {:induction false} DecimalExactly(n: nat)
    ensures ValueOf(Decimal(n)) == n
    ensures forall k :: 0 <= k < |Decimal(n)| ==> '0' <= Decimal(n)[k] <= '9'
    ensures Decimal(n) != "" && (n > 0 ==> Decimal(n)[0] != '0')
  {
    DigitExactly(n % 10);
    if n < 10 {
      assert [Digit(n)][..0] == "";
    } else {
      DecimalExactly(n / 10);
      var t := Decimal(n / 10);
      assert Decimal(n)[..|t|] == t;
    }
  }

  lemma DigitExactly(d: nat)
    requires d < 10
    ensures Digit(d) as int == '0' as int + d
  {
  }

  /** The section a row refers to: the new one, or the old one of a removal. */
  ghost function RefNumber(row: ChangeRow): Option<nat> {
    if row.newNumber.Some? then row.newNumber else row.oldNumber
  }

  lemma RefExactly(row: ChangeRow)
    ensures Ref(row) == if RefNumber(row).Some? then "\U{A7}" + Decimal(RefNumber(row).value) else ""
  {
  }

  ghost predicate Confirms(row: ChangeRow) {
    row.materiality.level == Medium || row.materiality.level == High
  }

  /** Created rows come before modified ones, those before removed ones. */
  ghost predicate KindBefore(a: ChangeKind, b: ChangeKind) {
    (a == Created && b != Created) || (a == Modified && b == Removed)
  }

  /** `x` is ordered no later than `y`: rows to confirm first, then by kind, then by reference. */
  ghost predicate RowBefore(x: ChangeRow, y: ChangeRow) {
    && (Confirms(y) ==> Confirms(x))
    && ((Confirms(x) <==> Confirms(y)) ==> !KindBefore(y.kind, x.kind))
    && ((Confirms(x) <==> Confirms(y)) && x.kind == y.kind ==> Ref(x) == Ref(y) || StringLess(Ref(x), Ref(y)))
  }

  lemma RowLeqExactly(x: ChangeRow, y: ChangeRow)
    ensures RowLeq(x, y) <==> RowBefore(x, y)
  {
    hide Ref, StringLess;
    assert x.RequiresConfirmation() <==> Confirms(x);
    assert y.RequiresConfirmation() <==> Confirms(y);
  }

  /** The rows to confirm come first; among either, created, modified and removed ones; and of one kind, by the
      text of the section sign and number. */
  lemma ChangesOrdered(j: Job, t: Trace, i: nat, k: nat)
    requires Shaped(j, t) && i < k < |Changes(j, t)|
    ensures RowBefore(Changes(j, t)[i], Changes(j, t)[k])
  {
    RowOrder();
    SortBySorted(RowLeq, Unsorted(j, t));
    hide RowBefore, RowLeq, Unsorted, SortBy, Shaped;
    RowLeqExactly(Changes(j, t)[i], Changes(j, t)[k]);
  }

  /** The summary counts the rows of each kind and those to confirm. */
  lemma TalliesExactly(j: Job, t: Trace)
    requires Shaped(j, t)
    ensures var s, rows := Tallies(j, t), Changes(j, t);
            && s.created == KindCount(rows, Created) && s.modified == KindCount(rows, Modified)
            && s.removed == KindCount(rows, Removed)
            && s.material == ConfirmCount(rows)
  {
    hide Changes, Suppressed, KindCount, ConfirmCount, CountWhere, IsKind, IsMaterial;
    var rows := Changes(j, t);
    KindsCounted(rows, Created);
    KindsCounted(rows, Modified);
    KindsCounted(rows, Removed);
    ConfirmsCounted(rows);
  }

  ghost function ConfirmCount(rows: seq<ChangeRow>): nat {
    |set k | 0 <= k < |rows| && Confirms(rows[k])|
  }

  lemma ConfirmsCounted(rows: seq<ChangeRow>)
    ensures CountWhere(IsMaterial(), rows) == ConfirmCount(rows)
  {
    CountsPlaces(IsMaterial(), rows);
    assert (set k | 0 <= k < |rows| && Confirms(rows[k])) == Places(IsMaterial(), rows);
  }

  ghost function KindCount(rows: seq<ChangeRow>, kind: ChangeKind): nat {
    |set k | 0 <= k < |rows| && rows[k].kind == kind|
  }

  lemma KindsCounted(rows: seq<ChangeRow>, kind: ChangeKind)
    ensures CountWhere(IsKind(kind), rows) == KindCount(rows, kind)
  {
    CountsPlaces(IsKind(kind), rows);
    assert (set k | 0 <= k < |rows| && rows[k].kind == kind) == Places(IsKind(kind), rows);
  }

  ghost function Places(p: ChangeRow -> bool, rows: seq<ChangeRow>): set<int> {
    set k | 0 <= k < |rows| && p(rows[k])
  }

  lemma {:induction false} CountsPlaces(p: ChangeRow -> bool, rows: seq<ChangeRow>)
    ensures CountWhere(p, rows) == |Places(p, rows)|
  {
    if rows == [] {
      assert Places(p, rows) == {};
    } else {
      var n := |rows| - 1;
      CountsPlaces(p, rows[..n]);
      assert Places(p, rows) == Places(p, rows[..n]) + (if p(rows[n]) then {n} else {});
      assert n !in Places(p, rows[..n]);
    }
  }
}
