/** When obligations differ, and what that amounts to, said of the fields of the two records themselves
    (packages/policy_engine/changes.py). */
module FieldChanges {
  import opened Materiality
  import opened Options
  import opened Severity
  import opened Titles
  import opened Wording
  import Citations

  /** A text as it is compared: its words, case-folded, one space between each two. */
  ghost function Plain(r: Reader, v: string): string {
    Expand(r.alphabet.casefold, Spaced(SplitBy(r.alphabet.blank, v)))
  }

  ghost predicate Listed(r: Reader, items: seq<string>, p: string) {
    p != "" && exists i :: 0 <= i < |items| && Plain(r, items[i]) == p
  }

  ghost predicate SameItems(r: Reader, xs: seq<string>, ys: seq<string>) {
    forall p :: Listed(r, xs, p) <==> Listed(r, ys, p)
  }

  ghost predicate SameText(r: Reader, v: Option<string>, w: Option<string>) {
    Plain(r, if v.Some? then v.value else "") == Plain(r, if w.Some? then w.value else "")
  }

  lemma NormIsPlain(r: Reader, v: string)
    requires r.alphabet.blank(' ')
    ensures Norm(r, v) == Plain(r, v)
  {
    NormTextExactly(r.alphabet, v);
  }

  lemma NormSetListed(r: Reader, items: seq<string>, p: string)
    requires r.alphabet.blank(' ')
    ensures p in NormSet(r, items) <==> Listed(r, items, p)
  {
    hide Norm, Plain;
    forall x ensures Norm(r, x) == Plain(r, x) {
      NormIsPlain(r, x);
    }
    if Listed(r, items, p) {
      var i :| 0 <= i < |items| && Plain(r, items[i]) == p;
      assert items[i] in items;
    }
  }

  lemma SameSets(r: Reader, xs: seq<string>, ys: seq<string>)
    requires r.alphabet.blank(' ')
    ensures NormSet(r, xs) == NormSet(r, ys) <==> SameItems(r, xs, ys)
  {
    hide NormSet, Listed;
    forall p
      ensures p in NormSet(r, xs) <==> Listed(r, xs, p)
      ensures p in NormSet(r, ys) <==> Listed(r, ys, p)
    {
      NormSetListed(r, xs, p);
      NormSetListed(r, ys, p);
    }
  }

  /** Which fields differ, on the record. */
  lemma DiffersExactly(r: Reader, b: ObligationFields, a: ObligationFields)
    requires r.alphabet.blank(' ')
    ensures Differs(r, b, a, NormalizedObligation) <==>
            Plain(r, b.normalizedObligation) != Plain(r, a.normalizedObligation)
    ensures Differs(r, b, a, Actor) <==> !SameText(r, b.actor, a.actor)
    ensures Differs(r, b, a, Action) <==> !SameText(r, b.action, a.action)
    ensures Differs(r, b, a, Object) <==> !SameText(r, b.object_, a.object_)
    ensures Differs(r, b, a, Frequency) <==> !SameText(r, b.frequency, a.frequency)
    ensures Differs(r, b, a, Deadline) <==> !SameText(r, b.deadline, a.deadline)
    ensures Differs(r, b, a, EvidenceRequirement) <==> !SameText(r, b.evidenceRequirement, a.evidenceRequirement)
    ensures Differs(r, b, a, PenaltyReference) <==> !SameText(r, b.penaltyReference, a.penaltyReference)
    ensures Differs(r, b, a, Conditions) <==> !SameItems(r, b.conditions, a.conditions)
    ensures Differs(r, b, a, Exceptions) <==> !SameItems(r, b.exceptions, a.exceptions)
    ensures Differs(r, b, a, Applicability) <==> !SameItems(r, b.applicability, a.applicability)
  {
    hide Norm, NormSet, Plain, SameItems;
    forall v ensures Norm(r, v) == Plain(r, v) {
      NormIsPlain(r, v);
    }
    SameSets(r, b.conditions, a.conditions);
    SameSets(r, b.exceptions, a.exceptions);
    SameSets(r, b.applicability, a.applicability);
  }

  ghost predicate SameRecord(r: Reader, b: ObligationFields, a: ObligationFields) {
    && Plain(r, b.normalizedObligation) == Plain(r, a.normalizedObligation)
    && SameText(r, b.actor, a.actor) && SameText(r, b.action, a.action) && SameText(r, b.object_, a.object_)
    && SameText(r, b.frequency, a.frequency) && SameText(r, b.deadline, a.deadline)
    && SameText(r, b.evidenceRequirement, a.evidenceRequirement) && SameText(r, b.penaltyReference, a.penaltyReference)
    && SameItems(r, b.conditions, a.conditions) && SameItems(r, b.exceptions, a.exceptions)
    && SameItems(r, b.applicability, a.applicability)
  }

  /** NONE exactly when all eleven fields read the same. */
  lemma NoneOnRecord(r: Reader, b: ObligationFields, a: ObligationFields)
    requires r.alphabet.blank(' ')
    ensures PairLevel(r, b, a) == NoChange <==> SameRecord(r, b, a)
  {
    NoneExactly(r, b, a);
    hide Differs, PairLevel, SameText, SameItems, Plain;
    DiffersExactly(r, b, a);
    NoFieldDiffers(r, b, a);
  }

  lemma NoFieldDiffers(r: Reader, b: ObligationFields, a: ObligationFields)
    ensures (forall f :: !Differs(r, b, a, f)) <==>
            && !Differs(r, b, a, NormalizedObligation) && !Differs(r, b, a, Actor) && !Differs(r, b, a, Action)
            && !Differs(r, b, a, Object) && !Differs(r, b, a, Frequency) && !Differs(r, b, a, Deadline)
            && !Differs(r, b, a, EvidenceRequirement) && !Differs(r, b, a, PenaltyReference)
            && !Differs(r, b, a, Conditions) && !Differs(r, b, a, Exceptions) && !Differs(r, b, a, Applicability)
  {
    hide Differs;
    forall f
      ensures Differs(r, b, a, f) ==>
              || Differs(r, b, a, NormalizedObligation) || Differs(r, b, a, Actor) || Differs(r, b, a, Action)
              || Differs(r, b, a, Object) || Differs(r, b, a, Frequency) || Differs(r, b, a, Deadline)
              || Differs(r, b, a, EvidenceRequirement) || Differs(r, b, a, PenaltyReference)
              || Differs(r, b, a, Conditions) || Differs(r, b, a, Exceptions) || Differs(r, b, a, Applicability)
    {
      match f
      case NormalizedObligation | Actor | Action | Object | Frequency | Deadline | EvidenceRequirement =>
      case PenaltyReference | Conditions | Exceptions | Applicability =>
    }
  }

  /** Where a field stands in a list of differing fields. */
  function FieldPlace(f: Field): nat {
    match f
    case NormalizedObligation => 0
    case Actor => 1
    case Action => 2
    case Object => 3
    case Frequency => 4
    case Deadline => 5
    case EvidenceRequirement => 6
    case PenaltyReference => 7
    case Conditions => 8
    case Exceptions => 9
    case Applicability => 10
  }

  ghost predicate InFieldOrder(fs: seq<Field>) {
    forall i, j :: 0 <= i < j < |fs| ==> FieldPlace(fs[i]) < FieldPlace(fs[j])
  }

  lemma {:induction false} ChangedInOrder(r: Reader, b: ObligationFields, a: ObligationFields, fs: seq<Field>)
    requires InFieldOrder(fs)
    ensures InFieldOrder(Changed(r, b, a, fs))
  {
    hide Differs, FieldPlace;
    if fs == [] {
    } else {
      var t := fs[..|fs| - 1];
      ChangedInOrder(r, b, a, t);
      var c := Changed(r, b, a, t);
      forall i | 0 <= i < |c| ensures FieldPlace(c[i]) < FieldPlace(fs[|fs| - 1]) {
        assert c[i] in t;
        var k :| 0 <= k < |t| && t[k] == c[i];
        assert fs[k] == t[k];
      }
    }
  }

  /** The differing fields are listed in the fields' own order, texts before lists. */
  lemma ChangedFieldsOrdered(r: Reader, b: ObligationFields, a: ObligationFields)
    ensures InFieldOrder(ChangedFields(r, b, a))
  {
    FieldsPlaced();
    hide FieldPlace;
    ChangedInOrder(r, b, a, TEXT_FIELDS);
    ChangedInOrder(r, b, a, LIST_FIELDS);
    var c, d := Changed(r, b, a, TEXT_FIELDS), Changed(r, b, a, LIST_FIELDS);
    hide Changed, Differs;
    assert forall i :: 0 <= i < |c| ==> c[i] in TEXT_FIELDS by { assert forall i :: 0 <= i < |c| ==> c[i] in c; }
    assert forall i :: 0 <= i < |d| ==> d[i] in LIST_FIELDS by { assert forall i :: 0 <= i < |d| ==> d[i] in d; }
  }

  lemma FieldsPlaced()
    ensures InFieldOrder(TEXT_FIELDS) && InFieldOrder(LIST_FIELDS)
    ensures forall f :: f in TEXT_FIELDS ==> FieldPlace(f) < 8
    ensures forall f :: f in LIST_FIELDS ==> FieldPlace(f) >= 8
  {
    assert forall i :: 0 <= i < |TEXT_FIELDS| ==> FieldPlace(TEXT_FIELDS[i]) == i;
    assert forall i :: 0 <= i < |LIST_FIELDS| ==> FieldPlace(LIST_FIELDS[i]) == 8 + i;
  }

  /** Someone the obligation binds. */
  ghost predicate Binds(r: Reader, o: ObligationFields, p: string) {
    Listed(r, o.applicability, p) || (p != "" && o.actor.Some? && o.actor.value != "" && Plain(r, o.actor.value) == p)
  }

  /** Everyone bound before is bound after, and someone else is. */
  ghost predicate BindsMore(r: Reader, b: ObligationFields, a: ObligationFields) {
    (forall p :: Binds(r, b, p) ==> Binds(r, a, p)) && exists p :: Binds(r, a, p) && !Binds(r, b, p)
  }

  lemma ActorSetBinds(r: Reader, o: ObligationFields, p: string)
    requires r.alphabet.blank(' ')
    ensures p in ActorSet(r, o) <==> Binds(r, o, p)
  {
    var actor := if Given(o.actor) != "" then [Given(o.actor)] else [];
    var all := o.applicability + actor;
    NormSetListed(r, all, p);
    hide Plain, NormSet;
    if Listed(r, all, p) {
      var i :| 0 <= i < |all| && Plain(r, all[i]) == p;
      if i < |o.applicability| {
        assert o.applicability[i] == all[i];
      }
    }
    if Listed(r, o.applicability, p) {
      var i :| 0 <= i < |o.applicability| && Plain(r, o.applicability[i]) == p;
      assert all[i] == o.applicability[i];
    }
    if o.actor.Some? && o.actor.value != "" {
      assert all[|o.applicability|] == o.actor.value;
    }
  }

  lemma ActorsGrow(r: Reader, b: ObligationFields, a: ObligationFields)
    requires r.alphabet.blank(' ')
    ensures ActorSet(r, b) < ActorSet(r, a) <==> BindsMore(r, b, a)
  {
    hide ActorSet, Binds;
    forall p
      ensures p in ActorSet(r, b) <==> Binds(r, b, p)
      ensures p in ActorSet(r, a) <==> Binds(r, a, p)
    {
      ActorSetBinds(r, b, p);
      ActorSetBinds(r, a, p);
    }
    if ActorSet(r, b) < ActorSet(r, a) {
      var p :| p in ActorSet(r, a) && p !in ActorSet(r, b);
    }
  }

  /** Nothing is read there before, and something after. */
  ghost predicate Appears(r: Reader, v: Option<string>, w: Option<string>) {
    Plain(r, if v.Some? then v.value else "") == "" && Plain(r, if w.Some? then w.value else "") != ""
  }

  lemma IntroducedAppears(r: Reader, v: Option<string>, w: Option<string>)
    requires r.alphabet.blank(' ')
    ensures Introduced(r, v, w) <==> Appears(r, v, w)
  {
    NormIsPlain(r, Given(v));
    NormIsPlain(r, Given(w));
    hide Norm, Plain;
  }

  /** What a given text is read as; a missing or empty one is not read. */
  ghost function Read(f: string -> Option<nat>, v: Option<string>): Option<nat> {
    if v.Some? && v.value != "" then f(v.value) else None
  }

  ghost predicate Falls(f: string -> Option<nat>, v: Option<string>, w: Option<string>) {
    Read(f, v).Some? && Read(f, w).Some? && Read(f, w).value < Read(f, v).value
  }

  /** The wording of the obligation and of its object, as they are compared. */
  ghost function WordingOf(r: Reader, o: ObligationFields): string {
    Plain(r, o.normalizedObligation) + " " + Plain(r, if o.object_.Some? then o.object_.value else "")
  }

  ghost predicate Says(text: string, term: string) {
    exists i: nat :: Citations.OccursAt(text, term, i)
  }

  /** A change of wording is a clean-up of terms exactly when a discontinued term was there and is gone. */
  lemma WordingExactly(r: Reader, b: ObligationFields, a: ObligationFields)
    requires r.alphabet.blank(' ')
    ensures WordingRule(r, b, a)
            == if (Says(WordingOf(r, b), "sub-broker") && !Says(WordingOf(r, a), "sub-broker"))
                  || (Says(WordingOf(r, b), "sub-brokers") && !Says(WordingOf(r, a), "sub-brokers"))
               then TerminologyCleanup else WordingClarified
  {
    hide Norm, Plain, Mentions, Says;
    DropsExactly(r, b, a, "sub-broker");
    DropsExactly(r, b, a, "sub-brokers");
    hide DropsTerm, WordingOf;
  }

  lemma DropsExactly(r: Reader, b: ObligationFields, a: ObligationFields, term: string)
    requires r.alphabet.blank(' ')
    ensures DropsTerm(r, b, a, term) <==> Says(WordingOf(r, b), term) && !Says(WordingOf(r, a), term)
  {
    NormIsPlain(r, b.normalizedObligation);
    NormIsPlain(r, a.normalizedObligation);
    NormIsPlain(r, Given(b.object_));
    NormIsPlain(r, Given(a.object_));
    hide Norm, Plain, Mentions, Says;
    MentionsSays(WordingOf(r, b), term);
    MentionsSays(WordingOf(r, a), term);
  }

  lemma MentionsSays(text: string, term: string)
    ensures Mentions(text, term) <==> Says(text, term)
  {
    if i: nat :| Citations.OccursAt(text, term, i) {
      assert i <= |text|;
    }
  }

  lemma DaysAreRead(r: Reader, v: Option<string>)
    ensures DaysOf(r, v) == Read(r.days, v) && RecurrenceOf(r, v) == Read(r.recurrence, v)
  {
  }

  /** The rule of a deadline and of a frequency, on the numbers read from them, ... */
  lemma NumberRules(r: Reader, b: ObligationFields, a: ObligationFields)
    ensures DeadlineRule(r, b, a)
            == if Falls(r.days, b.deadline, a.deadline) then DeadlineTightened
               else if Falls(r.days, a.deadline, b.deadline) then DeadlineRelaxed
               else if Read(r.days, b.deadline).Some? && Read(r.days, a.deadline).Some? then DeadlineReworded
               else DeadlineChangedIncomparable
    ensures FrequencyRule(r, b, a)
            == if Falls(r.recurrence, a.frequency, b.frequency) then FrequencyIncreased
               else if Falls(r.recurrence, b.frequency, a.frequency) then FrequencyDecreased
               else FrequencyChanged
    ensures DeadlineShrinks(r, b, a) <==> Differs(r, b, a, Deadline) && Falls(r.days, b.deadline, a.deadline)
  {
    DaysAreRead(r, b.deadline);
    DaysAreRead(r, a.deadline);
    DaysAreRead(r, b.frequency);
    DaysAreRead(r, a.frequency);
    hide DaysOf, RecurrenceOf, Read, Differs;
  }

  /** ... and of the actors, the evidence and the penalty, on who is bound and what appears. */
  lemma TextRules(r: Reader, b: ObligationFields, a: ObligationFields)
    requires r.alphabet.blank(' ')
    ensures ActorRule(r, b, a) == if BindsMore(r, b, a) then ActorExpanded else ActorChanged
    ensures EvidenceRule(r, b, a)
            == if Appears(r, b.evidenceRequirement, a.evidenceRequirement) then NewEvidenceRequirement
               else EvidenceRequirementChanged
    ensures PenaltyRule(r, b, a)
            == if Appears(r, b.penaltyReference, a.penaltyReference) then PenaltyIntroduced else PenaltyChanged
  {
    hide BindsMore, ActorSet, Appears, Introduced;
    ActorsGrow(r, b, a);
    IntroducedAppears(r, b.evidenceRequirement, a.evidenceRequirement);
    IntroducedAppears(r, b.penaltyReference, a.penaltyReference);
    if ActorSet(r, b) < ActorSet(r, a) {
      var p :| p in ActorSet(r, a) && p !in ActorSet(r, b);
      assert p in ActorSet(r, a) - ActorSet(r, b);
    }
  }

  /** HIGH exactly when a deadline that reads differently is shorter, someone more is bound, or evidence or a
      penalty appears. */
  lemma HighOnRecord(r: Reader, b: ObligationFields, a: ObligationFields)
    requires r.alphabet.blank(' ')
    ensures PairLevel(r, b, a) == High <==>
            || (!SameText(r, b.deadline, a.deadline) && Falls(r.days, b.deadline, a.deadline))
            || BindsMore(r, b, a)
            || Appears(r, b.evidenceRequirement, a.evidenceRequirement)
            || Appears(r, b.penaltyReference, a.penaltyReference)
  {
    hide PairLevel, Differs, SameText, SameItems, BindsMore, ActorSet, Appears, Introduced, DeadlineShrinks, Falls,
      Plain;
    HighExactly(r, b, a);
    DiffersExactly(r, b, a);
    NumberRules(r, b, a);
    ActorsGrow(r, b, a);
    IntroducedAppears(r, b.evidenceRequirement, a.evidenceRequirement);
    IntroducedAppears(r, b.penaltyReference, a.penaltyReference);
  }

  // --- the reasons given ---

  /** Where the rules of a change are tried. */
  function Place(rule: Rule): nat {
    match rule
    case DeadlineTightened | DeadlineRelaxed | DeadlineReworded | DeadlineChangedIncomparable => 0
    case ActorExpanded | ActorChanged => 1
    case NewEvidenceRequirement | EvidenceRequirementChanged => 2
    case PenaltyIntroduced | PenaltyChanged => 3
    case FrequencyIncreased | FrequencyDecreased | FrequencyChanged => 4
    case ConditionsChanged => 5
    case ActionChanged => 6
    case _ => 7
  }

  /** The changed ones of two fields, the first one first. */
  ghost predicate ChangedOf(changed: set<Field>, f: Field, g: Field, fs: seq<Field>) {
    fs == (if f in changed then [f] else []) + (if g in changed then [g] else [])
  }

  /** A reason that a changed field gives. */
  ghost predicate GivesReason(r: Reader, changed: set<Field>, b: ObligationFields, a: ObligationFields, v: Reason) {
    || (Deadline in changed && v == Reason(DeadlineRule(r, b, a), [Deadline]))
    || ((Actor in changed || Applicability in changed) && v.rule == ActorRule(r, b, a)
        && ChangedOf(changed, Actor, Applicability, v.fields))
    || (EvidenceRequirement in changed && v == Reason(EvidenceRule(r, b, a), [EvidenceRequirement]))
    || (PenaltyReference in changed && v == Reason(PenaltyRule(r, b, a), [PenaltyReference]))
    || (Frequency in changed && v == Reason(FrequencyRule(r, b, a), [Frequency]))
    || ((Conditions in changed || Exceptions in changed) && v.rule == ConditionsChanged
        && ChangedOf(changed, Conditions, Exceptions, v.fields))
    || (Action in changed && v == Reason(ActionChanged, [Action]))
    || (changed != {} && changed <= WORDING && v.rule == WordingRule(r, b, a)
        && ChangedOf(changed, NormalizedObligation, Object, v.fields))
  }

  ghost predicate InPlaceOrder(reasons: seq<Reason>) {
    forall i, j :: 0 <= i < j < |reasons| ==> Place(reasons[i].rule) < Place(reasons[j].rule)
  }

  /** Reasons in order, of places below `n`. */
  ghost predicate OrderedBelow(reasons: seq<Reason>, n: nat) {
    InPlaceOrder(reasons) && forall i :: 0 <= i < |reasons| ==> Place(reasons[i].rule) < n
  }

  lemma OrderedJoin(s: seq<Reason>, t: seq<Reason>, n: nat)
    requires OrderedBelow(s, n) && AtPlace(t, n)
    ensures OrderedBelow(s + t, n + 1)
  {
  }

  lemma RulePlaces(r: Reader, b: ObligationFields, a: ObligationFields)
    ensures Place(DeadlineRule(r, b, a)) == 0 && Place(ActorRule(r, b, a)) == 1 && Place(EvidenceRule(r, b, a)) == 2
    ensures Place(PenaltyRule(r, b, a)) == 3 && Place(FrequencyRule(r, b, a)) == 4 && Place(WordingRule(r, b, a)) == 7
    ensures Place(ConditionsChanged) == 5 && Place(ActionChanged) == 6
  {
    hide DaysOf, RecurrenceOf, ActorSet, Introduced, DropsTerm;
  }

  lemma FireExactly(changed: set<Field>, f: Field, rule: Rule, v: Reason)
    ensures v in Fire(changed, f, rule) <==> f in changed && v == Reason(rule, [f])
  {
  }

  lemma FireShort(changed: set<Field>, f: Field, g: Field, rule: Rule)
    ensures var s := Fire(changed, f, rule); |s| <= 1 && (s != [] ==> s[0].rule == rule)
    ensures var s := FireEither(changed, f, g, rule); |s| <= 1 && (s != [] ==> s[0].rule == rule)
  {
    hide Picked;
  }

  lemma FireEitherExactly(changed: set<Field>, f: Field, g: Field, rule: Rule, v: Reason)
    ensures v in FireEither(changed, f, g, rule) <==>
            (f in changed || g in changed) && v.rule == rule && ChangedOf(changed, f, g, v.fields)
  {
    assert ChangedOf(changed, f, g, v.fields) <==> v.fields == Picked(changed, f, g);
    hide Picked, ChangedOf;
  }

  lemma FiredExactly(r: Reader, changed: set<Field>, b: ObligationFields, a: ObligationFields)
    ensures OrderedBelow(FiredReasons(r, changed, b, a), 7)
    ensures forall v :: v in FiredReasons(r, changed, b, a) <==>
                        GivesReason(r, changed, b, a, v) && Place(v.rule) < 7
  {
    forall v ensures v in FiredReasons(r, changed, b, a) <==> GivesReason(r, changed, b, a, v) && Place(v.rule) < 7 {
      FiredMember(r, changed, b, a, v);
    }
    FiredOrdered(r, changed, b, a);
  }

  lemma FiredMember(r: Reader, changed: set<Field>, b: ObligationFields, a: ObligationFields, v: Reason)
    ensures v in FiredReasons(r, changed, b, a) <==> GivesReason(r, changed, b, a, v) && Place(v.rule) < 7
  {
    RulePlaces(r, b, a);
    hide DeadlineRule, ActorRule, EvidenceRule, PenaltyRule, FrequencyRule, WordingRule, Fire, FireEither, ChangedOf;
    FireExactly(changed, Deadline, DeadlineRule(r, b, a), v);
    FireEitherExactly(changed, Actor, Applicability, ActorRule(r, b, a), v);
    FireExactly(changed, EvidenceRequirement, EvidenceRule(r, b, a), v);
    FireExactly(changed, PenaltyReference, PenaltyRule(r, b, a), v);
    FireExactly(changed, Frequency, FrequencyRule(r, b, a), v);
    FireEitherExactly(changed, Conditions, Exceptions, ConditionsChanged, v);
    FireExactly(changed, Action, ActionChanged, v);
  }

  lemma FiredOrdered(r: Reader, changed: set<Field>, b: ObligationFields, a: ObligationFields)
    ensures OrderedBelow(FiredReasons(r, changed, b, a), 7)
  {
    RulePlaces(r, b, a);
    hide DeadlineRule, ActorRule, EvidenceRule, PenaltyRule, FrequencyRule, WordingRule, Fire, FireEither;
    FireShort(changed, Deadline, Deadline, DeadlineRule(r, b, a));
    FireShort(changed, Actor, Applicability, ActorRule(r, b, a));
    FireShort(changed, EvidenceRequirement, EvidenceRequirement, EvidenceRule(r, b, a));
    FireShort(changed, PenaltyReference, PenaltyReference, PenaltyRule(r, b, a));
    FireShort(changed, Frequency, Frequency, FrequencyRule(r, b, a));
    FireShort(changed, Conditions, Exceptions, ConditionsChanged);
    FireShort(changed, Action, Action, ActionChanged);
    var d := Fire(changed, Deadline, DeadlineRule(r, b, a));
    var e := FireEither(changed, Actor, Applicability, ActorRule(r, b, a));
    var f := Fire(changed, EvidenceRequirement, EvidenceRule(r, b, a));
    var g := Fire(changed, PenaltyReference, PenaltyRule(r, b, a));
    var h := Fire(changed, Frequency, FrequencyRule(r, b, a));
    var i := FireEither(changed, Conditions, Exceptions, ConditionsChanged);
    var j := Fire(changed, Action, ActionChanged);
    hide Place, OrderedBelow;
    SevenOrdered(d, e, f, g, h, i, j);
    assert FiredReasons(r, changed, b, a) == d + e + f + g + h + i + j;
  }

  /** At most one reason, of place `n`. */
  ghost predicate AtPlace(s: seq<Reason>, n: nat) {
    |s| <= 1 && (s != [] ==> Place(s[0].rule) == n)
  }

  lemma SevenOrdered(d: seq<Reason>, e: seq<Reason>, f: seq<Reason>, g: seq<Reason>, h: seq<Reason>, i: seq<Reason>,
                     j: seq<Reason>)
    requires AtPlace(d, 0) && AtPlace(e, 1) && AtPlace(f, 2) && AtPlace(g, 3) && AtPlace(h, 4) && AtPlace(i, 5)
    requires AtPlace(j, 6)
    ensures OrderedBelow(d + e + f + g + h + i + j, 7)
  {
    assert OrderedBelow(d, 1);
    hide OrderedBelow, AtPlace;
    OrderedJoin(d, e, 1);
    OrderedJoin(d + e, f, 2);
    OrderedJoin(d + e + f, g, 3);
    OrderedJoin(d + e + f + g, h, 4);
    OrderedJoin(d + e + f + g + h, i, 5);
    OrderedJoin(d + e + f + g + h + i, j, 6);
  }

  /** Why a modification is rated as it is: the reasons its changed fields give, in the order of the rules; wording
      is a reason only when nothing else changed. */
  lemma ReasonsExactly(r: Reader, changed: set<Field>, b: ObligationFields, a: ObligationFields)
    ensures InPlaceOrder(ModifiedReasons(r, changed, b, a))
    ensures forall v :: v in ModifiedReasons(r, changed, b, a) <==> GivesReason(r, changed, b, a, v)
  {
    FiredExactly(r, changed, b, a);
    RulePlaces(r, b, a);
    FiredWhen(r, changed, b, a);
    hide FiredReasons, DeadlineRule, ActorRule, EvidenceRule, PenaltyRule, FrequencyRule, WordingRule;
    forall v | GivesReason(r, changed, b, a, v) && Place(v.rule) >= 7
      ensures v == Reason(WordingRule(r, b, a), Picked(changed, NormalizedObligation, Object)) && changed <= WORDING
    {
    }
  }

  lemma FiredWhen(r: Reader, changed: set<Field>, b: ObligationFields, a: ObligationFields)
    ensures FiredReasons(r, changed, b, a) == [] <==> changed <= WORDING
  {
    hide DeadlineRule, ActorRule, EvidenceRule, PenaltyRule, FrequencyRule;
    forall f | f in changed && f !in WORDING ensures FiredReasons(r, changed, b, a) != [] {
      assert f != NormalizedObligation && f != Object;
    }
  }

  /** A created obligation is HIGH when its risk, without outer white space and case-folded, is high or critical, and
      else MEDIUM; a removed one is MEDIUM. */
  lemma WholeExactly(r: Reader, change: ChangeVerdict, before: Option<ObligationFields>,
                     after: Option<ObligationFields>)
    requires change.kind != Modified
    ensures var m := Assessed(r, change, before, after);
            && (change.kind == Removed ==> m == MaterialityVerdict(Medium, [Reason(ObligationRemoved, [])]))
            && (change.kind == Created ==>
                  if after.Some? && Risky(r, Given(after.value.riskLevel))
                  then m == MaterialityVerdict(High, [Reason(NewHighRiskObligation, [])])
                  else m == MaterialityVerdict(Medium, [Reason(NewObligation, [])]))
  {
    if after.Some? {
      var risk := Given(after.value.riskLevel);
      var i, j := StripExactly(r.alphabet.blank, risk);
      hide Strip, Expand;
      forall k: nat, l: nat | Trimmed(r.alphabet.blank, risk, k, l) ensures risk[k..l] == risk[i..j] {
        TrimmedUnique(r.alphabet.blank, risk, i, j, k, l);
      }
    }
  }

  ghost predicate Risky(r: Reader, risk: string) {
    exists i: nat, j: nat :: Trimmed(r.alphabet.blank, risk, i, j)
                             && Expand(r.alphabet.casefold, risk[i..j]) in {"high", "critical"}
  }

  lemma TrimmedUnique(kind: char -> bool, s: string, i: nat, j: nat, k: nat, l: nat)
    requires Trimmed(kind, s, i, j) && Trimmed(kind, s, k, l)
    ensures s[i..j] == s[k..l]
  {
  }
}
