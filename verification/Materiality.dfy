/** Obligation changes and their materiality (packages/policy_engine/changes.py): which fields differ
    between two versions of an obligation, and how much that matters. */
module Materiality {
  import opened Options
  import opened Severity
  import Citations
  import Titles
  import Wording

  function Rank(l: Level): nat {
    match l
    case NoChange => 0
    case Low => 1
    case Medium => 2
    case High => 3
  }

  datatype Field =
    | NormalizedObligation | Actor | Action | Object | Frequency | Deadline | EvidenceRequirement
    | PenaltyReference | Conditions | Exceptions | Applicability

  const TEXT_FIELDS: seq<Field> :=
    [NormalizedObligation, Actor, Action, Object, Frequency, Deadline, EvidenceRequirement, PenaltyReference]
  const LIST_FIELDS: seq<Field> := [Conditions, Exceptions, Applicability]

  /** The fields that carry only the wording of an obligation. */
  const WORDING: set<Field> := {NormalizedObligation, Object}

  datatype ObligationFields = ObligationFields(
    normalizedObligation: string, actor: Option<string>, action: Option<string>, object_: Option<string>,
    conditions: seq<string>, exceptions: seq<string>, frequency: Option<string>, deadline: Option<string>,
    evidenceRequirement: Option<string>, penaltyReference: Option<string>, applicability: seq<string>,
    riskLevel: Option<string>)

  datatype ChangeKind = Created | Modified | Removed

  datatype ChangeVerdict = ChangeVerdict(kind: ChangeKind, changedFields: seq<Field>) {
    predicate IsSubstantive() {
      kind != Modified || changedFields != []
    }
  }

  datatype Rule =
    | NewHighRiskObligation | NewObligation | ObligationRemoved
    | DeadlineTightened | DeadlineRelaxed | DeadlineReworded | DeadlineChangedIncomparable
    | ActorExpanded | ActorChanged
    | NewEvidenceRequirement | EvidenceRequirementChanged | PenaltyIntroduced | PenaltyChanged
    | FrequencyIncreased | FrequencyDecreased | FrequencyChanged
    | ConditionsChanged | ActionChanged | TerminologyCleanup | WordingClarified

  datatype Reason = Reason(rule: Rule, fields: seq<Field>)

  datatype MaterialityVerdict = MaterialityVerdict(level: Level, reasons: seq<Reason>) {
    predicate RequiresConfirmation() {
      Rank(level) >= Rank(Medium)
    }
  }

  /** The character tables, and what pattern matching reads from a deadline and from a frequency. */
  datatype Reader = Reader(alphabet: Titles.Alphabet, days: string -> Option<nat>, recurrence: string -> Option<nat>)

  // --- differing fields ---

  /** A missing text counts as an empty one. */
  function Given(v: Option<string>): string {
    if v.Some? then v.value else ""
  }

  function TextOf(o: ObligationFields, f: Field): string {
    match f
    case NormalizedObligation => o.normalizedObligation
    case Actor => Given(o.actor)
    case Action => Given(o.action)
    case Object => Given(o.object_)
    case Frequency => Given(o.frequency)
    case Deadline => Given(o.deadline)
    case EvidenceRequirement => Given(o.evidenceRequirement)
    case PenaltyReference => Given(o.penaltyReference)
    case _ => ""
  }

  function ListOf(o: ObligationFields, f: Field): seq<string> {
    match f
    case Conditions => o.conditions
    case Exceptions => o.exceptions
    case Applicability => o.applicability
    case _ => []
  }

  function Norm(r: Reader, v: string): string {
    Titles.NormText(r.alphabet, v)
  }

  function NormSet(r: Reader, items: seq<string>): set<string> {
    set x | x in items && Norm(r, x) != "" :: Norm(r, x)
  }

  predicate IsList(f: Field) {
    f.Conditions? || f.Exceptions? || f.Applicability?
  }

  predicate Differs(r: Reader, before: ObligationFields, after: ObligationFields, f: Field) {
    if !IsList(f) then Norm(r, TextOf(before, f)) != Norm(r, TextOf(after, f))
    else NormSet(r, ListOf(before, f)) != NormSet(r, ListOf(after, f))
  }

  function Changed(r: Reader, before: ObligationFields, after: ObligationFields, fields: seq<Field>): (c: seq<Field>)
    ensures forall f :: f in c <==> f in fields && Differs(r, before, after, f)
  {
    if fields == [] then []
    else
      var rest, f := Changed(r, before, after, fields[..|fields| - 1]), fields[|fields| - 1];
      if Differs(r, before, after, f) then rest + [f] else rest
  }

  lemma EveryField(f: Field)
    ensures f in TEXT_FIELDS || f in LIST_FIELDS
  {
    assert TEXT_FIELDS[0] == NormalizedObligation && TEXT_FIELDS[1] == Actor && TEXT_FIELDS[2] == Action
           && TEXT_FIELDS[3] == Object && TEXT_FIELDS[4] == Frequency && TEXT_FIELDS[5] == Deadline
           && TEXT_FIELDS[6] == EvidenceRequirement && TEXT_FIELDS[7] == PenaltyReference;
    assert LIST_FIELDS[0] == Conditions && LIST_FIELDS[1] == Exceptions && LIST_FIELDS[2] == Applicability;
  }

  function ChangedFields(r: Reader, before: ObligationFields, after: ObligationFields): (c: seq<Field>)
    ensures forall f :: f in c <==> Differs(r, before, after, f)
  {
    forall f ensures f in TEXT_FIELDS || f in LIST_FIELDS { EveryField(f); }
    Changed(r, before, after, TEXT_FIELDS) + Changed(r, before, after, LIST_FIELDS)
  }

  method DiffFields(r: Reader, before: ObligationFields, after: ObligationFields) returns (changed: seq<Field>)
    ensures changed == ChangedFields(r, before, after)
  {
    hide Differs;
    changed := [];
    for i := 0 to |TEXT_FIELDS|
      invariant changed == Changed(r, before, after, TEXT_FIELDS[..i])
    {
      assert TEXT_FIELDS[..i + 1][..i] == TEXT_FIELDS[..i];
      if Differs(r, before, after, TEXT_FIELDS[i]) {
        changed := changed + [TEXT_FIELDS[i]];
      }
    }
    assert TEXT_FIELDS[..|TEXT_FIELDS|] == TEXT_FIELDS;
    for i := 0 to |LIST_FIELDS|
      invariant changed == Changed(r, before, after, TEXT_FIELDS) + Changed(r, before, after, LIST_FIELDS[..i])
    {
      assert LIST_FIELDS[..i + 1][..i] == LIST_FIELDS[..i];
      if Differs(r, before, after, LIST_FIELDS[i]) {
        changed := changed + [LIST_FIELDS[i]];
      }
    }
    assert LIST_FIELDS[..|LIST_FIELDS|] == LIST_FIELDS;
  }

  datatype Classification = ValueError | Classified(verdict: ChangeVerdict)

  function ClassifyChange(r: Reader, before: Option<ObligationFields>,
                          after: Option<ObligationFields>): Classification {
    match (before, after)
    case (None, None) => ValueError
    case (None, Some(_)) => Classified(ChangeVerdict(Created, []))
    case (Some(_), None) => Classified(ChangeVerdict(Removed, []))
    case (Some(o), Some(n)) => Classified(ChangeVerdict(Modified, ChangedFields(r, o, n)))
  }

  // --- the rules ---

  function DaysOf(r: Reader, v: Option<string>): Option<nat> {
    if Given(v) == "" then None else r.days(v.value)
  }

  function RecurrenceOf(r: Reader, v: Option<string>): Option<nat> {
    if Given(v) == "" then None else r.recurrence(v.value)
  }

  function LevelOf(rule: Rule): Level {
    match rule
    case NewHighRiskObligation | DeadlineTightened | ActorExpanded | NewEvidenceRequirement | PenaltyIntroduced => High
    case DeadlineReworded | FrequencyDecreased | TerminologyCleanup | WordingClarified => Low
    case _ => Medium
  }

  function DeadlineRule(r: Reader, before: ObligationFields, after: ObligationFields): Rule {
    match (DaysOf(r, before.deadline), DaysOf(r, after.deadline))
    case (Some(od), Some(nd)) =>
      if nd < od then DeadlineTightened else if nd > od then DeadlineRelaxed else DeadlineReworded
    case _ => DeadlineChangedIncomparable
  }

  /** Everyone the obligation binds: the applicability list and the actor. */
  function ActorSet(r: Reader, o: ObligationFields): set<string> {
    NormSet(r, o.applicability + (if Given(o.actor) != "" then [Given(o.actor)] else []))
  }

  function ActorRule(r: Reader, before: ObligationFields, after: ObligationFields): Rule {
    var was, now := ActorSet(r, before), ActorSet(r, after);
    if now - was != {} && was < now then ActorExpanded else ActorChanged
  }

  predicate Introduced(r: Reader, before: Option<string>, after: Option<string>) {
    Norm(r, Given(after)) != "" && Norm(r, Given(before)) == ""
  }

  function FrequencyRule(r: Reader, before: ObligationFields, after: ObligationFields): Rule {
    match (RecurrenceOf(r, before.frequency), RecurrenceOf(r, after.frequency))
    case (Some(o), Some(n)) =>
      if n > o then FrequencyIncreased else if n < o then FrequencyDecreased else FrequencyChanged
    case _ => FrequencyChanged
  }

  predicate Mentions(text: string, term: string) {
    exists i :: 0 <= i <= |text| && Citations.OccursAt(text, term, i)
  }

  /** A discontinued category is in the old wording and not in the new one. */
  predicate DropsTerm(r: Reader, before: ObligationFields, after: ObligationFields, term: string) {
    var was := Norm(r, before.normalizedObligation) + " " + Norm(r, Given(before.object_));
    var now := Norm(r, after.normalizedObligation) + " " + Norm(r, Given(after.object_));
    Mentions(was, term) && !Mentions(now, term)
  }

  function WordingRule(r: Reader, before: ObligationFields, after: ObligationFields): Rule {
    if DropsTerm(r, before, after, "sub-broker") || DropsTerm(r, before, after, "sub-brokers") then TerminologyCleanup
    else WordingClarified
  }

  function Picked(changed: set<Field>, f: Field, g: Field): seq<Field> {
    (if f in changed then [f] else []) + (if g in changed then [g] else [])
  }

  function Fire(changed: set<Field>, f: Field, rule: Rule): seq<Reason> {
    if f in changed then [Reason(rule, [f])] else []
  }

  /** A rule that either of two fields sets off. */
  function FireEither(changed: set<Field>, f: Field, g: Field, rule: Rule): seq<Reason> {
    if f in changed || g in changed then [Reason(rule, Picked(changed, f, g))] else []
  }

  function EvidenceRule(r: Reader, before: ObligationFields, after: ObligationFields): Rule {
    if Introduced(r, before.evidenceRequirement, after.evidenceRequirement) then NewEvidenceRequirement
    else EvidenceRequirementChanged
  }

  function PenaltyRule(r: Reader, before: ObligationFields, after: ObligationFields): Rule {
    if Introduced(r, before.penaltyReference, after.penaltyReference) then PenaltyIntroduced else PenaltyChanged
  }

  /** The rule a changed field sets off. */
  function FieldRule(r: Reader, before: ObligationFields, after: ObligationFields, f: Field): Rule {
    match f
    case Deadline => DeadlineRule(r, before, after)
    case Actor | Applicability => ActorRule(r, before, after)
    case EvidenceRequirement => EvidenceRule(r, before, after)
    case PenaltyReference => PenaltyRule(r, before, after)
    case Frequency => FrequencyRule(r, before, after)
    case Conditions | Exceptions => ConditionsChanged
    case Action => ActionChanged
    case NormalizedObligation | Object => WordingRule(r, before, after)
  }

  /** The reasons that material fields give, in the order the rules are tried. */
  function FiredReasons(r: Reader, changed: set<Field>, before: ObligationFields,
                        after: ObligationFields): seq<Reason> {
    Fire(changed, Deadline, FieldRule(r, before, after, Deadline))
    + FireEither(changed, Actor, Applicability, FieldRule(r, before, after, Actor))
    + Fire(changed, EvidenceRequirement, FieldRule(r, before, after, EvidenceRequirement))
    + Fire(changed, PenaltyReference, FieldRule(r, before, after, PenaltyReference))
    + Fire(changed, Frequency, FieldRule(r, before, after, Frequency))
    + FireEither(changed, Conditions, Exceptions, FieldRule(r, before, after, Conditions))
    + Fire(changed, Action, FieldRule(r, before, after, Action))
  }

  function ModifiedReasons(r: Reader, changed: set<Field>, before: ObligationFields,
                           after: ObligationFields): seq<Reason> {
    var fired := FiredReasons(r, changed, before, after);
    if changed == {} || fired != [] then fired
    else [Reason(WordingRule(r, before, after), Picked(changed, NormalizedObligation, Object))]
  }

  function Max(a: Level, b: Level): Level {
    if Rank(a) < Rank(b) then b else a
  }

  function Join(reasons: seq<Reason>): Level {
    if reasons == [] then NoChange else Max(Join(reasons[..|reasons| - 1]), LevelOf(reasons[|reasons| - 1].rule))
  }

  function HighRisk(level: Option<string>, r: Reader): bool {
    var s := Wording.Expand(r.alphabet.casefold, Titles.Strip(r.alphabet.blank, Given(level)));
    s == "high" || s == "critical"
  }

  function FieldSet(fields: seq<Field>): set<Field> {
    set f | f in fields
  }

  /** The verdict on an arbitrary change; the two sides are there when the change is a modification. */
  function Assessed(r: Reader, change: ChangeVerdict, before: Option<ObligationFields>, after: Option<ObligationFields>)
    : MaterialityVerdict
    requires change.kind == Modified && change.changedFields != [] ==> before.Some? && after.Some?
  {
    match change.kind
    case Created =>
      var rule := if after.Some? && HighRisk(after.value.riskLevel, r) then NewHighRiskObligation else NewObligation;
      MaterialityVerdict(LevelOf(rule), [Reason(rule, [])])
    case Removed => MaterialityVerdict(Medium, [Reason(ObligationRemoved, [])])
    case Modified =>
      if change.changedFields == [] then MaterialityVerdict(NoChange, [])
      else
        var reasons := ModifiedReasons(r, FieldSet(change.changedFields), before.value, after.value);
        MaterialityVerdict(Join(reasons), reasons)
  }

  method JoinLevels(reasons: seq<Reason>) returns (level: Level)
    ensures level == Join(reasons)
  {
    level := NoChange;
    for i := 0 to |reasons|
      invariant level == Join(reasons[..i])
    {
      assert reasons[..i + 1][..i] == reasons[..i];
      level := Max(level, LevelOf(reasons[i].rule));
    }
    assert reasons[..|reasons|] == reasons;
  }

  lemma JoinOne(reason: Reason)
    ensures Join([reason]) == LevelOf(reason.rule)
  {
    assert [reason][..0] == [];
  }

  method AssessMateriality(r: Reader, change: ChangeVerdict, before: Option<ObligationFields>,
                           after: Option<ObligationFields>)
    returns (m: MaterialityVerdict)
    requires change.kind == Modified && change.changedFields != [] ==> before.Some? && after.Some?
    ensures m == Assessed(r, change, before, after)
  {
    hide ModifiedReasons, HighRisk, Join;
    var reasons: seq<Reason> := [];
    if change.kind == Created {
      if after.Some? && HighRisk(after.value.riskLevel, r) {
        reasons := [Reason(NewHighRiskObligation, [])];
      } else {
        reasons := [Reason(NewObligation, [])];
      }
      JoinOne(reasons[0]);
    } else if change.kind == Removed {
      reasons := [Reason(ObligationRemoved, [])];
      JoinOne(reasons[0]);
    } else if change.changedFields == [] {
      return MaterialityVerdict(NoChange, []);
    } else {
      assert change.changedFields[0] in FieldSet(change.changedFields);
      reasons := AssessModified(r, FieldSet(change.changedFields), before.value, after.value);
    }
    var level := JoinLevels(reasons);
    m := MaterialityVerdict(level, reasons);
  }

  method AssessModified(r: Reader, changed: set<Field>, before: ObligationFields, after: ObligationFields)
    returns (reasons: seq<Reason>)
    requires changed != {}
    ensures reasons == ModifiedReasons(r, changed, before, after)
  {
    hide FiredReasons, WordingRule, Picked;
    reasons := ApplyRules(r, changed, before, after);
    if reasons == [] {
      reasons := [Reason(WordingRule(r, before, after), Picked(changed, NormalizedObligation, Object))];
    }
  }

  method ApplyRules(r: Reader, changed: set<Field>, before: ObligationFields, after: ObligationFields)
    returns (reasons: seq<Reason>)
    ensures reasons == FiredReasons(r, changed, before, after)
  {
    hide DeadlineRule, ActorRule, EvidenceRule, PenaltyRule, FrequencyRule, Picked, FiredReasons, FieldRule;
    reasons := [];
    if Deadline in changed {
      reasons := reasons + [Reason(DeadlineRule(r, before, after), [Deadline])];
    }
    var a := Fire(changed, Deadline, DeadlineRule(r, before, after));
    assert reasons == a;
    if Actor in changed || Applicability in changed {
      reasons := reasons + [Reason(ActorRule(r, before, after), Picked(changed, Actor, Applicability))];
    }
    var b := FireEither(changed, Actor, Applicability, ActorRule(r, before, after));
    assert reasons == a + b;
    if EvidenceRequirement in changed {
      reasons := reasons + [Reason(EvidenceRule(r, before, after), [EvidenceRequirement])];
    }
    var c := Fire(changed, EvidenceRequirement, EvidenceRule(r, before, after));
    assert reasons == a + b + c;
    if PenaltyReference in changed {
      reasons := reasons + [Reason(PenaltyRule(r, before, after), [PenaltyReference])];
    }
    var d := Fire(changed, PenaltyReference, PenaltyRule(r, before, after));
    assert reasons == a + b + c + d;
    if Frequency in changed {
      reasons := reasons + [Reason(FrequencyRule(r, before, after), [Frequency])];
    }
    var e := Fire(changed, Frequency, FrequencyRule(r, before, after));
    assert reasons == a + b + c + d + e;
    if Conditions in changed || Exceptions in changed {
      reasons := reasons + [Reason(ConditionsChanged, Picked(changed, Conditions, Exceptions))];
    }
    var g := FireEither(changed, Conditions, Exceptions, ConditionsChanged);
    assert reasons == a + b + c + d + e + g;
    if Action in changed {
      reasons := reasons + [Reason(ActionChanged, [Action])];
    }
    assert reasons == a + b + c + d + e + g + Fire(changed, Action, ActionChanged);
    FiredDirect(r, changed, before, after);
  }

  lemma FiredDirect(r: Reader, changed: set<Field>, before: ObligationFields, after: ObligationFields)
    ensures FiredReasons(r, changed, before, after)
            == Fire(changed, Deadline, DeadlineRule(r, before, after))
               + FireEither(changed, Actor, Applicability, ActorRule(r, before, after))
               + Fire(changed, EvidenceRequirement, EvidenceRule(r, before, after))
               + Fire(changed, PenaltyReference, PenaltyRule(r, before, after))
               + Fire(changed, Frequency, FrequencyRule(r, before, after))
               + FireEither(changed, Conditions, Exceptions, ConditionsChanged)
               + Fire(changed, Action, ActionChanged)
  {
    hide Fire, FireEither, DeadlineRule, ActorRule, EvidenceRule, PenaltyRule, FrequencyRule;
  }

  lemma FiredUnfold(r: Reader, changed: set<Field>, before: ObligationFields, after: ObligationFields)
    ensures FiredReasons(r, changed, before, after)
            == Fire(changed, Deadline, FieldRule(r, before, after, Deadline))
               + FireEither(changed, Actor, Applicability, FieldRule(r, before, after, Actor))
               + Fire(changed, EvidenceRequirement, FieldRule(r, before, after, EvidenceRequirement))
               + Fire(changed, PenaltyReference, FieldRule(r, before, after, PenaltyReference))
               + Fire(changed, Frequency, FieldRule(r, before, after, Frequency))
               + FireEither(changed, Conditions, Exceptions, FieldRule(r, before, after, Conditions))
               + Fire(changed, Action, FieldRule(r, before, after, Action))
  {
    hide Fire, FireEither, FieldRule;
  }

  // --- what the level means ---

  lemma {:induction false} JoinConcat(a: seq<Reason>, b: seq<Reason>)
    ensures Join(a + b) == Max(Join(a), Join(b))
  {
    if b == [] {
      assert a + b == a;
    } else {
      JoinConcat(a, b[..|b| - 1]);
      assert (a + b)[..|a + b| - 1] == a + b[..|b| - 1];
    }
  }

  /** `f` is among the changed fields, and its rule is at least as severe as `l`. */
  predicate Reaches(r: Reader, changed: set<Field>, before: ObligationFields, after: ObligationFields, f: Field,
                    l: Level) {
    f in changed && Rank(LevelOf(FieldRule(r, before, after, f))) >= Rank(l)
  }

  function FieldLevel(r: Reader, changed: set<Field>, before: ObligationFields, after: ObligationFields,
                      f: Field): Level {
    if f in changed then LevelOf(FieldRule(r, before, after, f)) else NoChange
  }

  /** `l` is the highest level among the rules of `fields`. */
  ghost predicate Worst(r: Reader, changed: set<Field>, before: ObligationFields, after: ObligationFields,
                        fields: set<Field>, l: Level) {
    && (forall f :: f in fields ==> Rank(FieldLevel(r, changed, before, after, f)) <= Rank(l))
    && (exists f :: f in fields && FieldLevel(r, changed, before, after, f) == l)
  }

  lemma WorstConcat(r: Reader, changed: set<Field>, before: ObligationFields, after: ObligationFields,
                    s: set<Field>, a: seq<Reason>, t: set<Field>, b: seq<Reason>)
    requires Worst(r, changed, before, after, s, Join(a)) && Worst(r, changed, before, after, t, Join(b))
    ensures Worst(r, changed, before, after, s + t, Join(a + b))
  {
    hide FieldLevel, Join;
    JoinConcat(a, b);
  }

  lemma WorstFire(r: Reader, changed: set<Field>, before: ObligationFields, after: ObligationFields, f: Field)
    ensures Worst(r, changed, before, after, {f}, Join(Fire(changed, f, FieldRule(r, before, after, f))))
  {
    JoinOne(Reason(FieldRule(r, before, after, f), [f]));
    assert Join([]) == NoChange;
    hide FieldRule, Join, LevelOf;
    assert f in {f};
  }

  lemma WorstFireEither(r: Reader, changed: set<Field>, before: ObligationFields, after: ObligationFields, f: Field,
                        g: Field)
    requires FieldRule(r, before, after, f) == FieldRule(r, before, after, g)
    ensures Worst(r, changed, before, after, {f, g}, Join(FireEither(changed, f, g, FieldRule(r, before, after, f))))
  {
    FireEitherLevel(changed, f, g, FieldRule(r, before, after, f));
    var l := Join(FireEither(changed, f, g, FieldRule(r, before, after, f)));
    assert FieldLevel(r, changed, before, after, f) == (if f in changed then l else NoChange)
           && FieldLevel(r, changed, before, after, g) == (if g in changed then l else NoChange)
           && (f !in changed && g !in changed ==> l == NoChange) by {
      hide FieldRule, LevelOf, Join, FireEither;
    }
    hide FieldRule, FieldLevel, LevelOf, Join, FireEither;
    assert f in {f, g} && g in {f, g};
  }

  lemma FireEitherLevel(changed: set<Field>, f: Field, g: Field, rule: Rule)
    ensures Join(FireEither(changed, f, g, rule)) == if f in changed || g in changed then LevelOf(rule) else NoChange
  {
    JoinOne(Reason(rule, Picked(changed, f, g)));
    assert Join([]) == NoChange;
    hide Join, Picked, LevelOf;
  }

  ghost const MATERIAL: set<Field> :=
    {Deadline} + {Actor, Applicability} + {EvidenceRequirement} + {PenaltyReference} + {Frequency}
    + {Conditions, Exceptions} + {Action}

  lemma MaterialOrWording(f: Field)
    ensures f in MATERIAL <==> f !in WORDING
  {
    match f
    case NormalizedObligation | Object =>
    case Deadline => assert f in {Deadline};
    case Actor | Applicability => assert f in {Actor, Applicability};
    case EvidenceRequirement => assert f in {EvidenceRequirement};
    case PenaltyReference => assert f in {PenaltyReference};
    case Frequency => assert f in {Frequency};
    case Conditions | Exceptions => assert f in {Conditions, Exceptions};
    case Action => assert f in {Action};
  }

  lemma SharedRules(r: Reader, before: ObligationFields, after: ObligationFields)
    ensures FieldRule(r, before, after, Actor) == FieldRule(r, before, after, Applicability)
    ensures FieldRule(r, before, after, Conditions) == FieldRule(r, before, after, Exceptions)
  {
    hide ActorRule;
  }

  lemma FiredLevel(r: Reader, changed: set<Field>, before: ObligationFields, after: ObligationFields)
    ensures Worst(r, changed, before, after, MATERIAL, Join(FiredReasons(r, changed, before, after)))
  {
    var a, b := Fire(changed, Deadline, FieldRule(r, before, after, Deadline)),
                FireEither(changed, Actor, Applicability, FieldRule(r, before, after, Actor));
    var c, d := Fire(changed, EvidenceRequirement, FieldRule(r, before, after, EvidenceRequirement)),
                Fire(changed, PenaltyReference, FieldRule(r, before, after, PenaltyReference));
    var e, g := Fire(changed, Frequency, FieldRule(r, before, after, Frequency)),
                FireEither(changed, Conditions, Exceptions, FieldRule(r, before, after, Conditions));
    var h := Fire(changed, Action, FieldRule(r, before, after, Action));
    assert MATERIAL == {Deadline} + {Actor, Applicability} + {EvidenceRequirement} + {PenaltyReference} + {Frequency}
                       + {Conditions, Exceptions} + {Action};
    hide *;
    FiredUnfold(r, changed, before, after);
    SharedRules(r, before, after);
    WorstFire(r, changed, before, after, Deadline);
    WorstFireEither(r, changed, before, after, Actor, Applicability);
    WorstFire(r, changed, before, after, EvidenceRequirement);
    WorstFire(r, changed, before, after, PenaltyReference);
    WorstFire(r, changed, before, after, Frequency);
    WorstFireEither(r, changed, before, after, Conditions, Exceptions);
    WorstFire(r, changed, before, after, Action);
    var s := {Deadline} + {Actor, Applicability};
    WorstConcat(r, changed, before, after, {Deadline}, a, {Actor, Applicability}, b);
    WorstConcat(r, changed, before, after, s, a + b, {EvidenceRequirement}, c);
    WorstConcat(r, changed, before, after, s + {EvidenceRequirement}, a + b + c, {PenaltyReference}, d);
    var t := s + {EvidenceRequirement} + {PenaltyReference};
    WorstConcat(r, changed, before, after, t, a + b + c + d, {Frequency}, e);
    WorstConcat(r, changed, before, after, t + {Frequency}, a + b + c + d + e, {Conditions, Exceptions}, g);
    WorstConcat(r, changed, before, after, t + {Frequency} + {Conditions, Exceptions},
                a + b + c + d + e + g, {Action}, h);
  }

  lemma FiredEmpty(r: Reader, changed: set<Field>, before: ObligationFields, after: ObligationFields)
    ensures FiredReasons(r, changed, before, after) == [] <==> changed <= WORDING
  {
    FiredLevel(r, changed, before, after);
    WordingIsLow(r, before, after);
    FiredUnfold(r, changed, before, after);
    hide FiredReasons, FieldRule, Picked;
    if changed <= WORDING {
      assert forall f :: f in MATERIAL ==> f !in changed;
    } else {
      var f :| f in changed && f !in WORDING;
      MaterialOrWording(f);
      assert FieldLevel(r, changed, before, after, f) != NoChange;
    }
  }

  lemma WordingLevel(r: Reader, changed: set<Field>, before: ObligationFields, after: ObligationFields)
    requires changed <= WORDING
    ensures Join(ModifiedReasons(r, changed, before, after)) == if changed == {} then NoChange else Low
  {
    FiredEmpty(r, changed, before, after);
    hide FiredReasons, DropsTerm;
    assert forall x: Reason :: [x][..0] == [];
  }

  /** The level of a modification is that of the most severe rule among its changed fields. */
  lemma LevelIsWorst(r: Reader, changed: set<Field>, before: ObligationFields, after: ObligationFields, l: Level)
    ensures Rank(Join(ModifiedReasons(r, changed, before, after))) >= Rank(l) <==>
            l == NoChange || exists f :: Reaches(r, changed, before, after, f, l)
  {
    FiredEmpty(r, changed, before, after);
    hide FiredReasons, FieldRule, Join;
    if changed <= WORDING {
      WordingLevel(r, changed, before, after);
      assert forall f :: f in WORDING ==> LevelOf(FieldRule(r, before, after, f)) == Low by {
        WordingIsLow(r, before, after);
      }
      if changed != {} {
        var f :| f in changed;
        assert Reaches(r, changed, before, after, f, Low);
      }
    } else {
      FiredLevel(r, changed, before, after);
      WordingIsLow(r, before, after);
      var material :| material in changed && material !in WORDING;
      MaterialOrWording(material);
      var top :| top in MATERIAL && FieldLevel(r, changed, before, after, top)
                                    == Join(FiredReasons(r, changed, before, after));
      assert Rank(FieldLevel(r, changed, before, after, material)) >= Rank(Low);
      assert top in changed;
      assert Reaches(r, changed, before, after, top, l) <==> Rank(LevelOf(FieldRule(r, before, after, top))) >= Rank(l);
      forall f | Reaches(r, changed, before, after, f, l)
        ensures Rank(Join(FiredReasons(r, changed, before, after))) >= Rank(l)
      {
        MaterialOrWording(f);
      }
    }
  }

  lemma WordingIsLow(r: Reader, before: ObligationFields, after: ObligationFields)
    ensures forall f :: f in WORDING ==> LevelOf(FieldRule(r, before, after, f)) == Low
    ensures forall rule :: LevelOf(rule) != NoChange
  {
    hide DropsTerm;
  }

  /** Enlarging the set of changed fields never lowers the level. */
  lemma MoreChangesNoLower(r: Reader, some: set<Field>, more: set<Field>, before: ObligationFields,
                           after: ObligationFields)
    requires some <= more
    ensures Rank(Join(ModifiedReasons(r, some, before, after))) <= Rank(Join(ModifiedReasons(r, more, before, after)))
  {
    var l := Join(ModifiedReasons(r, some, before, after));
    LevelIsWorst(r, some, before, after, l);
    LevelIsWorst(r, more, before, after, l);
    if l != NoChange {
      var f :| Reaches(r, some, before, after, f, l);
      assert Reaches(r, more, before, after, f, l);
    }
  }

  /** The verdict `assess_materiality` gives on what `classify_change` found. */
  function PairLevel(r: Reader, before: ObligationFields, after: ObligationFields): Level {
    Assessed(r, ClassifyChange(r, Some(before), Some(after)).verdict, Some(before), Some(after)).level
  }

  lemma PairReaches(r: Reader, before: ObligationFields, after: ObligationFields, l: Level)
    ensures Rank(PairLevel(r, before, after)) >= Rank(l) <==>
            l == NoChange
            || exists f :: Differs(r, before, after, f) && Rank(LevelOf(FieldRule(r, before, after, f))) >= Rank(l)
  {
    var changed := FieldSet(ChangedFields(r, before, after));
    LevelIsWorst(r, changed, before, after, l);
    assert forall f :: Differs(r, before, after, f) <==> f in changed;
    hide Differs, FieldRule, ModifiedReasons;
    if ChangedFields(r, before, after) == [] {
      assert forall f :: !Differs(r, before, after, f);
    }
    assert forall f :: Reaches(r, changed, before, after, f, l) <==>
        Differs(r, before, after, f) && Rank(LevelOf(FieldRule(r, before, after, f))) >= Rank(l);
  }

  // --- when each level is given ---

  lemma NormSetConcat(r: Reader, a: seq<string>, b: seq<string>)
    ensures NormSet(r, a + b) == NormSet(r, a) + NormSet(r, b)
  {
    hide Norm;
    var all := a + b;
    forall x | x in a ensures x in all {
      var i :| 0 <= i < |a| && a[i] == x;
      assert all[i] == x;
    }
    forall x | x in b ensures x in all {
      var i :| 0 <= i < |b| && b[i] == x;
      assert all[|a| + i] == x;
    }
  }

  /** The actor set can only change when the actor or the applicability list does. */
  lemma ActorsFollowFields(r: Reader, before: ObligationFields, after: ObligationFields)
    requires !Differs(r, before, after, Actor) && !Differs(r, before, after, Applicability)
    ensures ActorSet(r, before) == ActorSet(r, after)
  {
    ActorSetParts(r, before);
    ActorSetParts(r, after);
    hide ActorSet, NormSet, Norm;
  }

  lemma ActorSetParts(r: Reader, o: ObligationFields)
    ensures ActorSet(r, o) == NormSet(r, o.applicability)
                              + (if Norm(r, Given(o.actor)) != "" then {Norm(r, Given(o.actor))} else {})
  {
    var own := if Given(o.actor) != "" then [Given(o.actor)] else [];
    NormSetConcat(r, o.applicability, own);
    assert own != [] ==> own[0] == Given(o.actor);
    assert Norm(r, "") == "";
  }

  /** The deadline differs, parses on both sides, and shrinks. */
  predicate DeadlineShrinks(r: Reader, before: ObligationFields, after: ObligationFields) {
    && Differs(r, before, after, Deadline)
    && DaysOf(r, before.deadline).Some? && DaysOf(r, after.deadline).Some?
    && DaysOf(r, after.deadline).value < DaysOf(r, before.deadline).value
  }

  /** HIGH exactly when a changed deadline strictly shrinks, the actor set strictly grows, or an evidence
      requirement or a penalty appears where there was none. */
  lemma HighExactly(r: Reader, before: ObligationFields, after: ObligationFields)
    ensures PairLevel(r, before, after) == High <==>
            || DeadlineShrinks(r, before, after)
            || ActorSet(r, before) < ActorSet(r, after)
            || Introduced(r, before.evidenceRequirement, after.evidenceRequirement)
            || Introduced(r, before.penaltyReference, after.penaltyReference)
  {
    hide PairLevel, ActorSet, DaysOf, Norm, LevelOf, DeadlineRule, Differs, Introduced, FieldRule;
    PairReaches(r, before, after, High);
    if !Differs(r, before, after, Actor) && !Differs(r, before, after, Applicability) {
      ActorsFollowFields(r, before, after);
    }
    DeadlineTightens(r, before, after);
    IntroducedDiffers(r, before, after);
    HighFields(r, before, after);
    assert forall f :: Rank(LevelOf(FieldRule(r, before, after, f))) >= Rank(High) <==>
                       LevelOf(FieldRule(r, before, after, f)) == High;
  }

  lemma IntroducedDiffers(r: Reader, before: ObligationFields, after: ObligationFields)
    ensures Introduced(r, before.evidenceRequirement, after.evidenceRequirement)
            ==> Differs(r, before, after, EvidenceRequirement)
    ensures Introduced(r, before.penaltyReference, after.penaltyReference)
            ==> Differs(r, before, after, PenaltyReference)
  {
    hide Norm;
  }

  lemma DeadlineTightens(r: Reader, before: ObligationFields, after: ObligationFields)
    ensures DeadlineRule(r, before, after) == DeadlineTightened <==>
            && DaysOf(r, before.deadline).Some? && DaysOf(r, after.deadline).Some?
            && DaysOf(r, after.deadline).value < DaysOf(r, before.deadline).value
  {
  }

  lemma HighFields(r: Reader, before: ObligationFields, after: ObligationFields)
    ensures forall f :: LevelOf(FieldRule(r, before, after, f)) == High <==>
        || (f == Deadline && DeadlineRule(r, before, after) == DeadlineTightened)
        || (f in {Actor, Applicability} && ActorSet(r, before) < ActorSet(r, after))
        || (f == EvidenceRequirement && Introduced(r, before.evidenceRequirement, after.evidenceRequirement))
        || (f == PenaltyReference && Introduced(r, before.penaltyReference, after.penaltyReference))
  {
    hide ActorSet, DaysOf, Introduced;
    var was, now := ActorSet(r, before), ActorSet(r, after);
    if was < now {
      var x :| x in now && x !in was;
      assert x in now - was;
    }
  }

  /** NONE exactly when no normalised field differs. */
  lemma NoneExactly(r: Reader, before: ObligationFields, after: ObligationFields)
    ensures PairLevel(r, before, after) == NoChange <==> forall f :: !Differs(r, before, after, f)
  {
    PairReaches(r, before, after, Low);
    hide PairLevel, Differs, FieldRule;
    assert forall rule :: Rank(LevelOf(rule)) >= Rank(Low);
  }

  /** LOW exactly when something differs and all that differs is wording, a deadline of the same length, or
      a frequency that drops: nothing below MEDIUM touches who is bound, by what, or on which terms. */
  lemma LowExactly(r: Reader, before: ObligationFields, after: ObligationFields)
    ensures PairLevel(r, before, after) == Low <==>
            && (exists f :: Differs(r, before, after, f))
            && (forall f :: Differs(r, before, after, f) ==> f in WORDING || f in {Deadline, Frequency})
            && (Differs(r, before, after, Deadline) ==>
                  DaysOf(r, before.deadline).Some? && DaysOf(r, before.deadline) == DaysOf(r, after.deadline))
            && (Differs(r, before, after, Frequency) ==>
                  RecurrenceOf(r, before.frequency).Some? && RecurrenceOf(r, after.frequency).Some?
                  && RecurrenceOf(r, after.frequency).value < RecurrenceOf(r, before.frequency).value)
  {
    PairReaches(r, before, after, Low);
    PairReaches(r, before, after, Medium);
    hide PairLevel, Differs, DaysOf, RecurrenceOf, ActorSet, Introduced, DropsTerm;
    assert forall rule :: Rank(LevelOf(rule)) >= Rank(Low);
  }
}
