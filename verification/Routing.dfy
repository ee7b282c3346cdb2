/** Confidence and routing (packages/policy_engine/confidence.py, packages/ai/workflows/verification.py), and
    their replay from stored signals (packages/evaluation/runner.py). */
module Routing {
  import opened Options

  datatype Signal = Entailment | Neutral | Contradiction

  datatype Difficulty = Easy | Moderate | Hard

  datatype Route = AutoRegister | HumanReview | Reject

  datatype Band = HighBand | MediumBand | LowBand

  const ENTAILMENT_THRESHOLD := 0.65

  /** A citation's verdict, as far as routing looks at it. */
  datatype Check = Check(valid: bool, score: real)

  datatype ExtractionSignals = ExtractionSignals(
    citationsAllValid: bool, citationMinScore: real, entailment: Signal, criticHasObjection: bool,
    modelSelfConfidence: real, difficulty: Option<Difficulty>)

  datatype ConfidenceParams = ConfidenceParams(
    intercept: real, citationWeight: real, entailmentWeight: real, criticWeight: real, selfWeight: real,
    difficultyWeight: real, high: real, medium: real)

  const DEFAULT_PARAMS := ConfidenceParams(-2.0, 2.4, 1.2, -1.4, 1.6, -0.8, 0.80, 0.55)

  datatype ConfidenceVerdict = ConfidenceVerdict(score: real, band: Band)

  datatype Result<+T> = Ok(value: T) | ValueError

  /** The rounded logistic function. */
  type Logistic = real -> real

  predicate InUnit(x: real) {
    0.0 <= x <= 1.0
  }

  function ThresholdEntailment(stance: Signal, score: real, threshold: real): Result<Signal> {
    if !InUnit(score) || !InUnit(threshold) then ValueError
    else Ok(if score >= threshold then stance else Neutral)
  }

  function EntailmentValue(s: Signal): real {
    match s
    case Entailment => 1.0
    case Neutral => 0.0
    case Contradiction => -1.0
  }

  function DifficultyValue(d: Option<Difficulty>): real {
    match d
    case Some(Easy) => 0.0
    case Some(Hard) => 1.0
    case _ => 0.5
  }

  predicate WellOrdered(p: ConfidenceParams) {
    0.0 <= p.medium <= p.high <= 1.0
  }

  function Weighed(value: real, weight: real): real {
    value * weight
  }

  function Logit(s: ExtractionSignals, p: ConfidenceParams): real {
    p.intercept + Weighed(s.citationMinScore, p.citationWeight)
    + Weighed(EntailmentValue(s.entailment), p.entailmentWeight)
    + Weighed(if s.criticHasObjection then 1.0 else 0.0, p.criticWeight)
    + Weighed(s.modelSelfConfidence, p.selfWeight)
    + Weighed(DifficultyValue(s.difficulty), p.difficultyWeight)
  }

  function BandOf(score: real, p: ConfidenceParams): Band {
    if score >= p.high then HighBand else if score >= p.medium then MediumBand else LowBand
  }

  function AggregateConfidence(logistic: Logistic, s: ExtractionSignals,
                               p: ConfidenceParams): Result<ConfidenceVerdict> {
    if !InUnit(s.citationMinScore) || !InUnit(s.modelSelfConfidence) || !WellOrdered(p) then ValueError
    else if !s.citationsAllValid || s.entailment == Contradiction then Ok(ConfidenceVerdict(0.0, LowBand))
    else
      var score := logistic(Logit(s, p));
      Ok(ConfidenceVerdict(score, BandOf(score, p)))
  }

  predicate AllValid(checks: seq<Check>) {
    forall i :: 0 <= i < |checks| ==> checks[i].valid
  }

  function MinScore(checks: seq<Check>): real {
    if checks == [] then 0.0
    else if |checks| == 1 then checks[0].score
    else
      var rest, last := MinScore(checks[..|checks| - 1]), checks[|checks| - 1].score;
      if last < rest then last else rest
  }

  function RouteVerification(checks: seq<Check>, entailment: Signal, confidence: ConfidenceVerdict): Route {
    if checks == [] || !AllValid(checks) then Reject
    else if entailment == Contradiction then Reject
    else if confidence.band == HighBand && entailment == Entailment then AutoRegister
    else HumanReview
  }

  // --- one obligation ---

  /** A key of the stored risk factors: missing, there without a value, or a number. */
  datatype Recorded = Absent | Null | Value(value: real)

  datatype Assessment = Assessment(stance: Signal, score: real, objection: bool)

  /** What is kept of a verification. */
  datatype Provenance = Provenance(checks: seq<Check>, signal: Option<Signal>, objection: bool)

  datatype Obligation = Obligation(
    confidence: Option<real>, selfConfidence: Recorded, difficulty: Option<Difficulty>, validation: Option<Provenance>,
    status: Option<Route>)

  function Clamp(x: real): real {
    var low := if x < 1.0 then x else 1.0;
    if 0.0 < low then low else 0.0
  }

  /** The self-confidence a candidate is verified with. */
  function CandidateConfidence(o: Obligation): (r: real)
    ensures InUnit(r)
  {
    var raw := match o.selfConfidence
               case Absent => o.confidence
               case Null => None
               case Value(v) => Some(v);
    Clamp(if raw.Some? then raw.value else 0.5)
  }

  function SignalsOf(checks: seq<Check>, entailment: Signal, objection: bool, self: real,
                     difficulty: Option<Difficulty>)
    : ExtractionSignals
  {
    ExtractionSignals(checks != [] && AllValid(checks), MinScore(checks), entailment, objection, self, difficulty)
  }

  datatype Outcome = Outcome(signal: Signal, confidence: ConfidenceVerdict, route: Route)

  function Verify(logistic: Logistic, p: ConfidenceParams, o: Obligation, checks: seq<Check>,
                  a: Assessment): Result<Outcome> {
    match ThresholdEntailment(a.stance, a.score, ENTAILMENT_THRESHOLD)
    case ValueError => ValueError
    case Ok(signal) =>
      var signals := SignalsOf(checks, signal, a.objection, CandidateConfidence(o), o.difficulty);
      match AggregateConfidence(logistic, signals, p)
      case ValueError => ValueError
      case Ok(c) => Ok(Outcome(signal, c, RouteVerification(checks, signal, c)))
  }

  /** The obligation after its outcome is stored; its confidence is replaced by the score. */
  function Persisted(o: Obligation, checks: seq<Check>, a: Assessment, out: Outcome): Obligation {
    o.(confidence := Some(out.confidence.score), validation := Some(Provenance(checks, Some(out.signal), a.objection)),
       status := Some(out.route))
  }

  /** The score the logistic model gives the candidate. */
  function ModelScore(logistic: Logistic, p: ConfidenceParams, o: Obligation, checks: seq<Check>, a: Assessment): real {
    var signal := if a.score >= ENTAILMENT_THRESHOLD then a.stance else Neutral;
    logistic(Logit(SignalsOf(checks, signal, a.objection, CandidateConfidence(o), o.difficulty), p))
  }

  // --- verification on the numbers themselves ---

  /** The least of the scores, or 0 when there is none. */
  ghost predicate Least(checks: seq<Check>, worst: real) {
    if checks == [] then worst == 0.0
    else && (forall i :: 0 <= i < |checks| ==> worst <= checks[i].score)
         && (exists i :: 0 <= i < |checks| && worst == checks[i].score)
  }

  lemma {:induction false} MinScoreExactly(checks: seq<Check>, worst: real)
    ensures Least(checks, worst) <==> worst == MinScore(checks)
  {
    if |checks| > 1 {
      var t := checks[..|checks| - 1];
      MinScoreExactly(t, MinScore(t));
      assert forall i :: 0 <= i < |t| ==> t[i] == checks[i];
      var k :| 0 <= k < |t| && MinScore(t) == t[k].score;
      assert checks[k] == t[k];
    }
  }

  /** `r` is `x` brought into the unit interval. */
  predicate Clamped(x: real, r: real) {
    r == if x < 0.0 then 0.0 else if x > 1.0 then 1.0 else x
  }

  /** A citation is missing or not found, or the sources contradict the obligation. */
  ghost predicate Gated(checks: seq<Check>, signal: Signal) {
    checks == [] || (exists i :: 0 <= i < |checks| && !checks[i].valid) || signal == Contradiction
  }

  /** The weighted sum of the signals that are not a contradiction. */
  ghost function Evidence(p: ConfidenceParams, signal: Signal, objection: bool, worst: real, self: real,
                          difficulty: Option<Difficulty>): real
  {
    p.intercept + worst * p.citationWeight
    + (if signal == Entailment then p.entailmentWeight else 0.0)
    + (if objection then p.criticWeight else 0.0)
    + self * p.selfWeight
    + (if difficulty == Some(Easy) then 0.0
       else if difficulty == Some(Hard) then p.difficultyWeight
       else 0.5 * p.difficultyWeight)
  }

  /** The logistic of the weighted signals, or 0 behind a gate; and the band it falls in. */
  ghost predicate Weighs(logistic: Logistic, p: ConfidenceParams, checks: seq<Check>, signal: Signal, objection: bool,
                         worst: real, self: real, difficulty: Option<Difficulty>, c: ConfidenceVerdict)
  {
    if Gated(checks, signal) then c == ConfidenceVerdict(0.0, LowBand)
    else
      && c.score == logistic(Evidence(p, signal, objection, worst, self, difficulty))
      && (c.band == HighBand <==> c.score >= p.high)
      && (c.band == LowBand <==> c.score < p.high && c.score < p.medium)
  }

  ghost predicate RouteOf(checks: seq<Check>, signal: Signal, c: ConfidenceVerdict, route: Route) {
    route == if Gated(checks, signal) then Reject
             else if c.band == HighBand && signal == Entailment then AutoRegister
             else HumanReview
  }

  lemma AggregateExactly(logistic: Logistic, p: ConfidenceParams, checks: seq<Check>, signal: Signal, objection: bool,
                         worst: real, self: real, difficulty: Option<Difficulty>)
    requires Least(checks, worst)
    ensures var r := AggregateConfidence(logistic, SignalsOf(checks, signal, objection, self, difficulty), p);
            && (r.Ok? <==> 0.0 <= worst <= 1.0 && 0.0 <= self <= 1.0 && 0.0 <= p.medium <= p.high <= 1.0)
            && (r.Ok? ==> Weighs(logistic, p, checks, signal, objection, worst, self, difficulty, r.value)
                          && RouteOf(checks, signal, r.value, RouteVerification(checks, signal, r.value)))
  {
    MinScoreExactly(checks, worst);
    hide MinScore, Least;
    assert AllValid(checks) <==> !exists i :: 0 <= i < |checks| && !checks[i].valid;
    var s := SignalsOf(checks, signal, objection, self, difficulty);
    assert s.citationMinScore == worst && s.modelSelfConfidence == self && s.difficulty == difficulty;
    assert s.citationsAllValid && s.entailment != Contradiction <==> !Gated(checks, signal);
    if !Gated(checks, signal) {
      LogitExactly(s, p);
    }
    hide Logit, Evidence;
  }

  lemma LogitExactly(s: ExtractionSignals, p: ConfidenceParams)
    requires s.entailment != Contradiction
    ensures Logit(s, p) == Evidence(p, s.entailment, s.criticHasObjection, s.citationMinScore,
                                    s.modelSelfConfidence, s.difficulty)
  {
  }

  /** The self-confidence a candidate is verified with: the recorded one, or its own confidence where none is
      recorded, or one half. */
  ghost predicate UsesSelf(o: Obligation, self: real) {
    Clamped(match o.selfConfidence
            case Absent => if o.confidence.Some? then o.confidence.value else 0.5
            case Null => 0.5
            case Value(v) => v, self)
  }

  /** A verification is refused exactly on numbers out of range, and otherwise gives this signal, score, band and
      route. */
  lemma VerifyExactly(logistic: Logistic, p: ConfidenceParams, o: Obligation, checks: seq<Check>, a: Assessment,
                      worst: real, self: real)
    requires Least(checks, worst) && UsesSelf(o, self)
    ensures var r := Verify(logistic, p, o, checks, a);
            && (r.Ok? <==> 0.0 <= a.score <= 1.0 && 0.0 <= worst <= 1.0 && 0.0 <= p.medium <= p.high <= 1.0)
            && (r.Ok? ==>
                  && r.value.signal == (if a.score >= 0.65 then a.stance else Neutral)
                  && Weighs(logistic, p, checks, r.value.signal, a.objection, worst, self, o.difficulty,
                            r.value.confidence)
                  && RouteOf(checks, r.value.signal, r.value.confidence, r.value.route))
  {
    var signal := if a.score >= 0.65 then a.stance else Neutral;
    assert CandidateConfidence(o) == self;
    AggregateExactly(logistic, p, checks, signal, a.objection, worst, self, o.difficulty);
    hide AggregateConfidence, SignalsOf, RouteVerification, Weighs, RouteOf, CandidateConfidence;
  }

  /** The gates cannot be overridden: an obligation registers by itself exactly when it has a citation, all
      its citations are found, the model itself says entailment with score at least 0.65, and the
      confidence reaches the high threshold; it is rejected exactly on a citation failure or a
      contradiction at that score. */
  lemma RouteExactly(logistic: Logistic, p: ConfidenceParams, o: Obligation, checks: seq<Check>, a: Assessment)
    requires Verify(logistic, p, o, checks, a).Ok?
    ensures var out := Verify(logistic, p, o, checks, a).value;
            && (out.route == AutoRegister <==>
                && checks != [] && (forall i :: 0 <= i < |checks| ==> checks[i].valid)
                && a.stance == Entailment && a.score >= 0.65
                && out.confidence.score == ModelScore(logistic, p, o, checks, a) >= p.high)
            && (out.route == Reject <==>
                || checks == [] || (exists i :: 0 <= i < |checks| && !checks[i].valid)
                || (a.stance == Contradiction && a.score >= 0.65))
  {
    hide Logit, MinScore, CandidateConfidence;
  }

  // --- better signals never demote ---

  /** The signs of the default weights. */
  predicate Sensible(p: ConfidenceParams) {
    && p.citationWeight >= 0.0 && p.entailmentWeight >= 0.0 && p.selfWeight >= 0.0
    && p.criticWeight <= 0.0 && p.difficultyWeight <= 0.0
  }

  function RouteRank(r: Route): nat {
    match r
    case Reject => 0
    case HumanReview => 1
    case AutoRegister => 2
  }

  ghost predicate Monotone(logistic: Logistic) {
    forall x, y :: x <= y ==> logistic(x) <= logistic(y)
  }

  lemma ScaleUp(x: real, y: real, w: real)
    requires x <= y
    ensures w >= 0.0 ==> Weighed(x, w) <= Weighed(y, w)
    ensures w <= 0.0 ==> Weighed(y, w) <= Weighed(x, w)
  {
    assert y * w - x * w == (y - x) * w;
  }

  /** At least as good in every signal. */
  predicate Dominates(t: ExtractionSignals, s: ExtractionSignals) {
    && t.citationMinScore >= s.citationMinScore
    && EntailmentValue(t.entailment) >= EntailmentValue(s.entailment)
    && (t.criticHasObjection ==> s.criticHasObjection)
    && t.modelSelfConfidence >= s.modelSelfConfidence
    && DifficultyValue(t.difficulty) <= DifficultyValue(s.difficulty)
  }

  lemma LogitMonotone(s: ExtractionSignals, t: ExtractionSignals, p: ConfidenceParams)
    requires Sensible(p) && Dominates(t, s)
    ensures Logit(s, p) <= Logit(t, p)
  {
    hide EntailmentValue, DifficultyValue, Weighed;
    ScaleUp(s.citationMinScore, t.citationMinScore, p.citationWeight);
    ScaleUp(EntailmentValue(s.entailment), EntailmentValue(t.entailment), p.entailmentWeight);
    ScaleUp(if t.criticHasObjection then 1.0 else 0.0, if s.criticHasObjection then 1.0 else 0.0, p.criticWeight);
    ScaleUp(s.modelSelfConfidence, t.modelSelfConfidence, p.selfWeight);
    ScaleUp(DifficultyValue(t.difficulty), DifficultyValue(s.difficulty), p.difficultyWeight);
  }

  /** With weights signed as the defaults are, citations that score higher, a stronger entailment, one
      objection less, more self-confidence or less difficulty never lead to a worse route. */
  lemma BetterNeverDemotes(logistic: Logistic, p: ConfidenceParams, cs: seq<Check>, s: ExtractionSignals,
                           ds: seq<Check>, t: ExtractionSignals)
    requires Monotone(logistic) && Sensible(p) && Dominates(t, s)
    requires AggregateConfidence(logistic, s, p).Ok? && AggregateConfidence(logistic, t, p).Ok?
    requires s.citationsAllValid == (cs != [] && AllValid(cs)) && t.citationsAllValid == (ds != [] && AllValid(ds))
    requires s.citationsAllValid ==> t.citationsAllValid
    ensures RouteRank(RouteVerification(cs, s.entailment, AggregateConfidence(logistic, s, p).value))
            <= RouteRank(RouteVerification(ds, t.entailment, AggregateConfidence(logistic, t, p).value))
  {
    hide Logit, AllValid;
    LogitMonotone(s, t, p);
  }

  /** What the default parameters weigh. */
  lemma DefaultLogit(s: ExtractionSignals)
    requires s.entailment != Contradiction
    ensures Logit(s, DEFAULT_PARAMS)
            == -2.0 + 2.4 * s.citationMinScore + (if s.entailment == Entailment then 1.2 else 0.0)
               - (if s.criticHasObjection then 1.4 else 0.0) + 1.6 * s.modelSelfConfidence
               - (if s.difficulty == Some(Easy) then 0.0 else if s.difficulty == Some(Hard) then 0.8 else 0.4)
    ensures DEFAULT_PARAMS.high == 0.8 && DEFAULT_PARAMS.medium == 0.55
  {
  }

  /** The default parameters have those signs, and never raise. */
  lemma DefaultsNeverDemote(logistic: Logistic, cs: seq<Check>, s: ExtractionSignals,
                            ds: seq<Check>, t: ExtractionSignals)
    requires Monotone(logistic) && Dominates(t, s)
    requires s.citationsAllValid == (cs != [] && AllValid(cs)) && t.citationsAllValid == (ds != [] && AllValid(ds))
    requires s.citationsAllValid ==> t.citationsAllValid
    requires InUnit(s.citationMinScore) && InUnit(s.modelSelfConfidence)
    requires InUnit(t.citationMinScore) && InUnit(t.modelSelfConfidence)
    ensures var u := AggregateConfidence(logistic, s, DEFAULT_PARAMS);
            var v := AggregateConfidence(logistic, t, DEFAULT_PARAMS);
            u.Ok? && v.Ok?
            && RouteRank(RouteVerification(cs, s.entailment, u.value))
               <= RouteRank(RouteVerification(ds, t.entailment, v.value))
  {
    hide Logit, AllValid;
    BetterNeverDemotes(logistic, DEFAULT_PARAMS, cs, s, ds, t);
  }

  // --- replay ---

  datatype Replay = Skipped | Raised | Counted(route: Route)

  /** One stored obligation, routed again from its stored signals. */
  function ReplayOne(logistic: Logistic, p: ConfidenceParams, o: Obligation): Replay {
    if o.validation.None? || o.validation.value.checks == [] || o.validation.value.signal.None? then Skipped
    else if o.selfConfidence.Null? then Raised
    else
      var v := o.validation.value;
      var self := Clamp(if o.selfConfidence.Value? then o.selfConfidence.value else 0.5);
      match AggregateConfidence(logistic, SignalsOf(v.checks, v.signal.value, v.objection, self, o.difficulty), p)
      case ValueError => Raised
      case Ok(c) => Counted(RouteVerification(v.checks, v.signal.value, c))
  }

  /** What replay does with a stored obligation: it is left out without checks or without a signal, raises on a
      recorded null or on numbers out of range, and else has this route. */
  lemma ReplayedExactly(logistic: Logistic, p: ConfidenceParams, o: Obligation, v: Provenance, worst: real, self: real)
    requires o.validation == Some(v) && v.signal.Some? && Least(v.checks, worst)
    requires Clamped(if o.selfConfidence.Value? then o.selfConfidence.value else 0.5, self)
    ensures var r := ReplayOne(logistic, p, o);
            && (r.Skipped? <==> v.checks == [])
            && (r.Raised? <==> v.checks != []
                               && (o.selfConfidence == Null
                                   || !(0.0 <= worst <= 1.0 && 0.0 <= p.medium <= p.high <= 1.0)))
            && (r.Counted? ==>
                  exists c :: Weighs(logistic, p, v.checks, v.signal.value, v.objection, worst, self, o.difficulty, c)
                              && RouteOf(v.checks, v.signal.value, c, r.route))
  {
    AggregateExactly(logistic, p, v.checks, v.signal.value, v.objection, worst, self, o.difficulty);
    hide AggregateConfidence, SignalsOf, RouteVerification, Weighs, RouteOf, Least;
  }

  lemma ReplaySkips(logistic: Logistic, p: ConfidenceParams, o: Obligation)
    requires o.validation.None? || o.validation.value.signal.None?
    ensures ReplayOne(logistic, p, o) == Skipped
  {
  }

  datatype Split = Split(autoRegister: nat, humanReview: nat, reject: nat, skipped: nat)

  function Add(s: Split, r: Replay): Split
    requires !r.Raised?
  {
    match r
    case Skipped => s.(skipped := s.skipped + 1)
    case Counted(AutoRegister) => s.(autoRegister := s.autoRegister + 1)
    case Counted(HumanReview) => s.(humanReview := s.humanReview + 1)
    case Counted(Reject) => s.(reject := s.reject + 1)
  }

  /** The counts over the obligations, or nothing when one of them raises. */
  function SplitOf(logistic: Logistic, p: ConfidenceParams, os: seq<Obligation>): Option<Split> {
    if os == [] then Some(Split(0, 0, 0, 0))
    else
      match SplitOf(logistic, p, os[..|os| - 1])
      case None => None
      case Some(s) =>
        var r := ReplayOne(logistic, p, os[|os| - 1]);
        if r.Raised? then None else Some(Add(s, r))
  }

  method CalibratedRoutingSplit(logistic: Logistic, p: ConfidenceParams, os: seq<Obligation>) returns (r: Option<Split>)
    ensures r == SplitOf(logistic, p, os)
  {
    hide AggregateConfidence, RouteVerification, AllValid, MinScore, SignalsOf;
    var s := Split(0, 0, 0, 0);
    for k := 0 to |os|
      invariant SplitOf(logistic, p, os[..k]) == Some(s)
    {
      assert os[..k + 1][..k] == os[..k];
      var o := os[k];
      if o.validation.None? || o.validation.value.checks == [] || o.validation.value.signal.None? {
        s := s.(skipped := s.skipped + 1);
      } else {
        var v := o.validation.value;
        var verdict := if o.selfConfidence.Null? then ValueError
                       else AggregateConfidence(logistic,
                              SignalsOf(v.checks, v.signal.value, v.objection,
                                        Clamp(if o.selfConfidence.Value? then o.selfConfidence.value else 0.5),
                                        o.difficulty), p);
        if verdict.ValueError? {
          RaisedStays(logistic, p, os, k);
          return None;
        }
        s := Add(s, Counted(RouteVerification(v.checks, v.signal.value, verdict.value)));
      }
    }
    assert os[..|os|] == os;
    r := Some(s);
  }

  lemma {:induction false} RaisedStays(logistic: Logistic, p: ConfidenceParams, os: seq<Obligation>, k: nat)
    requires k < |os| && ReplayOne(logistic, p, os[k]).Raised?
    ensures SplitOf(logistic, p, os).None?
  {
    hide ReplayOne;
    if k < |os| - 1 { RaisedStays(logistic, p, os[..|os| - 1], k); }
  }

  /** How many of the first `k` obligations replay as `r`. */
  ghost function Replays(logistic: Logistic, p: ConfidenceParams, os: seq<Obligation>, r: Replay, k: nat): nat
    requires k <= |os|
  {
    if k == 0 then 0
    else Replays(logistic, p, os, r, k - 1) + if ReplayOne(logistic, p, os[k - 1]) == r then 1 else 0
  }

  lemma {:induction false} ReplaysFront(logistic: Logistic, p: ConfidenceParams, os: seq<Obligation>, r: Replay, k: nat)
    requires k < |os|
    ensures Replays(logistic, p, os[..|os| - 1], r, k) == Replays(logistic, p, os, r, k)
  {
    hide ReplayOne;
    if k == 0 {
    } else {
      ReplaysFront(logistic, p, os, r, k - 1);
    }
  }

  /** The split raises exactly when some obligation does, and else each counter is the number of obligations whose
      replay gives that route. */
  lemma {:induction false} SplitExactly(logistic: Logistic, p: ConfidenceParams, os: seq<Obligation>)
    ensures SplitOf(logistic, p, os).None? <==> Replays(logistic, p, os, Raised, |os|) > 0
    ensures SplitOf(logistic, p, os).Some? ==>
              var s := SplitOf(logistic, p, os).value;
              && s.autoRegister == Replays(logistic, p, os, Counted(AutoRegister), |os|)
              && s.humanReview == Replays(logistic, p, os, Counted(HumanReview), |os|)
              && s.reject == Replays(logistic, p, os, Counted(Reject), |os|)
              && s.skipped == Replays(logistic, p, os, Skipped, |os|)
  {
    hide ReplayOne;
    if os == [] {
    } else {
      SplitExactly(logistic, p, os[..|os| - 1]);
      ReplaysFront(logistic, p, os, Raised, |os| - 1);
      ReplaysFront(logistic, p, os, Skipped, |os| - 1);
      ReplaysFront(logistic, p, os, Counted(AutoRegister), |os| - 1);
      ReplaysFront(logistic, p, os, Counted(HumanReview), |os| - 1);
      ReplaysFront(logistic, p, os, Counted(Reject), |os| - 1);
    }
  }

  /** The counts and the skipped obligations add up. */
  lemma {:induction false} SplitComplete(logistic: Logistic, p: ConfidenceParams, os: seq<Obligation>)
    requires SplitOf(logistic, p, os).Some?
    ensures var s := SplitOf(logistic, p, os).value;
            s.autoRegister + s.humanReview + s.reject + s.skipped == |os|
  {
    hide ReplayOne;
    if os == [] {
    } else {
      SplitComplete(logistic, p, os[..|os| - 1]);
    }
  }

  /** Replay sees the self-confidence the obligation was verified with: it is recorded, or it was missing
      and the value used instead came to 0.5. */
  predicate SameSelf(o: Obligation) {
    match o.selfConfidence
    case Absent => o.confidence.None? || o.confidence.value == 0.5
    case Null => false
    case Value(_) => true
  }

  /** Then replay with the same parameters gives the route that was given, if the obligation has a citation
      at all; without one it was rejected, and replay leaves it out.  A recorded null makes it raise. */
  lemma ReplayAgrees(logistic: Logistic, p: ConfidenceParams, o: Obligation, checks: seq<Check>, a: Assessment)
    requires Verify(logistic, p, o, checks, a).Ok?
    ensures var out := Verify(logistic, p, o, checks, a).value;
            var replay := ReplayOne(logistic, p, Persisted(o, checks, a, out));
            && (checks != [] && SameSelf(o) ==> replay == Counted(out.route))
            && (checks == [] ==> out.route == Reject && replay == Skipped)
            && (checks != [] && o.selfConfidence == Null ==> replay == Raised)
  {
    hide Logit, AllValid, MinScore;
  }

  /** Scores are probabilities, and not all the same: so much is left of the logistic function by rounding. */
  ghost predicate Scoring(logistic: Logistic) {
    && (forall x :: InUnit(logistic(x)))
    && (exists x, y :: logistic(x) < logistic(y))
  }

  ghost predicate AgreesUnder(logistic: Logistic, p: ConfidenceParams, o: Obligation, checks: seq<Check>,
                              a: Assessment) {
    var v := Verify(logistic, p, o, checks, a);
    v.Ok? ==> ReplayOne(logistic, p, Persisted(o, checks, a, v.value)) == Counted(v.value.route)
  }

  /** Parameters under which only self-confidence counts. */
  function SelfOnly(intercept: real, weight: real, high: real): ConfidenceParams {
    ConfidenceParams(intercept, 0.0, 0.0, 0.0, weight, 0.0, high, 0.0)
  }

  lemma SelfOnlyLogit(s: ExtractionSignals, intercept: real, weight: real, high: real)
    ensures Logit(s, SelfOnly(intercept, weight, high)) == intercept + Weighed(s.modelSelfConfidence, weight)
  {
  }

  /** A straight line may take 0.5 and any other place to any two values. */
  lemma LineThrough(u: real, x: real, y: real) returns (intercept: real, weight: real)
    requires u != 0.5
    ensures intercept + Weighed(0.5, weight) == x && intercept + Weighed(u, weight) == y
  {
    weight := (y - x) / (u - 0.5);
    assert (u - 0.5) * weight == y - x;
    intercept := x - 0.5 * weight;
  }

  /** Two different self-confidences can always be told apart by some parameters. */
  lemma Distinguished(logistic: Logistic, o: Obligation, checks: seq<Check>, a: Assessment)
    returns (p: ConfidenceParams)
    requires Scoring(logistic) && checks != [] && AllValid(checks) && InUnit(MinScore(checks)) && InUnit(a.score)
    requires o.selfConfidence.Absent? && CandidateConfidence(o) != 0.5
    requires a.stance == Entailment && a.score >= ENTAILMENT_THRESHOLD
    ensures !AgreesUnder(logistic, p, o, checks, a)
  {
    hide AllValid, MinScore, Logit, Weighed;
    var used := CandidateConfidence(o);
    var x, y :| logistic(x) < logistic(y);
    var intercept, weight := LineThrough(used, x, y);
    p := SelfOnly(intercept, weight, logistic(y));
    SelfOnlyLogit(SignalsOf(checks, Entailment, a.objection, used, o.difficulty), intercept, weight, p.high);
    SelfOnlyLogit(SignalsOf(checks, Entailment, a.objection, 0.5, o.difficulty), intercept, weight, p.high);
  }

  /** Exactly when replay agrees under every choice of parameters: the obligation has a citation, its
      self-confidence is not a recorded null, and replay either sees the self-confidence that verification
      used or does not need it, because a citation failed or the thresholded signal is not entailment. */
  lemma ReplayExactly(logistic: Logistic, o: Obligation, checks: seq<Check>, a: Assessment)
    requires Scoring(logistic) && InUnit(MinScore(checks)) && InUnit(a.score)
    ensures (forall p :: AgreesUnder(logistic, p, o, checks, a)) <==>
            && checks != [] && o.selfConfidence != Null
            && (SameSelf(o) || !AllValid(checks) || a.stance != Entailment || a.score < ENTAILMENT_THRESHOLD)
  {
    hide Logit, AllValid, MinScore, CandidateConfidence;
    if checks == [] || o.selfConfidence == Null {
      assert !AgreesUnder(logistic, SelfOnly(0.0, 0.0, 1.0), o, checks, a);
    } else if SameSelf(o) || !AllValid(checks) || a.stance != Entailment || a.score < ENTAILMENT_THRESHOLD {
      forall p ensures AgreesUnder(logistic, p, o, checks, a) {
        AgreesAnyway(logistic, p, o, checks, a);
      }
    } else {
      assert CandidateConfidence(o) != 0.5 by { OwnConfidence(o); }
      var p := Distinguished(logistic, o, checks, a);
    }
  }

  lemma OwnConfidence(o: Obligation)
    requires o.selfConfidence.Absent? && !SameSelf(o)
    ensures CandidateConfidence(o) != 0.5
  {
  }

  lemma AgreesAnyway(logistic: Logistic, p: ConfidenceParams, o: Obligation, checks: seq<Check>, a: Assessment)
    requires checks != [] && o.selfConfidence != Null
    requires SameSelf(o) || !AllValid(checks) || a.stance != Entailment || a.score < ENTAILMENT_THRESHOLD
    ensures AgreesUnder(logistic, p, o, checks, a)
  {
    hide Logit, AllValid, MinScore;
  }
}
