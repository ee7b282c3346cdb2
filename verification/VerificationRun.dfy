/** The resumable verification run (apps/api/services/verification_service.py) as a protocol: one
    worker commits one obligation at a time, may fail or crash between commits, and resumes. */
module VerificationRun {
  import opened Options
  import opened Sorting
  import Batching

  type Id = nat
  type Provenance = seq<string>

  datatype Route = AutoRegister | HumanReview | Reject

  datatype Usage = Usage(prompt: Option<nat>, completion: Option<nat>) {
    function Total(): Option<nat> {
      if prompt.None? || completion.None? then None else Some(prompt.value + completion.value)
    }
  }

  datatype Status = Running | Paused | Completed

  datatype Run = Run(
    provenance: Provenance,
    status: Status,
    sealed: bool,
    total: nat,
    approved: nat,
    rejected: nat,
    reviewPending: nat,
    tokens: nat,
    unreported: nat,
    completed: seq<Id>,
    failures: nat)

  /** One obligation's validation results under one run. */
  datatype Validation = Validation(run: nat, id: Id, route: Route)

  datatype Invocation = Invocation(run: nat, usage: Usage)

  /** The committed state of one document: runs in creation order, the active obligations, and what
      verification has written. */
  datatype Db = Db(
    runs: seq<Run>,
    active: set<Id>,
    validations: seq<Validation>,
    invocations: seq<Invocation>,
    status: map<Id, Route>,
    verifiedBy: map<Id, nat>,
    tasks: seq<Id>)

  const EMPTY := Db([], {}, [], [], map[], map[], [])

  // --- the committed steps ---

  /** The most recent run among the first `n` that is running or paused. */
  function LatestOpen(runs: seq<Run>, n: nat): (r: Option<nat>)
    requires n <= |runs|
    ensures r.Some? ==> r.value < n && runs[r.value].status != Completed
    ensures forall k :: (if r.Some? then r.value + 1 else 0) <= k < n ==> runs[k].status == Completed
  {
    if n == 0 then None
    else if runs[n - 1].status != Completed then Some(n - 1)
    else LatestOpen(runs, n - 1)
  }

  function NewRun(provenance: Provenance, total: nat): Run {
    Run(provenance, Running, false, total, 0, 0, 0, 0, 0, [], 0)
  }

  /** Only the latest open run is considered, and only when its provenance is the same. */
  function CreateOrResume(db: Db, provenance: Provenance, total: nat): (Db, nat) {
    var open := LatestOpen(db.runs, |db.runs|);
    if open.Some? && db.runs[open.value].provenance == provenance then
      (db.(runs := db.runs[open.value := db.runs[open.value].(status := Running)]), open.value)
    else
      (db.(runs := db.runs + [NewRun(provenance, total)]), |db.runs|)
  }

  /** The run is `run`: the last that is not completed, if it has this provenance, set running again; else a new
      one without any work. */
  lemma ResumeExactly(db: Db, provenance: Provenance, total: nat)
    ensures var (db', run) := CreateOrResume(db, provenance, total);
            && db' == db.(runs := db'.runs)
            && ((exists k: nat :: IsLastOpen(db.runs, k) && db.runs[k].provenance == provenance) ==>
                  && IsLastOpen(db.runs, run) && db.runs[run].provenance == provenance
                  && db'.runs == db.runs[run := db.runs[run].(status := Running)])
            && ((forall k: nat :: IsLastOpen(db.runs, k) ==> db.runs[k].provenance != provenance) ==>
                  && run == |db.runs| && db'.runs[..run] == db.runs && |db'.runs| == run + 1
                  && db'.runs[run] == Run(provenance, Running, false, total, 0, 0, 0, 0, 0, [], 0))
  {
    var open := LatestOpen(db.runs, |db.runs|);
    assert open.Some? ==> IsLastOpen(db.runs, open.value);
    forall k: nat | IsLastOpen(db.runs, k) ensures open == Some(k) {
    }
  }

  ghost predicate IsLastOpen(runs: seq<Run>, k: nat) {
    k < |runs| && runs[k].status != Completed && forall j :: k < j < |runs| ==> runs[j].status == Completed
  }

  /** A run left open after which every other is completed is the one that its provenance resumes. */
  lemma OpenResumed(db: Db, provenance: Provenance, total: nat, run: nat)
    requires run < |db.runs| && db.runs[run].status != Completed && db.runs[run].provenance == provenance
    requires forall k :: run < k < |db.runs| ==> db.runs[k].status == Completed
    ensures CreateOrResume(db, provenance, total).1 == run
  {
    assert LatestOpen(db.runs, |db.runs|) == Some(run);
  }

  function One(b: bool): nat {
    if b then 1 else 0
  }

  /** The run's side of one persisted outcome; `usage` is charged to the first outcome of a batch. */
  function Record(run: Run, id: Id, route: Route, usage: Option<Usage>): Run {
    var charged := if usage.Some? then usage.value.Total() else Some(0);
    run.(
      completed := if id in run.completed then run.completed else run.completed + [id],
      approved := run.approved + One(route == AutoRegister),
      rejected := run.rejected + One(route == Reject),
      reviewPending := run.reviewPending + One(route == HumanReview),
      tokens := run.tokens + (if charged.Some? then charged.value else 0),
      unreported := run.unreported + One(charged.None?))
  }

  function Persist(db: Db, run: nat, id: Id, route: Route, usage: Option<Usage>): Db
    requires run < |db.runs|
  {
    db.(
      runs := db.runs[run := Record(db.runs[run], id, route, usage)],
      validations := db.validations + [Validation(run, id, route)],
      invocations := if usage.Some? then db.invocations + [Invocation(run, usage.value)] else db.invocations,
      status := db.status[id := route],
      verifiedBy := db.verifiedBy[id := run],
      tasks := if route == AutoRegister || id in db.tasks then db.tasks else db.tasks + [id])
  }

  function Pause(db: Db, run: nat): Db
    requires run < |db.runs|
  {
    db.(runs := db.runs[run := db.runs[run].(status := Paused, failures := db.runs[run].failures + 1)])
  }

  function ValidatedIds(validations: seq<Validation>, run: nat): set<Id> {
    set v | v in validations && v.run == run :: v.id
  }

  function CompletedIds(run: Run): set<Id> {
    set id | id in run.completed
  }

  predicate Sealable(db: Db, run: nat)
    requires run < |db.runs|
  {
    && db.active == CompletedIds(db.runs[run])
    && db.active == ValidatedIds(db.validations, run)
  }

  /** A run that may not be sealed is left as it is. */
  function Seal(db: Db, run: nat): Db
    requires run < |db.runs|
  {
    if Sealable(db, run) then
      db.(runs := db.runs[run := db.runs[run].(status := Completed, sealed := true)],
          verifiedBy := db.verifiedBy + map id | id in db.active :: run)
    else db
  }

  // --- what a database must satisfy ---

  ghost function Routed(validations: seq<Validation>, run: nat, route: Route): nat {
    if validations == [] then 0
    else
      var v := validations[|validations| - 1];
      Routed(validations[..|validations| - 1], run, route) + One(v.run == run && v.route == route)
  }

  ghost function TokenSum(invocations: seq<Invocation>, run: nat): nat {
    if invocations == [] then 0
    else
      var i := invocations[|invocations| - 1];
      TokenSum(invocations[..|invocations| - 1], run)
      + if i.run == run && i.usage.prompt.Some? && i.usage.completion.Some?
        then i.usage.prompt.value + i.usage.completion.value else 0
  }

  ghost function Unreported(invocations: seq<Invocation>, run: nat): nat {
    if invocations == [] then 0
    else
      var i := invocations[|invocations| - 1];
      Unreported(invocations[..|invocations| - 1], run)
      + One(i.run == run && (i.usage.prompt.None? || i.usage.completion.None?))
  }

  /** The run's counters tell the rows written under it: routes by route, tokens by invocation, and
      as many outcomes as completed obligations, each validated. */
  ghost predicate Accounted(db: Db, r: nat)
    requires r < |db.runs|
  {
    var run := db.runs[r];
    && Distinct(run.completed)
    && run.approved == Routed(db.validations, r, AutoRegister)
    && run.rejected == Routed(db.validations, r, Reject)
    && run.reviewPending == Routed(db.validations, r, HumanReview)
    && run.approved + run.rejected + run.reviewPending == |run.completed|
    && CompletedIds(run) == ValidatedIds(db.validations, r)
    && run.tokens == TokenSum(db.invocations, r)
    && run.unreported == Unreported(db.invocations, r)
    && (run.sealed <==> run.status == Completed)
  }

  ghost predicate Consistent(db: Db) {
    && (forall r :: 0 <= r < |db.runs| ==> Accounted(db, r))
    && (forall v :: v in db.validations ==> v.run < |db.runs|)
    && (forall i :: i in db.invocations ==> i.run < |db.runs|)
    && Distinct(db.tasks)
    && (forall id :: id in db.status && db.status[id] != AutoRegister ==> id in db.tasks)
  }

  // --- each step keeps it ---

  lemma {:induction false} NoRows(db: Db, r: nat)
    requires forall v :: v in db.validations ==> v.run < r
    requires forall i :: i in db.invocations ==> i.run < r
    ensures forall route :: Routed(db.validations, r, route) == 0
    ensures TokenSum(db.invocations, r) == 0 && Unreported(db.invocations, r) == 0
    ensures ValidatedIds(db.validations, r) == {}
    decreases |db.validations| + |db.invocations|
  {
    if db.validations != [] {
      var last := db.validations[|db.validations| - 1];
      assert last in db.validations;
      NoRows(db.(validations := db.validations[..|db.validations| - 1]), r);
    } else if db.invocations != [] {
      var last := db.invocations[|db.invocations| - 1];
      assert last in db.invocations;
      NoRows(db.(invocations := db.invocations[..|db.invocations| - 1]), r);
    }
  }

  lemma ResumeConsistent(db: Db, provenance: Provenance, total: nat)
    requires Consistent(db)
    ensures var (db', r) := CreateOrResume(db, provenance, total);
            Consistent(db') && r < |db'.runs| && db'.runs[r].status == Running && !db'.runs[r].sealed
  {
    var (db', r) := CreateOrResume(db, provenance, total);
    if r == |db.runs| {
      NoRows(db, r);
      assert CompletedIds(db'.runs[r]) == {};
    } else {
      assert Accounted(db, r);
    }
    forall k | 0 <= k < |db'.runs| ensures Accounted(db', k) {
      if k < |db.runs| {
        assert Accounted(db, k);
        assert CompletedIds(db'.runs[k]) == CompletedIds(db.runs[k]);
      }
    }
  }

  lemma PersistRows(db: Db, run: nat, id: Id, route: Route, usage: Option<Usage>, r: nat)
    requires run < |db.runs|
    ensures var db' := Persist(db, run, id, route, usage);
            && (forall x :: Routed(db'.validations, r, x) == Routed(db.validations, r, x) + One(run == r && route == x))
            && ValidatedIds(db'.validations, r) == ValidatedIds(db.validations, r) + (if run == r then {id} else {})
            && TokenSum(db'.invocations, r) == TokenSum(db.invocations, r)
               + (if run == r && usage.Some? && usage.value.Total().Some? then usage.value.Total().value else 0)
            && Unreported(db'.invocations, r)
               == Unreported(db.invocations, r) + One(run == r && usage.Some? && usage.value.Total().None?)
  {
    var db' := Persist(db, run, id, route, usage);
    var v := Validation(run, id, route);
    assert db'.validations[..|db.validations|] == db.validations;
    assert usage.Some? ==> db'.invocations[..|db.invocations|] == db.invocations;
    forall x ensures x in ValidatedIds(db'.validations, r)
                     <==> x in ValidatedIds(db.validations, r) || (run == r && x == id) {
      if x in ValidatedIds(db'.validations, r) {
        var w :| w in db'.validations && w.run == r && w.id == x;
      }
      if run == r && x == id {
        assert v in db'.validations;
      }
      if x in ValidatedIds(db.validations, r) {
        var w :| w in db.validations && w.run == r && w.id == x;
        assert w in db'.validations;
      }
    }
  }

  /** Persisting keeps the accounts exactly when the obligation was not yet completed under the run:
      a second time, the counters would move and the checkpoint would not. */
  lemma PersistAccounted(db: Db, run: nat, id: Id, route: Route, usage: Option<Usage>)
    requires run < |db.runs| && Accounted(db, run)
    ensures Accounted(Persist(db, run, id, route, usage), run) <==> id !in db.runs[run].completed
  {
    hide Routed, TokenSum, Unreported, ValidatedIds;
    var db' := Persist(db, run, id, route, usage);
    PersistRows(db, run, id, route, usage, run);
    if id !in db.runs[run].completed {
      assert CompletedIds(db'.runs[run]) == CompletedIds(db.runs[run]) + {id};
    }
  }

  lemma PersistConsistent(db: Db, run: nat, id: Id, route: Route, usage: Option<Usage>)
    requires Consistent(db) && run < |db.runs| && id !in db.runs[run].completed
    ensures Consistent(Persist(db, run, id, route, usage))
  {
    var db' := Persist(db, run, id, route, usage);
    PersistTables(db, run, id, route, usage);
    hide Accounted, Persist, Distinct;
    forall r | 0 <= r < |db'.runs| ensures Accounted(db', r) {
      assert Accounted(db, r);
      if r == run {
        PersistAccounted(db, run, id, route, usage);
      } else {
        PersistOther(db, run, id, route, usage, r);
      }
    }
  }

  lemma PersistOther(db: Db, run: nat, id: Id, route: Route, usage: Option<Usage>, r: nat)
    requires run < |db.runs| && r < |db.runs| && r != run && Accounted(db, r)
    ensures r < |Persist(db, run, id, route, usage).runs| && Accounted(Persist(db, run, id, route, usage), r)
  {
    PersistRows(db, run, id, route, usage, r);
    hide Routed, TokenSum, Unreported, ValidatedIds;
  }

  lemma PersistTables(db: Db, run: nat, id: Id, route: Route, usage: Option<Usage>)
    requires Consistent(db) && run < |db.runs|
    ensures var db' := Persist(db, run, id, route, usage);
            && |db'.runs| == |db.runs|
            && (forall v :: v in db'.validations ==> v.run < |db'.runs|)
            && (forall i :: i in db'.invocations ==> i.run < |db'.runs|)
            && Distinct(db'.tasks)
            && (forall x :: x in db'.status && db'.status[x] != AutoRegister ==> x in db'.tasks)
  {
    hide Accounted;
  }

  lemma PauseConsistent(db: Db, run: nat)
    requires Consistent(db) && run < |db.runs| && db.runs[run].status == Running
    ensures Consistent(Pause(db, run))
  {
    var db' := Pause(db, run);
    forall r | 0 <= r < |db'.runs| ensures Accounted(db', r) {
      assert Accounted(db, r);
      assert CompletedIds(db'.runs[r]) == CompletedIds(db.runs[r]);
    }
  }

  lemma SealConsistent(db: Db, run: nat)
    requires Consistent(db) && run < |db.runs|
    ensures Consistent(Seal(db, run))
  {
    var db' := Seal(db, run);
    forall r | 0 <= r < |db'.runs| ensures Accounted(db', r) {
      assert Accounted(db, r);
      assert CompletedIds(db'.runs[r]) == CompletedIds(db.runs[r]);
    }
  }

  // --- the worker ---

  /** What the single worker holds in memory: the candidates it read, the batches still to send, and
      the outcomes of the current batch still to commit with the usage to charge. */
  datatype Worker =
    | Idle
    | Working(run: nat, candidates: seq<Id>, batches: seq<seq<Id>>, outcomes: seq<(Id, Route)>, usage: Option<Usage>)

  datatype System = System(db: Db, worker: Worker)

  datatype Event =
    | Start(provenance: Provenance, candidates: seq<Id>, size: Id -> nat)
    | Verify(route: Id -> Route, usage: Usage)
    | PersistNext
    | Failure
    | Crash
    | Finish
    | Registry(active: set<Id>)

  function Ids(outcomes: seq<(Id, Route)>): seq<Id> {
    seq(|outcomes|, k requires 0 <= k < |outcomes| => outcomes[k].0)
  }

  function Elements(ids: seq<Id>): set<Id> {
    set id | id in ids
  }

  /** The candidates the run has not completed, in order. */
  function Pending(candidates: seq<Id>, completed: seq<Id>): (r: seq<Id>)
    ensures forall id :: id in r <==> id in candidates && id !in completed
    ensures Distinct(candidates) ==> Distinct(r)
  {
    if candidates == [] then []
    else
      var t, id := Pending(candidates[..|candidates| - 1], completed), candidates[|candidates| - 1];
      assert candidates == candidates[..|candidates| - 1] + [id];
      if id in completed then t else t + [id]
  }

  function Outcomes(batch: seq<Id>, route: Id -> Route): seq<(Id, Route)> {
    seq(|batch|, k requires 0 <= k < |batch| => (batch[k], route(batch[k])))
  }

  /** What is pending keeps the candidates' order: it is read off them by leaving out what is completed. */
  lemma PendingExactly(candidates: seq<Id>, id: Id, completed: seq<Id>)
    ensures Pending([], completed) == []
    ensures Pending(candidates + [id], completed)
            == if id in completed then Pending(candidates, completed) else Pending(candidates, completed) + [id]
  {
    assert (candidates + [id])[..|candidates|] == candidates;
  }

  /** One atomic step; an event that does not apply changes nothing. */
  ghost function Step(s: System, e: Event): (s': System)
    requires s.worker.Working? ==> s.worker.run < |s.db.runs|
    ensures s'.worker.Working? ==> s'.worker.run < |s'.db.runs|
  {
    match (s.worker, e)
    case (_, Registry(active)) => s.(db := s.db.(active := active))
    case (Idle, Start(provenance, candidates, size)) =>
      if candidates == [] || !(Distinct(candidates) && Elements(candidates) == s.db.active) then s
      else
        var (db, run) := CreateOrResume(s.db, provenance, |candidates|);
        var pending := Pending(candidates, db.runs[run].completed);
        System(db, Working(run, candidates, Batching.Split(size, pending), [], None))
    case (Working(run, candidates, batches, outcomes, _), Verify(route, usage)) =>
      if outcomes != [] || batches == [] then s
      else s.(worker := Working(run, candidates, batches[1..], Outcomes(batches[0], route), Some(usage)))
    case (Working(run, candidates, batches, outcomes, usage), PersistNext) =>
      if outcomes == [] then s
      else System(Persist(s.db, run, outcomes[0].0, outcomes[0].1, usage),
                  Working(run, candidates, batches, outcomes[1..], None))
    case (Working(run, _, _, _, _), Failure) => System(Pause(s.db, run), Idle)
    case (Working(_, _, _, _, _), Crash) => s.(worker := Idle)
    case (Working(run, _, batches, outcomes, _), Finish) =>
      if batches != [] || outcomes != [] then s else System(Seal(s.db, run), Idle)
    case _ => s
  }

  /** What the worker still has to commit. */
  ghost function Remaining(w: Worker): seq<Id>
    requires w.Working?
  {
    Ids(w.outcomes) + Batching.Flatten(w.batches)
  }

  /** The worker's run is open; what remains is fresh; what it set out to do is done or remains. */
  ghost predicate OnTrack(s: System) {
    s.worker.Working? ==>
      && s.worker.run < |s.db.runs|
      && s.db.runs[s.worker.run].status == Running && !s.db.runs[s.worker.run].sealed
      && Distinct(Remaining(s.worker))
      && (forall id :: id in Remaining(s.worker) ==>
            id in s.worker.candidates && id !in s.db.runs[s.worker.run].completed)
      && (forall id :: id in s.worker.candidates ==>
            id in s.db.runs[s.worker.run].completed || id in Remaining(s.worker))
  }

  ghost predicate Sound(s: System) {
    Consistent(s.db) && OnTrack(s)
  }

  lemma StartSound(s: System, e: Event)
    requires Sound(s) && s.worker.Idle? && e.Start?
    ensures Sound(Step(s, e))
  {
    if Step(s, e) != s {
      var (db, run) := CreateOrResume(s.db, e.provenance, |e.candidates|);
      ResumeConsistent(s.db, e.provenance, |e.candidates|);
      var pending := Pending(e.candidates, db.runs[run].completed);
      Batching.SplitWhole(e.size, pending);
      assert Remaining(Step(s, e).worker) == pending;
    }
  }

  lemma VerifySound(s: System, e: Event)
    requires Sound(s) && s.worker.Working? && e.Verify?
    ensures Sound(Step(s, e))
  {
    if Step(s, e) != s {
      var w, w' := s.worker, Step(s, e).worker;
      assert Ids(w.outcomes) == [] && Ids(w'.outcomes) == w.batches[0];
      assert Remaining(w') == Remaining(w);
    }
  }

  lemma DistinctTail(id: Id, rest: seq<Id>)
    requires Distinct([id] + rest)
    ensures Distinct(rest) && id !in rest
  {
    var all := [id] + rest;
    forall i, j | 0 <= i < j < |rest| ensures rest[i] != rest[j] {
      assert all[i + 1] != all[j + 1];
    }
    forall k | 0 <= k < |rest| ensures rest[k] != id {
      assert all[0] != all[k + 1];
    }
  }

  lemma PersistSound(s: System)
    requires Sound(s) && s.worker.Working?
    ensures Sound(Step(s, PersistNext))
  {
    hide Consistent, Remaining, Distinct, Ids;
    var w := s.worker;
    if w.outcomes != [] {
      var (id, route) := w.outcomes[0];
      RemainingNext(s);
      var rest := Remaining(Step(s, PersistNext).worker);
      assert id in Remaining(w);
      PersistConsistent(s.db, w.run, id, route, w.usage);
      hide Persist;
      PersistOnTrack(s, rest);
    }
  }

  lemma RemainingNext(s: System)
    requires s.worker.Working? && s.worker.run < |s.db.runs| && s.worker.outcomes != []
    ensures Step(s, PersistNext).worker.Working?
    ensures Remaining(s.worker) == [s.worker.outcomes[0].0] + Remaining(Step(s, PersistNext).worker)
  {
    hide Persist;
    var w := s.worker;
    assert Ids(w.outcomes) == [w.outcomes[0].0] + Ids(w.outcomes[1..]);
  }

  lemma PersistOnTrack(s: System, rest: seq<Id>)
    requires OnTrack(s) && s.worker.Working? && s.worker.outcomes != []
    requires Remaining(s.worker) == [s.worker.outcomes[0].0] + rest
    requires Remaining(Step(s, PersistNext).worker) == rest
    ensures OnTrack(Step(s, PersistNext))
  {
    var w, id := s.worker, s.worker.outcomes[0].0;
    hide Remaining, Distinct;
    DistinctTail(id, rest);
    assert id in Remaining(w);
    assert Step(s, PersistNext).db.runs[w.run].completed == s.db.runs[w.run].completed + [id];
  }

  /** No step, in any state the worker can be in, breaks the accounts. */
  lemma StepSound(s: System, e: Event)
    requires Sound(s)
    ensures Sound(Step(s, e))
  {
    match e
    case Start(_, _, _) =>
      if s.worker.Idle? { StartSound(s, e); }
    case Verify(_, _) =>
      if s.worker.Working? { VerifySound(s, e); }
    case PersistNext =>
      if s.worker.Working? { PersistSound(s); }
    case Failure =>
      if s.worker.Working? { PauseConsistent(s.db, s.worker.run); }
    case Crash =>
    case Finish =>
      if s.worker.Working? { SealConsistent(s.db, s.worker.run); }
    case Registry(active) =>
      RegistryConsistent(s.db, active);
  }

  lemma RegistryConsistent(db: Db, active: set<Id>)
    requires Consistent(db)
    ensures Consistent(db.(active := active))
  {
    forall r | 0 <= r < |db.runs| ensures Accounted(db.(active := active), r) {
      assert Accounted(db, r);
    }
  }

  ghost function Steps(s: System, events: seq<Event>): (s': System)
    requires s.worker.Working? ==> s.worker.run < |s.db.runs|
    ensures s'.worker.Working? ==> s'.worker.run < |s'.db.runs|
    decreases |events|
  {
    if events == [] then s else Steps(Step(s, events[0]), events[1..])
  }

  lemma StepsFirst(s: System, e: Event, rest: seq<Event>)
    requires s.worker.Working? ==> s.worker.run < |s.db.runs|
    ensures Steps(s, [e] + rest) == Steps(Step(s, e), rest)
    ensures Steps(s, [e]) == Step(s, e)
  {
    hide Step;
    assert ([e] + rest)[1..] == rest && [e][1..] == [];
  }

  lemma {:induction false} StepsJoin(s: System, a: seq<Event>, b: seq<Event>)
    requires s.worker.Working? ==> s.worker.run < |s.db.runs|
    ensures Steps(s, a + b) == Steps(Steps(s, a), b)
    decreases |a|
  {
    if a == [] {
      assert a + b == b;
    } else {
      hide Step;
      assert (a + b)[1..] == a[1..] + b;
      StepsJoin(Step(s, a[0]), a[1..], b);
    }
  }

  lemma {:induction false} StepsSound(s: System, events: seq<Event>)
    requires Sound(s)
    ensures Sound(Steps(s, events))
    decreases |events|
  {
    if events == [] {
    } else {
      StepSound(s, events[0]);
      hide Step, Consistent;
      StepsSound(Step(s, events[0]), events[1..]);
    }
  }

  /** The state after a whole history of steps, failures, crashes, resumptions and registry edits. */
  ghost function After(events: seq<Event>): (s: System)
    ensures s.worker.Working? ==> s.worker.run < |s.db.runs|
  {
    Steps(System(EMPTY, Idle), events)
  }

  lemma HistorySound(events: seq<Event>)
    ensures Sound(After(events))
  {
    StepsSound(System(EMPTY, Idle), events);
  }

  // --- what a sealed run says ---

  lemma SameCount(a: seq<Id>, s: set<Id>)
    requires Distinct(a) && forall id :: id in s <==> id in a
    ensures |a| == |s|
    decreases |a|
  {
    if a != [] {
      assert a == [a[0]] + a[1..];
      DistinctTail(a[0], a[1..]);
      SameCount(a[1..], s - {a[0]});
    } else {
      assert s == {};
    }
  }

  /** In any reachable state, a run may be sealed exactly when it has completed precisely the active
      obligations; its route counts then add up to their number. */
  lemma SealExact(s: System, run: nat)
    requires Sound(s) && run < |s.db.runs|
    ensures Sealable(s.db, run) <==> CompletedIds(s.db.runs[run]) == s.db.active
    ensures Sealable(s.db, run) ==>
              var r := s.db.runs[run]; r.approved + r.rejected + r.reviewPending == |s.db.active|
  {
    assert Accounted(s.db, run);
    if Sealable(s.db, run) {
      SameCount(s.db.runs[run].completed, s.db.active);
    }
  }

  /** Only sealing seals: a run becomes sealed in one step only if that step finished it with the
      active, completed and validated obligations identical. */
  lemma SealedOnlyComplete(s: System, e: Event, r: nat)
    requires Sound(s) && r < |s.db.runs| && !s.db.runs[r].sealed
    ensures r < |Step(s, e).db.runs|
    ensures Step(s, e).db.runs[r].sealed ==>
              && e == Finish && s.worker.Working? && s.worker.run == r && Remaining(s.worker) == []
              && s.db.active == CompletedIds(s.db.runs[r]) == ValidatedIds(s.db.validations, r)
  {
    assert Accounted(s.db, r);
    hide Consistent, Distinct, Accounted, CompletedIds, ValidatedIds, Pending;
    if e != Finish {
      OthersNeverSeal(s, e, r);
    }
  }

  lemma OthersNeverSeal(s: System, e: Event, r: nat)
    requires Sound(s) && r < |s.db.runs| && e != Finish && !s.db.runs[r].sealed
    ensures r < |Step(s, e).db.runs| && !Step(s, e).db.runs[r].sealed
  {
    hide Consistent, Distinct, CompletedIds, ValidatedIds, Pending;
  }

  /** A sealed run is final: no later step changes it. */
  lemma SealedStable(s: System, e: Event, r: nat)
    requires Sound(s) && r < |s.db.runs| && s.db.runs[r].sealed
    ensures r < |Step(s, e).db.runs| && Step(s, e).db.runs[r] == s.db.runs[r]
  {
    assert Accounted(s.db, r);
  }

  lemma {:induction false} StepsSealed(s: System, events: seq<Event>, r: nat)
    requires Sound(s) && r < |s.db.runs| && s.db.runs[r].sealed
    ensures r < |Steps(s, events).db.runs| && Steps(s, events).db.runs[r] == s.db.runs[r]
    decreases |events|
  {
    if events == [] {
    } else {
      StepSound(s, events[0]);
      SealedStable(s, events[0], r);
      hide Step, Sound;
      StepsSealed(Step(s, events[0]), events[1..], r);
    }
  }

  lemma SealedForever(events: seq<Event>, n: nat, r: nat)
    requires n <= |events| && r < |After(events[..n]).db.runs| && After(events[..n]).db.runs[r].sealed
    ensures r < |After(events).db.runs| && After(events).db.runs[r] == After(events[..n]).db.runs[r]
  {
    HistorySound(events[..n]);
    hide Steps, Sound;
    assert events == events[..n] + events[n..];
    StepsJoin(System(EMPTY, Idle), events[..n], events[n..]);
    StepsSealed(After(events[..n]), events[n..], r);
  }

  /** A finished attempt whose registry has not changed seals its run exactly when every obligation
      the run had completed is still active. */
  lemma FinishSeals(s: System)
    requires Sound(s) && s.worker.Working? && s.worker.batches == [] && s.worker.outcomes == []
    requires Elements(s.worker.candidates) == s.db.active
    ensures Step(s, Finish).db.runs[s.worker.run].sealed <==> CompletedIds(s.db.runs[s.worker.run]) <= s.db.active
  {
    SealExact(s, s.worker.run);
    assert Remaining(s.worker) == [];
  }
}
