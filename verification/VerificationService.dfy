/** The verification service over its database: each method is one committed step of the protocol,
    and the whole run is a sequence of them. */
module VerificationService {
  import opened Options
  import opened Sorting
  import opened VerificationAttempt
  import opened VerificationCommits
  import opened VerificationRun
  import Batching

  datatype Summary = Summary(total: nat, autoRegistered: nat, humanReview: nat, rejected: nat)

  datatype Result = Sealed(summary: Summary) | Refused | Interrupted | NoRegistry

  class Database {
    var runs: seq<Run>
    var active: set<Id>
    var validations: seq<Validation>
    var invocations: seq<Invocation>
    var status: map<Id, Route>
    var verifiedBy: map<Id, nat>
    var tasks: seq<Id>

    function View(): Db
      reads this
    {
      Db(runs, active, validations, invocations, status, verifiedBy, tasks)
    }

    constructor ()
      ensures View() == EMPTY && Consistent(View())
    {
      runs, active, validations, invocations := [], {}, [], [];
      status, verifiedBy, tasks := map[], map[], [];
    }

    method CreateOrResumeRun(provenance: Provenance, total: nat) returns (run: nat)
      modifies this
      ensures (View(), run) == CreateOrResume(old(View()), provenance, total)
    {
      var existing := LatestOpen(runs, |runs|);
      if existing.Some? && runs[existing.value].provenance == provenance {
        run := existing.value;
        runs := runs[run := runs[run].(status := Running)];
        return;
      }
      run := |runs|;
      runs := runs + [NewRun(provenance, total)];
    }

    /** The rows written for one outcome. */
    method WriteRows(run: nat, id: Id, route: Route, usage: Option<Usage>)
      requires run < |runs|
      modifies `validations, `invocations, `status, `verifiedBy, `tasks
      ensures validations == old(validations) + [Validation(run, id, route)]
      ensures invocations == old(invocations) + if usage.Some? then [Invocation(run, usage.value)] else []
      ensures status == old(status)[id := route] && verifiedBy == old(verifiedBy)[id := run]
      ensures tasks == old(tasks) + if route != AutoRegister && id !in old(tasks) then [id] else []
    {
      validations := validations + [Validation(run, id, route)];
      if usage.Some? {
        invocations := invocations + [Invocation(run, usage.value)];
      }
      status := status[id := route];
      verifiedBy := verifiedBy[id := run];
      if route != AutoRegister && id !in tasks {
        tasks := tasks + [id];
      }
    }

    /** The run's checkpoint and counters after one outcome. */
    method UpdateRun(run: nat, id: Id, route: Route, usage: Option<Usage>)
      requires run < |runs|
      modifies `runs
      ensures runs == old(runs)[run := Record(old(runs)[run], id, route, usage)]
    {
      var record := runs[run];
      if id !in record.completed {
        record := record.(completed := record.completed + [id]);
      }
      var charged := if usage.Some? then usage.value.Total() else Some(0);
      record := record.(unreported := record.unreported + One(charged.None?),
                        tokens := record.tokens + if charged.Some? then charged.value else 0);
      record := record.(approved := record.approved + One(route == AutoRegister),
                        rejected := record.rejected + One(route == Reject),
                        reviewPending := record.reviewPending + One(route == HumanReview));
      runs := runs[run := record];
    }

    method PersistOutcome(run: nat, id: Id, route: Route, usage: Option<Usage>)
      requires run < |runs|
      modifies this
      ensures View() == Persist(old(View()), run, id, route, usage)
    {
      WriteRows(run, id, route, usage);
      UpdateRun(run, id, route, usage);
    }

    method PauseRun(run: nat)
      requires run < |runs|
      modifies this
      ensures View() == Pause(old(View()), run)
    {
      runs := runs[run := runs[run].(status := Paused, failures := runs[run].failures + 1)];
    }

    method SealRun(run: nat) returns (ok: bool)
      requires run < |runs|
      modifies this
      ensures View() == Seal(old(View()), run) && ok == Sealable(old(View()), run)
    {
      ok := active == CompletedIds(runs[run]) && active == ValidatedIds(validations, run);
      if ok {
        runs := runs[run := runs[run].(status := Completed, sealed := true)];
        verifiedBy := verifiedBy + map id | id in active :: run;
      }
    }

    /** Commits the outcomes of one batch, one obligation at a time; the first carries the usage. */
    method PersistBatch(run: nat, ghost candidates: seq<Id>, ghost later: seq<seq<Id>>,
                        batch: seq<Id>, route: Id -> Route, usage: Usage)
      requires batch != []
      requires Sound(System(View(), Working(run, candidates, later, Outcomes(batch, route), Some(usage))))
      modifies this
      ensures OnCourse(System(old(View()), Working(run, candidates, later, Outcomes(batch, route), Some(usage))),
                       Commits(|batch|), System(View(), Working(run, candidates, later, [], None)), [])
    {
      var outcomes := Outcomes(batch, route);
      var charged := Some(usage);
      ghost var first := System(View(), Working(run, candidates, later, outcomes, charged));
      hide Sound, OnCourse, Steps, Step, Commits;
      SetOut(first, Commits(|batch|));
      while outcomes != []
        invariant OnCourse(first, Commits(|batch|),
                           System(View(), Working(run, candidates, later, outcomes, charged)), Commits(|outcomes|))
        invariant outcomes == [] ==> charged == None
        decreases |outcomes|
      {
        CommitOn(first, Commits(|batch|), System(View(), Working(run, candidates, later, outcomes, charged)));
        var (id, r) := outcomes[0];
        PersistOutcome(run, id, r, charged);
        outcomes, charged := outcomes[1..], None;
      }
      assert Commits(0) == [] by { NoCommits(); }
    }

    /** Sends the batches one after another; a provider error pauses the run. */
    method RunBatches(run: nat, ghost candidates: seq<Id>, batches: seq<seq<Id>>, provider: Provider)
      returns (ok: bool)
      requires Sound(System(View(), Working(run, candidates, batches, [], None)))
      requires forall k :: 0 <= k < |batches| ==> batches[k] != []
      modifies this
      ensures ok <==> !Fails(batches, provider)
      ensures ok ==> OnCourse(System(old(View()), Working(run, candidates, batches, [], None)), Work(batches, provider),
                              System(View(), Working(run, candidates, [], [], None)), [VerificationRun.Finish])
      ensures !ok ==> Stopped(System(old(View()), Working(run, candidates, batches, [], None)), Work(batches, provider),
                              View())
    {
      ghost var first := System(View(), Working(run, candidates, batches, [], None));
      ghost var all := Work(batches, provider);
      hide Sound, OnCourse, Stopped, Steps, Step, Work, Outcomes, Commits;
      SetOut(first, all);
      assert batches[0..] == batches;
      for i := 0 to |batches|
        invariant OnCourse(first, all, System(View(), Working(run, candidates, batches[i..], [], None)),
                           Work(batches[i..], provider))
        invariant forall k :: 0 <= k < i ==> provider(batches[k]).Some?
      {
        assert batches[i..][0] == batches[i] && batches[i..][1..] == batches[i + 1..];
        ghost var now := System(View(), Working(run, candidates, batches[i..], [], None));
        var answer := provider(batches[i]);
        if answer.None? {
          FailOn(first, all, now, provider);
          PauseRun(run);
          return false;
        }
        VerifyOn(first, all, now, provider);
        PersistBatch(run, candidates, batches[i + 1..], batches[i], answer.value.0, answer.value.1);
        CourseOn(first, all, System(now.db, Working(run, candidates, batches[i + 1..],
                                                    Outcomes(batches[i], answer.value.0), Some(answer.value.1))),
                 Commits(|batches[i]|), Work(batches[i + 1..], provider),
                 System(View(), Working(run, candidates, batches[i + 1..], [], None)));
      }
      assert batches[|batches|..] == [];
      assert Work([], provider) == [VerificationRun.Finish] by { NoWork(provider); }
      ok := true;
    }

    /** Seals the run if nothing differs, and reads the summary off its counters. */
    method Finish(run: nat, candidates: seq<Id>) returns (r: Result)
      requires Sound(System(View(), Working(run, candidates, [], [], None)))
      requires Distinct(candidates) && Elements(candidates) == active
      modifies this
      ensures Finished(old(View()), View(), run, candidates, r)
    {
      hide Consistent, Persist;
      ghost var s := System(View(), Working(run, candidates, [], [], None));
      StepSound(s, VerificationRun.Finish);
      SealExact(s, run);
      FinishSeals(s);
      assert Accounted(View(), run) by { SoundAccounted(s, run); }
      SameCount(candidates, active);
      var ok := SealRun(run);
      if !ok {
        return Refused;
      }
      r := Sealed(Summary(|candidates|, runs[run].approved, runs[run].reviewPending, runs[run].rejected));
    }

    /** Verifies one document.  `candidates` are the active obligations in creation order; `size` is
        a candidate's serialised length. */
    method RunDocumentVerification(provenance: Provenance, candidates: seq<Id>, size: Id -> nat, provider: Provider)
      returns (r: Result)
      requires Consistent(View()) && Distinct(candidates) && Elements(candidates) == active
      modifies this
      ensures Verified(old(View()), View(), Call(provenance, candidates, size, provider), r)
    {
      if candidates == [] {
        return NoRegistry;
      }
      ghost var before := View();
      ghost var call := Call(provenance, candidates, size, provider);
      StartCall(before, call);
      hide *;
      var run := CreateOrResumeRun(provenance, |candidates|);
      var batches := Batching.SplitVerificationBatches(Pending(candidates, runs[run].completed), size);
      assert batches == Planned(before, provenance, candidates, size);
      ghost var created := View();
      assert Begun(before, created, call, run, batches) by { CallBegun(before, created, call, run, batches); }
      var ok := RunBatches(run, candidates, batches, provider);
      if !ok {
        EndInterrupted(before, created, View(), call, run, batches);
        return Interrupted;
      }
      ghost var completed := View();
      CompletedReady(created, completed, run, candidates, batches, provider);
      r := Finish(run, candidates);
      EndFinished(before, created, completed, View(), call, run, batches, r);
    }
  }

  // --- what a call promises ---

  /** What a document is verified with. */
  datatype Call = Call(provenance: Provenance, candidates: seq<Id>, size: Id -> nat, provider: Provider)

  ghost predicate Verified(before: Db, after: Db, c: Call, r: Result) {
    && Consistent(after) && after.active == before.active
    && (r.NoRegistry? <==> c.candidates == [])
    && if c.candidates == [] then after == before else Called(before, after, c, r)
  }

  ghost predicate Called(before: Db, after: Db, c: Call, r: Result) {
    var run := CreateOrResume(before, c.provenance, |c.candidates|).1;
    var batches := Planned(before, c.provenance, c.candidates, c.size);
    // the call is a sequence of steps of the protocol
    && System(after, Idle) == Steps(System(before, Idle),
                                    Attempt(before, c.provenance, c.candidates, c.size, c.provider))
    // it records exactly the provider's answers to the batches before the first one it fails
    && Recorded(before, after, run, batches, c.provider)
    // it is interrupted exactly when the provider fails one, and can then be resumed
    && (r.Interrupted? <==> Fails(batches, c.provider))
    && (r.Interrupted? ==> Resumable(before, after, c.provenance, c.candidates))
    // otherwise it leaves a sealed run, unless the run had completed an obligation that is no longer active
    && (!r.Interrupted? ==> if ResumedWithin(before, c.provenance, |c.candidates|) then r.Sealed? else r.Refused?)
    // a sealed run has completed and validated exactly the active obligations, and its summary adds up
    && (r.Sealed? ==> && SealedWith(after, run, r.summary)
                      && |after.active| == r.summary.total
                         == r.summary.autoRegistered + r.summary.humanReview + r.summary.rejected)
    // no other run and no sealed one is touched
    && OthersKept(before, after, run) && SealedKeep(before, after)
  }

  ghost predicate OthersKept(before: Db, after: Db, run: nat) {
    forall k :: 0 <= k < |before.runs| && k != run ==> RunKept(before, after, k)
  }

  ghost predicate RunKept(before: Db, after: Db, k: nat)
    requires k < |before.runs|
  {
    k < |after.runs| && after.runs[k] == before.runs[k]
  }

  ghost predicate SealedKeep(before: Db, after: Db) {
    forall k :: 0 <= k < |before.runs| && before.runs[k].sealed ==> RunKept(before, after, k)
  }

  lemma StartCall(db: Db, c: Call)
    requires Consistent(db) && c.candidates != [] && Distinct(c.candidates) && Elements(c.candidates) == db.active
    ensures var (created, run) := CreateOrResume(db, c.provenance, |c.candidates|);
            var batches := Planned(db, c.provenance, c.candidates, c.size);
            && run < |created.runs|
            && batches == Batching.Split(c.size, Pending(c.candidates, created.runs[run].completed))
            && (forall k :: 0 <= k < |batches| ==> batches[k] != [])
            && Sound(System(created, Working(run, c.candidates, batches, [], None)))
  {
    StartWork(db, c.provenance, c.candidates, c.size, c.provider);
    CallExactly(db, c.provenance, c.candidates, c.size);
    var (created, run) := CreateOrResume(db, c.provenance, |c.candidates|);
    var batches := Planned(db, c.provenance, c.candidates, c.size);
    hide *;
    forall k | 0 <= k < |batches| ensures batches[k] != [] {
      Batching.SplitLegal(c.size, Pending(c.candidates, created.runs[run].completed), k);
    }
  }

  /** A call has read its candidates, and created or resumed its run. */
  ghost predicate Begun(before: Db, created: Db, c: Call, run: nat, batches: seq<seq<Id>>) {
    && Consistent(before) && c.candidates != [] && Distinct(c.candidates) && Elements(c.candidates) == before.active
    && (created, run) == CreateOrResume(before, c.provenance, |c.candidates|) && run < |created.runs|
    && batches == Planned(before, c.provenance, c.candidates, c.size)
  }

  lemma CallBegun(before: Db, created: Db, c: Call, run: nat, batches: seq<seq<Id>>)
    requires Consistent(before) && c.candidates != [] && Distinct(c.candidates)
    requires Elements(c.candidates) == before.active && run < |created.runs|
    requires (created, run) == CreateOrResume(before, c.provenance, |c.candidates|)
    requires batches == Planned(before, c.provenance, c.candidates, c.size)
    ensures Begun(before, created, c, run, batches)
  {
  }

  /** What holds of every call that went through its events. */
  lemma CallSteps(before: Db, created: Db, after: Db, c: Call, run: nat, batches: seq<seq<Id>>)
    requires Begun(before, created, c, run, batches)
    requires System(after, Idle) == Steps(System(created, Working(run, c.candidates, batches, [], None)),
                                          Work(batches, c.provider))
    ensures System(after, Idle) == Steps(System(before, Idle),
                                         Attempt(before, c.provenance, c.candidates, c.size, c.provider))
    ensures Recorded(before, after, run, batches, c.provider) && SealedKeep(before, after)
  {
    hide Consistent, Steps, Recorded, Attempt;
    StartWork(before, c.provenance, c.candidates, c.size, c.provider);
    AttemptRecords(before, c.provenance, c.candidates, c.size, c.provider);
    SoundIdle(before);
    SealedKept(System(before, Idle), Attempt(before, c.provenance, c.candidates, c.size, c.provider));
  }

  lemma SoundIdle(db: Db)
    requires Consistent(db)
    ensures Sound(System(db, Idle))
  {
  }

  lemma EndInterrupted(before: Db, created: Db, after: Db, c: Call, run: nat, batches: seq<seq<Id>>)
    requires Begun(before, created, c, run, batches) && Fails(batches, c.provider)
    requires Stopped(System(created, Working(run, c.candidates, batches, [], None)), Work(batches, c.provider), after)
    ensures Verified(before, after, c, Interrupted)
  {
    hide Consistent, Steps, Recorded, Attempt, Work, Planned, CreateOrResume, Fails, Sound, Step, ResumedWithin,
      OthersKept, SealedKeep, SealedWith, Advanced, Resumable, Distinct;
    CallExactly(before, c.provenance, c.candidates, c.size);
    CallSteps(before, created, after, c, run, batches);
    AdvancedKeeps(created, after, run, c.candidates);
    KeptOn(before, created, after, run);
    AdvancedRuns(created, after, run, c.candidates);
    StartResumable(before, after, c.provenance, c.candidates);
  }

  lemma KeptOn(a: Db, b: Db, c: Db, run: nat)
    requires OthersKept(a, b, run) && OthersKept(b, c, run)
    ensures OthersKept(a, c, run)
  {
    forall k | 0 <= k < |a.runs| && k != run ensures RunKept(a, c, k) {
      assert RunKept(a, b, k) && RunKept(b, c, k);
    }
  }

  lemma CompletedReady(created: Db, completed: Db, run: nat, candidates: seq<Id>, batches: seq<seq<Id>>,
                       provider: Provider)
    requires OnCourse(System(created, Working(run, candidates, batches, [], None)), Work(batches, provider),
                      System(completed, Working(run, candidates, [], [], None)), [VerificationRun.Finish])
    ensures Sound(System(completed, Working(run, candidates, [], [], None))) && completed.active == created.active
    ensures run < |completed.runs|
  {
    hide Sound, Steps, Work;
  }

  lemma EndFinished(before: Db, created: Db, completed: Db, after: Db, c: Call, run: nat, batches: seq<seq<Id>>,
                    r: Result)
    requires Begun(before, created, c, run, batches) && !Fails(batches, c.provider) && run < |completed.runs|
    requires OnCourse(System(created, Working(run, c.candidates, batches, [], None)), Work(batches, c.provider),
                      System(completed, Working(run, c.candidates, [], [], None)), [VerificationRun.Finish])
    requires Finished(completed, after, run, c.candidates, r)
    ensures Verified(before, after, c, r)
  {
    hide Consistent, Steps, Recorded, Attempt, Work, Planned, CreateOrResume, Fails, Sound, Step, ResumedWithin,
      OthersKept, SealedKeep, SealedWith, OnCourse, Advanced, Resumable, Distinct;
    CallExactly(before, c.provenance, c.candidates, c.size);
    CourseEnds(created, completed, run, c.candidates, batches, c.provider);
    CallSteps(before, created, after, c, run, batches);
    KeptOn(before, created, completed, run);
    KeptOn(before, completed, after, run);
  }

  /** Where the events of an attempt that is not interrupted end. */
  lemma CourseEnds(created: Db, completed: Db, run: nat, candidates: seq<Id>, batches: seq<seq<Id>>,
                   provider: Provider)
    requires OnCourse(System(created, Working(run, candidates, batches, [], None)), Work(batches, provider),
                      System(completed, Working(run, candidates, [], [], None)), [VerificationRun.Finish])
    ensures run < |created.runs| == |completed.runs| && completed.active == created.active
    ensures Steps(System(created, Working(run, candidates, batches, [], None)), Work(batches, provider))
            == Step(System(completed, Working(run, candidates, [], [], None)), VerificationRun.Finish)
    ensures OthersKept(created, completed, run)
    ensures CompletedIds(completed.runs[run]) <= Elements(candidates) <==>
            CompletedIds(created.runs[run]) <= Elements(candidates)
  {
    hide Work, Sound, Advanced;
    AdvancedKeeps(created, completed, run, candidates);
    AdvancedRuns(created, completed, run, candidates);
    StepsFirst(System(completed, Working(run, candidates, [], [], None)), VerificationRun.Finish, []);
  }

  lemma AdvancedRuns(before: Db, after: Db, run: nat, candidates: seq<Id>)
    requires Advanced(before, after, run, candidates)
    ensures run < |before.runs| == |after.runs|
  {
  }

  /** What closing an attempt promises. */
  ghost predicate Finished(before: Db, after: Db, run: nat, candidates: seq<Id>, r: Result)
    requires run < |before.runs|
  {
    && Consistent(after) && after.active == before.active
    && System(after, Idle) == Step(System(before, Working(run, candidates, [], [], None)), VerificationRun.Finish)
    && (r == Refused || (r.Sealed? && SealedWith(after, run, r.summary)
                         && |after.active| == r.summary.total
                            == r.summary.autoRegistered + r.summary.humanReview + r.summary.rejected))
    && (r.Sealed? <==> CompletedIds(before.runs[run]) <= before.active)
    && |after.runs| == |before.runs| && OthersKept(before, after, run)
  }

  lemma AdvancedKeeps(before: Db, after: Db, run: nat, candidates: seq<Id>)
    requires Advanced(before, after, run, candidates)
    ensures |after.runs| == |before.runs| && OthersKept(before, after, run)
    ensures CompletedIds(after.runs[run]) <= Elements(candidates) <==>
            CompletedIds(before.runs[run]) <= Elements(candidates)
  {
  }

  /** The run and the batches of a call, and whether all that the run completed is still active. */
  lemma CallExactly(db: Db, provenance: Provenance, candidates: seq<Id>, size: Id -> nat)
    ensures var (db', run) := CreateOrResume(db, provenance, |candidates|);
            && run < |db'.runs| && db' == db.(runs := db'.runs)
            && Planned(db, provenance, candidates, size)
               == Batching.Split(size, Pending(candidates, db'.runs[run].completed))
            && (ResumedWithin(db, provenance, |candidates|) <==> CompletedIds(db'.runs[run]) <= db.active)
            && OthersKept(db, db', run)
  {
    CreatedKeeps(db, provenance, |candidates|);
    hide CreateOrResume, OthersKept, CompletedIds, Pending;
  }

  lemma CreatedKeeps(db: Db, provenance: Provenance, total: nat)
    ensures var (db', run) := CreateOrResume(db, provenance, total);
            run < |db'.runs| && db' == db.(runs := db'.runs) && OthersKept(db, db', run)
  {
  }

  /** Everything the run about to be used has completed is still active. */
  ghost predicate ResumedWithin(db: Db, provenance: Provenance, total: nat) {
    var (db', run) := CreateOrResume(db, provenance, total);
    CompletedIds(db'.runs[run]) <= db.active
  }

  ghost predicate SealedWith(db: Db, run: nat, s: Summary) {
    && run < |db.runs| && db.runs[run].sealed
    && CompletedIds(db.runs[run]) == ValidatedIds(db.validations, run) == db.active
    && s.autoRegistered == Routed(db.validations, run, AutoRegister)
    && s.humanReview == Routed(db.validations, run, HumanReview)
    && s.rejected == Routed(db.validations, run, Reject)
    && forall id :: id in db.active ==> id in db.verifiedBy && db.verifiedBy[id] == run
  }
}
