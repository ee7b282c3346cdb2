/** One call of the verification service as a sequence of protocol steps: the events it performs, what it keeps
    when the provider fails, and what it commits. */
module VerificationAttempt {
  import opened Options
  import opened Sorting
  import opened VerificationRun
  import Batching

  /** The model provider: the routes and usage for a batch, or an error. */
  type Provider = seq<Id> -> Option<(Id -> Route, Usage)>

  // --- the events of one call ---

  ghost function Commits(n: nat): seq<Event> {
    if n == 0 then [] else [PersistNext] + Commits(n - 1)
  }

  /** Each batch is verified and committed, up to the first one the provider fails; a full pass finishes. */
  ghost function Work(batches: seq<seq<Id>>, provider: Provider): seq<Event> {
    if batches == [] then [VerificationRun.Finish]
    else
      match provider(batches[0])
      case None => [Failure]
      case Some((route, usage)) => [Verify(route, usage)] + (Commits(|batches[0]|) + Work(batches[1..], provider))
  }

  ghost predicate Fails(batches: seq<seq<Id>>, provider: Provider) {
    exists k :: 0 <= k < |batches| && provider(batches[k]).None?
  }

  lemma NoCommits()
    ensures Commits(0) == []
  {
  }

  lemma NoWork(provider: Provider)
    ensures Work([], provider) == [VerificationRun.Finish]
  {
  }

  /** On the way from `first` through the events `all`, the attempt has come to `now` with `rest` still to do. */
  ghost predicate OnCourse(first: System, all: seq<Event>, now: System, rest: seq<Event>) {
    && Sound(first) && Sound(now) && first.worker.Working? && now.worker.Working?
    && now.worker.run == first.worker.run && now.worker.candidates == first.worker.candidates
    && now.db.active == first.db.active
    && Advanced(first.db, now.db, first.worker.run, first.worker.candidates)
    && now.db.runs[first.worker.run].failures == first.db.runs[first.worker.run].failures
    && Steps(now, rest) == Steps(first, all)
  }

  /** All events are done and the attempt has paused its run. */
  ghost predicate Stopped(first: System, all: seq<Event>, db: Db) {
    && Sound(first) && first.worker.Working? && Consistent(db) && db.active == first.db.active
    && Advanced(first.db, db, first.worker.run, first.worker.candidates)
    && db.runs[first.worker.run].status == Paused
    && db.runs[first.worker.run].failures == first.db.runs[first.worker.run].failures + 1
    && System(db, Idle) == Steps(first, all)
  }

  lemma SetOut(first: System, all: seq<Event>)
    requires Sound(first) && first.worker.Working?
    ensures OnCourse(first, all, first, all)
  {
  }

  lemma TrackedRun(s: System)
    requires Sound(s) && s.worker.Working?
    ensures s.worker.run < |s.db.runs|
  {
  }

  lemma CommitOn(first: System, all: seq<Event>, now: System)
    requires now.worker.Working? && now.worker.outcomes != []
    requires OnCourse(first, all, now, Commits(|now.worker.outcomes|))
    ensures now.worker.run < |now.db.runs|
    ensures var w := now.worker;
            var (id, route) := w.outcomes[0];
            OnCourse(first, all, System(Persist(now.db, w.run, id, route, w.usage),
                                        Working(w.run, w.candidates, w.batches, w.outcomes[1..], None)),
                     Commits(|w.outcomes| - 1))
  {
    assert Step(now, PersistNext).db.active == now.db.active;
    assert Step(now, PersistNext).db.runs[now.worker.run].failures == now.db.runs[now.worker.run].failures;
    hide Steps, Consistent, Persist, Advanced, Remaining, Distinct, OnTrack;
    PersistSound(now);
    TrackedRun(now);
    CommitAdvanced(now);
    StepsFirst(now, PersistNext, Commits(|now.worker.outcomes| - 1));
    AdvancedOn(first.db, now.db, Step(now, PersistNext).db, now.worker.run, now.worker.candidates);
  }

  lemma CommitAdvanced(s: System)
    requires Sound(s) && s.worker.Working? && s.worker.outcomes != []
    ensures Advanced(s.db, Step(s, PersistNext).db, s.worker.run, s.worker.candidates)
  {
    var id := s.worker.outcomes[0].0;
    assert Ids(s.worker.outcomes)[0] == id && id in Remaining(s.worker);
    hide Consistent, Remaining;
  }

  lemma VerifyOn(first: System, all: seq<Event>, now: System, provider: Provider)
    requires now.worker.Working? && now.worker.outcomes == [] && now.worker.batches != []
    requires OnCourse(first, all, now, Work(now.worker.batches, provider))
    requires provider(now.worker.batches[0]).Some?
    ensures var w := now.worker;
            var (route, usage) := provider(w.batches[0]).value;
            var s := System(now.db, Working(w.run, w.candidates, w.batches[1..], Outcomes(w.batches[0], route),
                                            Some(usage)));
            Sound(s) && OnCourse(first, all, s, Commits(|w.batches[0]|) + Work(w.batches[1..], provider))
  {
    var w := now.worker;
    var (route, usage) := provider(w.batches[0]).value;
    VerifySound(now, Verify(route, usage));
    hide Steps, Consistent, Advanced, Commits;
    StepsFirst(now, Verify(route, usage), Commits(|w.batches[0]|) + Work(w.batches[1..], provider));
  }

  lemma FailOn(first: System, all: seq<Event>, now: System, provider: Provider)
    requires now.worker.Working? && now.worker.batches != []
    requires OnCourse(first, all, now, Work(now.worker.batches, provider))
    requires provider(now.worker.batches[0]).None?
    ensures now.worker.run < |now.db.runs| && Stopped(first, all, Pause(now.db, now.worker.run))
  {
    StepSound(now, Failure);
    StepsFirst(now, Failure, []);
    hide Steps, Consistent;
    PauseAdvanced(first.db, now.db, now.worker.run, now.worker.candidates);
  }

  /** Doing the first part of what is left leaves the second. */
  lemma CourseOn(first: System, all: seq<Event>, s: System, a: seq<Event>, b: seq<Event>, now: System)
    requires OnCourse(first, all, s, a + b) && OnCourse(s, a, now, [])
    ensures OnCourse(first, all, now, b)
  {
    StepsJoin(s, a, b);
    assert Steps(now, []) == now;
    hide Steps, Sound, Advanced;
    AdvancedOn(first.db, s.db, now.db, first.worker.run, first.worker.candidates);
  }

  lemma AdvancedOn(a: Db, b: Db, c: Db, run: nat, candidates: seq<Id>)
    requires Advanced(a, b, run, candidates) && Advanced(b, c, run, candidates)
    ensures Advanced(a, c, run, candidates)
  {
    hide CompletedIds, Elements;
  }

  lemma PauseAdvanced(a: Db, b: Db, run: nat, candidates: seq<Id>)
    requires Advanced(a, b, run, candidates)
    ensures Advanced(a, Pause(b, run), run, candidates)
  {
    assert CompletedIds(Pause(b, run).runs[run]) == CompletedIds(b.runs[run]);
  }

  /** The batches a call sends. */
  function Planned(db: Db, provenance: Provenance, candidates: seq<Id>, size: Id -> nat): seq<seq<Id>> {
    var (db', run) := CreateOrResume(db, provenance, |candidates|);
    Batching.Split(size, Pending(candidates, db'.runs[run].completed))
  }

  /** The protocol steps of a call: it starts, works through its batches, and fails or finishes. */
  ghost function Attempt(db: Db, provenance: Provenance, candidates: seq<Id>, size: Id -> nat, provider: Provider)
    : seq<Event>
  {
    [Start(provenance, candidates, size)] + Work(Planned(db, provenance, candidates, size), provider)
  }

  lemma StartWork(db: Db, provenance: Provenance, candidates: seq<Id>, size: Id -> nat, provider: Provider)
    requires Consistent(db) && candidates != [] && Distinct(candidates) && Elements(candidates) == db.active
    ensures var (db', run) := CreateOrResume(db, provenance, |candidates|);
            var batches := Planned(db, provenance, candidates, size);
            var s := System(db', Working(run, candidates, batches, [], None));
            Sound(s) && Steps(s, Work(batches, provider))
                        == Steps(System(db, Idle), Attempt(db, provenance, candidates, size, provider))
  {
    StartSound(System(db, Idle), Start(provenance, candidates, size));
    var batches := Planned(db, provenance, candidates, size);
    hide Steps, Work, Consistent;
    StepsFirst(System(db, Idle), Start(provenance, candidates, size), Work(batches, provider));
  }

  /** The run is paused with all its work kept, no other run is touched, and the same provenance resumes it. */
  ghost predicate Resumable(before: Db, after: Db, provenance: Provenance, candidates: seq<Id>) {
    var (db, run) := CreateOrResume(before, provenance, |candidates|);
    && Advanced(db, after, run, candidates) && after.runs[run].status == Paused
    && after.runs[run].failures == db.runs[run].failures + 1
    && forall total :: CreateOrResume(after, provenance, total).1 == run
  }

  lemma StartResumable(before: Db, after: Db, provenance: Provenance, candidates: seq<Id>)
    requires var (db, run) := CreateOrResume(before, provenance, |candidates|);
             Advanced(db, after, run, candidates) && after.runs[run].status == Paused
             && after.runs[run].failures == db.runs[run].failures + 1
    ensures Resumable(before, after, provenance, candidates)
  {
    var (db, run) := CreateOrResume(before, provenance, |candidates|);
    forall total ensures CreateOrResume(after, provenance, total).1 == run {
      OpenResumed(after, provenance, total, run);
    }
  }

  /** Whatever a sound system goes through, its sealed runs stay as they are. */
  lemma SealedKept(s: System, events: seq<Event>)
    requires Sound(s)
    ensures forall k: nat :: k < |s.db.runs| && s.db.runs[k].sealed ==>
              k < |Steps(s, events).db.runs| && Steps(s, events).db.runs[k] == s.db.runs[k]
  {
    forall k: nat | k < |s.db.runs| && s.db.runs[k].sealed
      ensures k < |Steps(s, events).db.runs| && Steps(s, events).db.runs[k] == s.db.runs[k]
    {
      StepsSealed(s, events, k);
    }
  }

  lemma SoundAccounted(s: System, run: nat)
    requires Sound(s) && run < |s.db.runs|
    ensures Accounted(s.db, run)
  {
  }

  /** Between two states of one attempt the run has only gained completed candidates, rows were only added,
      and the other runs stayed as they were. */
  ghost predicate Advanced(before: Db, after: Db, run: nat, candidates: seq<Id>) {
    && run < |before.runs| == |after.runs|
    && before.runs[run].completed <= after.runs[run].completed
    && before.validations <= after.validations && before.invocations <= after.invocations
    && after.runs[run].provenance == before.runs[run].provenance
    && (forall k :: 0 <= k < |before.runs| && k != run ==> after.runs[k] == before.runs[k])
    && CompletedIds(before.runs[run]) <= CompletedIds(after.runs[run])
    && CompletedIds(after.runs[run]) <= CompletedIds(before.runs[run]) + Elements(candidates)
  }
}
