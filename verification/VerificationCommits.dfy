/** What a call of the verification service commits (apps/api/services/verification_service.py): exactly the
    provider's answers, batch by batch, up to the first batch it fails. */
module VerificationCommits {
  import opened Options
  import opened Sorting
  import opened VerificationAttempt
  import opened VerificationRun
  import Batching

  ghost predicate HasRow(rows: seq<Validation>, id: Id) {
    exists k :: 0 <= k < |rows| && rows[k].id == id
  }

  ghost predicate NeedsTask(rows: seq<Validation>, id: Id) {
    exists k :: 0 <= k < |rows| && rows[k].id == id && rows[k].route != AutoRegister
  }

  /** From `a` to `b` exactly these validations and invocations were added; every obligation validated has the
      status of its row, the others the status they had; tasks were opened for the rows that need one. */
  ghost predicate Landed(a: Db, b: Db, run: nat, rows: seq<Validation>, calls: seq<Invocation>) {
    && b.validations == a.validations + rows && b.invocations == a.invocations + calls
    && (forall k :: 0 <= k < |rows| ==> RowHolds(b, run, rows[k]))
    && (forall id :: !HasRow(rows, id) ==> SameStatus(a, b, id))
    && (forall id :: id in b.tasks <==> id in a.tasks || NeedsTask(rows, id))
    && (forall id :: VerifiedBy(a, id, run) ==> VerifiedBy(b, id, run))
  }

  ghost predicate RowHolds(db: Db, run: nat, v: Validation) {
    v.run == run && v.id in db.status && db.status[v.id] == v.route && VerifiedBy(db, v.id, run)
  }

  ghost predicate SameStatus(a: Db, b: Db, id: Id) {
    (id in a.status <==> id in b.status) && (id in a.status ==> a.status[id] == b.status[id])
  }

  ghost predicate VerifiedBy(db: Db, id: Id, run: nat) {
    id in db.verifiedBy && db.verifiedBy[id] == run
  }

  lemma RowsJoin(s: seq<Validation>, t: seq<Validation>, id: Id)
    ensures HasRow(s + t, id) <==> HasRow(s, id) || HasRow(t, id)
    ensures NeedsTask(s + t, id) <==> NeedsTask(s, id) || NeedsTask(t, id)
  {
    assert forall k :: 0 <= k < |s| ==> (s + t)[k] == s[k];
    assert forall k :: 0 <= k < |t| ==> (s + t)[|s| + k] == t[k];
  }

  lemma LandedJoin(a: Db, b: Db, c: Db, run: nat, s: seq<Validation>, t: seq<Validation>,
                   i: seq<Invocation>, j: seq<Invocation>)
    requires Landed(a, b, run, s, i) && Landed(b, c, run, t, j)
    requires forall id :: !(HasRow(s, id) && HasRow(t, id))
    ensures Landed(a, c, run, s + t, i + j)
  {
    assert a.validations + s + t == a.validations + (s + t);
    assert a.invocations + i + j == a.invocations + (i + j);
    hide HasRow, NeedsTask;
    forall id ensures !HasRow(s + t, id) ==> SameStatus(a, c, id)
              ensures id in c.tasks <==> id in a.tasks || NeedsTask(s + t, id) {
      RowsJoin(s, t, id);
    }
    forall k | 0 <= k < |s + t| ensures RowHolds(c, run, (s + t)[k]) {
      if k < |s| {
        RowIn(s, k);
        assert SameStatus(b, c, s[k].id);
      } else {
        assert (s + t)[k] == t[k - |s|];
      }
    }
  }

  lemma RowIn(rows: seq<Validation>, k: nat)
    requires k < |rows|
    ensures HasRow(rows, rows[k].id)
  {
  }

  lemma NothingLands(a: Db, b: Db, run: nat)
    requires b.validations == a.validations && b.invocations == a.invocations
    requires b.status == a.status && b.tasks == a.tasks
    requires forall id :: VerifiedBy(a, id, run) ==> VerifiedBy(b, id, run)
    ensures Landed(a, b, run, [], [])
  {
  }

  lemma PersistLands(db: Db, run: nat, id: Id, route: Route, usage: Option<Usage>)
    requires run < |db.runs|
    ensures Landed(db, Persist(db, run, id, route, usage), run, [Validation(run, id, route)],
                   if usage.Some? then [Invocation(run, usage.value)] else [])
  {
    var rows := [Validation(run, id, route)];
    assert HasRow(rows, id) by { RowIn(rows, 0); }
    assert route != AutoRegister ==> NeedsTask(rows, id) by { assert rows[0].id == id; }
  }

  // --- a batch ---

  function RowsOf(run: nat, outcomes: seq<(Id, Route)>): seq<Validation> {
    seq(|outcomes|, k requires 0 <= k < |outcomes| => Validation(run, outcomes[k].0, outcomes[k].1))
  }

  function CallOf(run: nat, outcomes: seq<(Id, Route)>, usage: Option<Usage>): seq<Invocation> {
    if outcomes != [] && usage.Some? then [Invocation(run, usage.value)] else []
  }

  lemma RowOfId(run: nat, outcomes: seq<(Id, Route)>, id: Id)
    ensures HasRow(RowsOf(run, outcomes), id) <==> id in Ids(outcomes)
  {
    var rows, ids := RowsOf(run, outcomes), Ids(outcomes);
    if HasRow(rows, id) {
      var k :| 0 <= k < |rows| && rows[k].id == id;
      assert ids[k] == id;
    }
    if id in ids {
      var k :| 0 <= k < |ids| && ids[k] == id;
      assert rows[k].id == id;
    }
  }

  lemma {:induction false} CommitsLand(s: System)
    requires s.worker.Working? && s.worker.run < |s.db.runs| && Distinct(Ids(s.worker.outcomes))
    ensures var w := s.worker;
            var s' := Steps(s, Commits(|w.outcomes|));
            && s'.worker == Working(w.run, w.candidates, w.batches, [], if w.outcomes == [] then w.usage else None)
            && w.run < |s'.db.runs|
            && Landed(s.db, s'.db, w.run, RowsOf(w.run, w.outcomes), CallOf(w.run, w.outcomes, w.usage))
    decreases |s.worker.outcomes|
  {
    var w := s.worker;
    if w.outcomes == [] {
      NothingLands(s.db, s.db, w.run);
    } else {
      var rest, next := w.outcomes[1..], Step(s, PersistNext);
      var (id, route) := w.outcomes[0];
      StepsFirst(s, PersistNext, Commits(|rest|));
      PersistLands(s.db, w.run, id, route, w.usage);
      IdsTail(w.outcomes);
      CommitsLand(next);
      hide Landed, Steps, Persist;
      FirstRow(w.run, w.outcomes, w.usage);
      LandedJoin(s.db, next.db, Steps(next, Commits(|rest|)).db, w.run, [Validation(w.run, id, route)],
                 RowsOf(w.run, rest), CallOf(w.run, [w.outcomes[0]], w.usage), []);
    }
  }

  lemma IdsTail(outcomes: seq<(Id, Route)>)
    requires outcomes != [] && Distinct(Ids(outcomes))
    ensures Distinct(Ids(outcomes[1..])) && outcomes[0].0 !in Ids(outcomes[1..])
  {
    var id, rest := outcomes[0].0, Ids(outcomes[1..]);
    assert Ids(outcomes) == [id] + rest;
    DistinctTail(id, rest);
  }

  lemma FirstRow(run: nat, outcomes: seq<(Id, Route)>, usage: Option<Usage>)
    requires outcomes != [] && Distinct(Ids(outcomes))
    ensures var row := Validation(run, outcomes[0].0, outcomes[0].1);
            && RowsOf(run, outcomes) == [row] + RowsOf(run, outcomes[1..])
            && (forall id :: !(HasRow([row], id) && HasRow(RowsOf(run, outcomes[1..]), id)))
    ensures CallOf(run, outcomes, usage) == CallOf(run, [outcomes[0]], usage) + []
    ensures CallOf(run, outcomes[1..], None) == []
  {
    IdsTail(outcomes);
    forall id ensures HasRow(RowsOf(run, outcomes[1..]), id) <==> id in Ids(outcomes[1..]) {
      RowOfId(run, outcomes[1..], id);
    }
  }

  // --- the whole call ---

  /** A batch's validations: each of its obligations with the route the provider gave it. */
  function BatchRows(run: nat, batch: seq<Id>, route: Id -> Route): seq<Validation> {
    seq(|batch|, k requires 0 <= k < |batch| => Validation(run, batch[k], route(batch[k])))
  }

  /** The validations of the batches before the first one that the provider fails, ... */
  ghost function Rows(run: nat, batches: seq<seq<Id>>, provider: Provider): seq<Validation> {
    if batches == [] || provider(batches[0]).None? then []
    else BatchRows(run, batches[0], provider(batches[0]).value.0) + Rows(run, batches[1..], provider)
  }

  /** ... and their invocations, one each. */
  ghost function Calls(run: nat, batches: seq<seq<Id>>, provider: Provider): seq<Invocation> {
    if batches == [] || provider(batches[0]).None? then []
    else [Invocation(run, provider(batches[0]).value.1)] + Calls(run, batches[1..], provider)
  }

  lemma {:induction false} RowsWithin(run: nat, batches: seq<seq<Id>>, provider: Provider, id: Id)
    requires HasRow(Rows(run, batches, provider), id)
    ensures id in Batching.Flatten(batches)
  {
    if batches != [] && provider(batches[0]).Some? {
      var first := BatchRows(run, batches[0], provider(batches[0]).value.0);
      RowsJoin(first, Rows(run, batches[1..], provider), id);
      if HasRow(first, id) {
        var k :| 0 <= k < |first| && first[k].id == id;
        assert batches[0][k] == id;
      } else {
        RowsWithin(run, batches[1..], provider, id);
      }
    }
  }

  lemma BatchRowIds(run: nat, batch: seq<Id>, route: Id -> Route)
    ensures BatchRows(run, batch, route) == RowsOf(run, Outcomes(batch, route))
    ensures Ids(Outcomes(batch, route)) == batch
  {
  }

  lemma DistinctParts(a: seq<Id>, b: seq<Id>)
    requires Distinct(a + b)
    ensures Distinct(a) && Distinct(b) && forall id :: !(id in a && id in b)
  {
    var all := a + b;
    forall i, j | 0 <= i < j < |a| ensures a[i] != a[j] {
      assert all[i] != all[j];
    }
    forall i, j | 0 <= i < j < |b| ensures b[i] != b[j] {
      assert all[|a| + i] != all[|a| + j];
    }
    forall i, j | 0 <= i < |a| && 0 <= j < |b| ensures a[i] != b[j] {
      assert all[i] != all[|a| + j];
    }
  }

  lemma {:induction false} WorkLands(s: System, batches: seq<seq<Id>>, provider: Provider)
    requires s.worker.Working? && s.worker.run < |s.db.runs|
    requires s.worker.batches == batches && s.worker.outcomes == [] && s.worker.usage == None
    requires Distinct(Batching.Flatten(batches)) && forall k :: 0 <= k < |batches| ==> batches[k] != []
    ensures Landed(s.db, Steps(s, Work(batches, provider)).db, s.worker.run,
                   Rows(s.worker.run, batches, provider), Calls(s.worker.run, batches, provider))
    decreases |batches|
  {
    var run := s.worker.run;
    if batches == [] {
      StepsFirst(s, Finish, []);
      NothingLands(s.db, Step(s, Finish).db, run);
    } else if provider(batches[0]).None? {
      StepsFirst(s, Failure, []);
      NothingLands(s.db, Step(s, Failure).db, run);
    } else {
      var (route, usage) := provider(batches[0]).value;
      var asked := Step(s, Verify(route, usage));
      var done := Steps(asked, Commits(|batches[0]|));
      assert Batching.Flatten(batches) == batches[0] + Batching.Flatten(batches[1..]);
      DistinctParts(batches[0], Batching.Flatten(batches[1..]));
      BatchRowIds(run, batches[0], route);
      StepsFirst(s, Verify(route, usage), Commits(|batches[0]|) + Work(batches[1..], provider));
      StepsJoin(asked, Commits(|batches[0]|), Work(batches[1..], provider));
      CommitsLand(asked);
      WorkLands(done, batches[1..], provider);
      ApartRows(run, batches, provider);
      hide Landed, Steps;
      LandedJoin(s.db, done.db, Steps(done, Work(batches[1..], provider)).db, run,
                 BatchRows(run, batches[0], route), Rows(run, batches[1..], provider),
                 [Invocation(run, usage)], Calls(run, batches[1..], provider));
    }
  }

  lemma ApartRows(run: nat, batches: seq<seq<Id>>, provider: Provider)
    requires batches != [] && provider(batches[0]).Some?
    requires Distinct(Batching.Flatten(batches))
    ensures forall id :: !(HasRow(BatchRows(run, batches[0], provider(batches[0]).value.0), id)
                           && HasRow(Rows(run, batches[1..], provider), id))
  {
    var route := provider(batches[0]).value.0;
    assert Batching.Flatten(batches) == batches[0] + Batching.Flatten(batches[1..]);
    DistinctParts(batches[0], Batching.Flatten(batches[1..]));
    BatchRowIds(run, batches[0], route);
    hide Rows, BatchRows;
    forall id | HasRow(BatchRows(run, batches[0], route), id)
      ensures !HasRow(Rows(run, batches[1..], provider), id)
    {
      RowOfId(run, Outcomes(batches[0], route), id);
      if HasRow(Rows(run, batches[1..], provider), id) {
        RowsWithin(run, batches[1..], provider, id);
      }
    }
  }

  // --- the same, on the provider's answers ---

  /** The provider answers batch `k` and every one before it. */
  ghost predicate Answered(batches: seq<seq<Id>>, provider: Provider, k: nat) {
    k < |batches| && forall j :: 0 <= j <= k ==> provider(batches[j]).Some?
  }

  /** Obligation `id` is in the answered batch `k`. */
  ghost predicate AnsweredIn(batches: seq<seq<Id>>, provider: Provider, k: nat, id: Id) {
    Answered(batches, provider, k) && id in batches[k]
  }

  ghost function RouteIn(batches: seq<seq<Id>>, provider: Provider, k: nat, id: Id): Route
    requires Answered(batches, provider, k)
  {
    provider(batches[k]).value.0(id)
  }

  ghost predicate IsAnswer(run: nat, batches: seq<seq<Id>>, provider: Provider, v: Validation) {
    exists k: nat :: AnsweredIn(batches, provider, k, v.id)
                     && v == Validation(run, v.id, RouteIn(batches, provider, k, v.id))
  }

  lemma AnsweredTail(batches: seq<seq<Id>>, provider: Provider, k: nat)
    requires batches != [] && provider(batches[0]).Some?
    ensures Answered(batches, provider, k + 1) <==> Answered(batches[1..], provider, k)
    ensures Answered(batches, provider, 0)
  {
    if Answered(batches, provider, k + 1) {
      assert forall j :: 0 <= j <= k ==> batches[1..][j] == batches[j + 1];
    }
    if Answered(batches[1..], provider, k) {
      forall j | 0 <= j <= k + 1 ensures provider(batches[j]).Some? {
        assert j > 0 ==> batches[j] == batches[1..][j - 1];
      }
    }
  }

  lemma BatchRowsExactly(run: nat, batch: seq<Id>, route: Id -> Route, v: Validation)
    ensures v in BatchRows(run, batch, route) <==> v.id in batch && v == Validation(run, v.id, route(v.id))
  {
    var rows := BatchRows(run, batch, route);
    if v.id in batch && v == Validation(run, v.id, route(v.id)) {
      var k :| 0 <= k < |batch| && batch[k] == v.id;
      assert rows[k] == v;
    }
  }

  /** The rows are the answers. */
  lemma {:induction false} RowsExactly(run: nat, batches: seq<seq<Id>>, provider: Provider, v: Validation)
    ensures v in Rows(run, batches, provider) <==> IsAnswer(run, batches, provider, v)
  {
    if batches == [] || provider(batches[0]).None? {
    } else {
      var rest, route := batches[1..], provider(batches[0]).value.0;
      RowsExactly(run, rest, provider, v);
      BatchRowsExactly(run, batches[0], route, v);
      AnsweredTail(batches, provider, 0);
      hide Rows, BatchRows, Answered;
      assert v in Rows(run, batches, provider) <==>
             v in BatchRows(run, batches[0], route) || v in Rows(run, rest, provider) by {
        RowsFirst(run, batches, provider);
      }
      if v in BatchRows(run, batches[0], route) {
        assert AnsweredIn(batches, provider, 0, v.id);
      }
      if k: nat :| AnsweredIn(rest, provider, k, v.id)
                   && v == Validation(run, v.id, RouteIn(rest, provider, k, v.id)) {
        AnsweredTail(batches, provider, k);
        AnsweredBound(rest, provider, k);
        assert AnsweredIn(batches, provider, k + 1, v.id);
      }
      if k: nat :| AnsweredIn(batches, provider, k, v.id)
                   && v == Validation(run, v.id, RouteIn(batches, provider, k, v.id)) {
        AnsweredBound(batches, provider, k);
        if k > 0 {
          AnsweredTail(batches, provider, k - 1);
          assert AnsweredIn(rest, provider, k - 1, v.id);
        }
      }
    }
  }

  lemma AnsweredBound(batches: seq<seq<Id>>, provider: Provider, k: nat)
    requires Answered(batches, provider, k)
    ensures k < |batches|
  {
  }

  lemma RowsFirst(run: nat, batches: seq<seq<Id>>, provider: Provider)
    requires batches != [] && provider(batches[0]).Some?
    ensures Rows(run, batches, provider)
            == BatchRows(run, batches[0], provider(batches[0]).value.0) + Rows(run, batches[1..], provider)
  {
  }

  /** One call for each answered batch, with the usage the provider reported. */
  lemma {:induction false} CallsExactly(run: nat, batches: seq<seq<Id>>, provider: Provider, k: nat)
    ensures k < |Calls(run, batches, provider)| <==> Answered(batches, provider, k)
    ensures Answered(batches, provider, k) ==>
              Calls(run, batches, provider)[k] == Invocation(run, provider(batches[k]).value.1)
  {
    if batches != [] && provider(batches[0]).Some? {
      if k > 0 {
        CallsExactly(run, batches[1..], provider, k - 1);
        AnsweredTail(batches, provider, k - 1);
      } else {
        AnsweredTail(batches, provider, 0);
      }
    }
  }

  /** What the database says after the call: for every planned batch before the first one that the provider fails,
      each of its obligations has the route it was given, a validation with that route, and a review task unless it
      registered; each such batch has its invocation; and nothing else was added or changed. */
  ghost predicate Recorded(before: Db, after: Db, run: nat, batches: seq<seq<Id>>, provider: Provider) {
    && before.validations <= after.validations && before.invocations <= after.invocations
    && (forall v :: v in after.validations[|before.validations|..] <==> IsAnswer(run, batches, provider, v))
    && (forall k: nat :: k < |after.invocations| - |before.invocations| <==> Answered(batches, provider, k))
    && (forall k: nat :: Answered(batches, provider, k) ==>
          after.invocations[|before.invocations|..][k] == Invocation(run, provider(batches[k]).value.1))
    && (forall k: nat, id :: AnsweredIn(batches, provider, k, id) ==>
          id in after.status && after.status[id] == RouteIn(batches, provider, k, id))
    && (forall id :: (forall k: nat :: !AnsweredIn(batches, provider, k, id)) ==> SameStatus(before, after, id))
    && (forall id :: id in after.tasks <==> id in before.tasks || AsksTask(batches, provider, id))
  }

  ghost predicate AsksTask(batches: seq<seq<Id>>, provider: Provider, id: Id) {
    exists k: nat :: AnsweredIn(batches, provider, k, id) && RouteIn(batches, provider, k, id) != AutoRegister
  }

  lemma RowOfAnswer(run: nat, batches: seq<seq<Id>>, provider: Provider, id: Id)
    ensures HasRow(Rows(run, batches, provider), id) <==> exists k: nat :: AnsweredIn(batches, provider, k, id)
    ensures NeedsTask(Rows(run, batches, provider), id) <==> AsksTask(batches, provider, id)
  {
    var rows := Rows(run, batches, provider);
    hide Rows, Answered;
    if HasRow(rows, id) {
      var k :| 0 <= k < |rows| && rows[k].id == id;
      RowsExactly(run, batches, provider, rows[k]);
    }
    if NeedsTask(rows, id) {
      var k :| 0 <= k < |rows| && rows[k].id == id && rows[k].route != AutoRegister;
      RowsExactly(run, batches, provider, rows[k]);
    }
    forall k: nat | AnsweredIn(batches, provider, k, id)
      ensures HasRow(rows, id) && (RouteIn(batches, provider, k, id) != AutoRegister ==> NeedsTask(rows, id))
    {
      var i := AnswerRow(run, batches, provider, k, id);
    }
  }

  lemma AnswerRow(run: nat, batches: seq<seq<Id>>, provider: Provider, k: nat, id: Id) returns (i: nat)
    requires AnsweredIn(batches, provider, k, id)
    ensures var rows := Rows(run, batches, provider);
            i < |rows| && rows[i] == Validation(run, id, RouteIn(batches, provider, k, id))
  {
    hide Rows, Answered;
    var v := Validation(run, id, RouteIn(batches, provider, k, id));
    RowsExactly(run, batches, provider, v);
    i :| 0 <= i < |Rows(run, batches, provider)| && Rows(run, batches, provider)[i] == v;
  }

  lemma LandedRecorded(before: Db, after: Db, run: nat, batches: seq<seq<Id>>, provider: Provider)
    requires Landed(before, after, run, Rows(run, batches, provider), Calls(run, batches, provider))
    ensures Recorded(before, after, run, batches, provider)
  {
    var rows, calls := Rows(run, batches, provider), Calls(run, batches, provider);
    assert after.validations[|before.validations|..] == rows;
    assert after.invocations[|before.invocations|..] == calls;
    hide Rows, Calls, Answered, HasRow, NeedsTask, IsAnswer, AsksTask;
    forall v ensures v in rows <==> IsAnswer(run, batches, provider, v) {
      RowsExactly(run, batches, provider, v);
    }
    forall k: nat
      ensures k < |calls| <==> Answered(batches, provider, k)
      ensures Answered(batches, provider, k) ==> calls[k] == Invocation(run, provider(batches[k]).value.1)
    {
      CallsExactly(run, batches, provider, k);
    }
    forall k: nat, id | AnsweredIn(batches, provider, k, id)
      ensures id in after.status && after.status[id] == RouteIn(batches, provider, k, id)
    {
      var i := AnswerRow(run, batches, provider, k, id);
      assert RowHolds(after, run, rows[i]);
    }
    forall id
      ensures HasRow(rows, id) <==> exists k: nat :: AnsweredIn(batches, provider, k, id)
      ensures NeedsTask(rows, id) <==> AsksTask(batches, provider, id)
    {
      RowOfAnswer(run, batches, provider, id);
    }
  }

  /** A whole call records the provider's answers. */
  lemma AttemptRecords(db: Db, provenance: Provenance, candidates: seq<Id>, size: Id -> nat, provider: Provider)
    requires Consistent(db) && candidates != [] && Distinct(candidates) && Elements(candidates) == db.active
    ensures Recorded(db, Steps(System(db, Idle), Attempt(db, provenance, candidates, size, provider)).db,
                     CreateOrResume(db, provenance, |candidates|).1,
                     Planned(db, provenance, candidates, size), provider)
  {
    var (db', run) := CreateOrResume(db, provenance, |candidates|);
    var batches := Planned(db, provenance, candidates, size);
    var s := System(db', Working(run, candidates, batches, [], None));
    StartWork(db, provenance, candidates, size, provider);
    var pending := Pending(candidates, db'.runs[run].completed);
    Batching.SplitWhole(size, pending);
    forall k | 0 <= k < |batches| ensures batches[k] != [] {
      Batching.SplitLegal(size, pending, k);
    }
    hide Steps, Landed, Recorded, Distinct, Consistent;
    WorkLands(s, batches, provider);
    var after := Steps(s, Work(batches, provider)).db;
    assert Landed(db, after, run, Rows(run, batches, provider), Calls(run, batches, provider)) by {
      SameTables(db, db', after, run, Rows(run, batches, provider), Calls(run, batches, provider));
    }
    LandedRecorded(db, after, run, batches, provider);
  }

  lemma SameTables(a: Db, b: Db, c: Db, run: nat, rows: seq<Validation>, calls: seq<Invocation>)
    requires b == a.(runs := b.runs) && Landed(b, c, run, rows, calls)
    ensures Landed(a, c, run, rows, calls)
  {
    assert forall id :: SameStatus(b, c, id) ==> SameStatus(a, c, id);
  }
}
