/**
 Why the guarantees of the step system are guarantees of the workers: what Worker.processOne and
 BatchDispatcher.processBatch do to the table is what some run of the protocol's steps does to it.
 */
module WorkerRuns {
  import opened Prelude
  import opened OutboxTable
  import opened Errors
  import opened Publisher
  import opened Repository
  import opened Dispatcher
  import opened BatchRefinement
  import P = Protocol
  import Truncation

  lemma {:induction false} Take(cfg: Config, s: P.State, step: P.Step, rest: seq<P.Step>)
    requires P.Enabled(s, step) && P.Valid(cfg, P.Apply(cfg, s, step), rest)
    ensures P.Valid(cfg, s, [step] + rest)
    ensures P.Final(cfg, s, [step] + rest) == P.Final(cfg, P.Apply(cfg, s, step), rest)
  {
    assert ([step] + rest)[1..] == rest;
  }

  // ---------- one claim ----------

  /** What the step system remembers of a publish: the error's retry verdict. */
  function Reported(outcome: Option<Error>): P.Outcome
  {
    if outcome.None? then P.Delivered else P.Rejected(IsRetryable(outcome))
  }

  /** A payload over the limit is refused for good, as every publisher does before it sends anything. */
  predicate SizeChecked(m: Outbox, outcome: Option<Error>)
  {
    !Fits(m) ==> outcome.Some? && !IsRetryable(outcome)
  }

  /** The statement that records an outcome; one that the database does not take leaves the claim abandoned. */
  function Resolve(k: P.ClaimKey, outcome: Option<Error>, render: Error -> string, u: Update): P.Step
  {
    if !u.dbUp then P.Abandon({k})
    else match outcome
      case None => P.ResolvePublished({k})
      case Some(e) => P.ResolveFailure(k, Truncation.Truncated(render(e)), u.jitter)
  }

  /** A live claim whose row is still as the worker got it, with what the publisher has reported so far. */
  predicate Has(s: P.State, k: P.ClaimKey, r: Row, outcome: P.Outcome)
  {
    && k in s.claims && s.claims[k].snapshot == r && s.claims[k].outcome == outcome
    && r.status.Publishing? && k.0 in s.rows && s.rows[k.0] == r
  }

  /**
   Recording an outcome is one step of the protocol in any state, whatever has become of the row since the claim:
   revived, requeued, claimed by others, resolved or deleted.
   */
  lemma {:induction false} RecordingIsAStep(
    cfg: Config, s: P.State, k: P.ClaimKey, outcome: Option<Error>, render: Error -> string, u: Update)
    requires k in s.claims && s.claims[k].outcome == Reported(outcome) && s.now == u.now && Jitter(u.jitter)
    ensures var step := Resolve(k, outcome, render, u);
            && P.Enabled(s, step)
            && P.Apply(cfg, s, step).rows ==
              Recording(cfg, s.rows, Outbox(k.0, s.claims[k].snapshot), outcome, render, u)
  {
    assert u.dbUp && outcome.None? ==> P.RowIds({k}) == {k.0};
  }

  lemma {:induction false} ResolveDisposes(
    cfg: Config, s: P.State, k: P.ClaimKey, r: Row, outcome: Option<Error>, render: Error -> string, u: Update)
    requires Has(s, k, r, Reported(outcome)) && s.now == u.now && Jitter(u.jitter)
    ensures var step := Resolve(k, outcome, render, u);
            && P.Enabled(s, step)
            && P.Apply(cfg, s, step).rows == s.rows[k.0 := Disposed(cfg, r, outcome, render, u)]
            && P.Apply(cfg, s, step).claims == s.claims - {k}
            && P.Apply(cfg, s, step).now == s.now
            && P.Apply(cfg, s, step).history == s.history
  {
    assert u.dbUp && outcome.None? ==> P.RowIds({k}) == {k.0};
  }

  /** Publish, then record at the worker's own time. */
  function Leg(k: P.ClaimKey, outcome: Option<Error>, render: Error -> string, u: Update): seq<P.Step>
  {
    [P.Publish(k, outcome.None?, Reported(outcome)), P.Tick(u.now), Resolve(k, outcome, render, u)]
  }

  lemma {:induction false} LegDisposes(
    cfg: Config, s: P.State, k: P.ClaimKey, r: Row, outcome: Option<Error>, render: Error -> string, u: Update)
    requires Has(s, k, r, P.Pending) && s.now <= u.now && Jitter(u.jitter) && SizeChecked(Outbox(k.0, r), outcome)
    ensures var leg := Leg(k, outcome, render, u);
            && P.Valid(cfg, s, leg)
            && P.Final(cfg, s, leg).rows == s.rows[k.0 := Disposed(cfg, r, outcome, render, u)]
            && P.Final(cfg, s, leg).claims == s.claims - {k}
            && P.Final(cfg, s, leg).now == u.now
            && P.Final(cfg, s, leg).history == s.history
  {
    var leg := Leg(k, outcome, render, u);
    var s1 := P.Apply(cfg, s, leg[0]);
    var s2 := P.Apply(cfg, s1, leg[1]);
    ResolveDisposes(cfg, s2, k, r, outcome, render, u);
    P.OneStep(cfg, s2, leg[2]);
    Take(cfg, s1, leg[1], [leg[2]]);
    Take(cfg, s, leg[0], [leg[1]] + [leg[2]]);
    assert leg == [leg[0]] + ([leg[1]] + [leg[2]]);
  }

  /** Claiming rows at a given time. */
  function ClaimLeg(worker: nat, ids: set<Id>, at: real): seq<P.Step>
  {
    [P.Tick(at), P.ClaimSome(worker, ids)]
  }

  function KeyOf(s: P.State, id: Id): P.ClaimKey { (id, |P.History(s, id)| + 1) }

  lemma {:induction false} ClaimLegClaims(cfg: Config, s: P.State, worker: nat, ids: set<Id>, at: real)
    requires ids <= EnqueuedIds(s.rows) && s.now <= at
    ensures var leg := ClaimLeg(worker, ids, at);
            && P.Valid(cfg, s, leg)
            && P.Final(cfg, s, leg).rows == ClaimRows(s.rows, ids, at)
            && P.Final(cfg, s, leg).now == at
            && forall id :: id in ids ==>
              Has(P.Final(cfg, s, leg), KeyOf(s, id), ToPublishing(s.rows[id], at), P.Pending)
  {
    var leg := ClaimLeg(worker, ids, at);
    var s1 := P.Apply(cfg, s, leg[0]);
    P.OneStep(cfg, s1, leg[1]);
    Take(cfg, s, leg[0], [leg[1]]);
    assert leg == [leg[0]] + [leg[1]];
    forall id | id in ids ensures KeyOf(s, id) in P.NewClaims(s1, worker, ids) {
      assert P.History(s1, id) == P.History(s, id);
    }
  }

  // ---------- the single-message worker ----------

  function JobRun(s: P.State, worker: nat, job: Job, render: Error -> string): seq<P.Step>
  {
    ClaimLeg(worker, {job.id}, job.claimAt) + Leg(KeyOf(s, job.id), job.outcome, render, job.update)
  }

  /** The clock does not run backwards while the job is done. */
  predicate OnTime(now: real, job: Job)
  {
    now <= job.claimAt <= job.update.now && Jitter(job.update.jitter)
  }

  predicate JobChecked(t: Table, job: Job)
  {
    job.id in t ==> SizeChecked(Outbox(job.id, t[job.id]), job.outcome)
  }

  lemma {:induction false} ClaimThenSet(t: Table, id: Id, at: real, r: Row)
    requires id in t
    ensures ClaimRows(t, {id}, at)[id := r] == t[id := r]
  {
  }

  /** Worker.processOne is a run of the protocol. */
  lemma {:induction false} JobIsARun(cfg: Config, s: P.State, worker: nat, job: Job, render: Error -> string)
    requires job.id in EnqueuedIds(s.rows) && OnTime(s.now, job) && JobChecked(s.rows, job)
    ensures P.Valid(cfg, s, JobRun(s, worker, job, render))
    ensures P.Final(cfg, s, JobRun(s, worker, job, render)).rows == Alone(cfg, s.rows, job, render)
    ensures P.Final(cfg, s, JobRun(s, worker, job, render)).now == job.update.now
  {
    var claim := ClaimLeg(worker, {job.id}, job.claimAt);
    ClaimLegClaims(cfg, s, worker, {job.id}, job.claimAt);
    var s1 := P.Final(cfg, s, claim);
    var r := ToPublishing(s.rows[job.id], job.claimAt);
    LegDisposes(cfg, s1, KeyOf(s, job.id), r, job.outcome, render, job.update);
    ClaimThenSet(s.rows, job.id, job.claimAt, Disposed(cfg, r, job.outcome, render, job.update));
    P.RunsCompose(cfg, s, claim, Leg(KeyOf(s, job.id), job.outcome, render, job.update));
  }

  predicate AllOnTime(now: real, jobs: seq<Job>)
    decreases |jobs|
  {
    jobs == [] || (OnTime(now, jobs[0]) && AllOnTime(jobs[0].update.now, jobs[1..]))
  }

  /** So is a worker's whole life: any number of jobs, each the oldest message when its turn comes. */
  lemma {:induction false} JobsAreARun(cfg: Config, s: P.State, worker: nat, jobs: seq<Job>, render: Error -> string)
    returns (run: seq<P.Step>)
    requires Serial(cfg, s.rows, jobs, render) && AllOnTime(s.now, jobs)
    requires forall i :: 0 <= i < |jobs| ==> JobChecked(s.rows, jobs[i])
    ensures P.Valid(cfg, s, run)
    ensures P.Final(cfg, s, run).rows == OneByOne(cfg, s.rows, jobs, render)
    decreases |jobs|
  {
    if jobs == [] {
      run := [];
    } else {
      JobIsARun(cfg, s, worker, jobs[0], render);
      var first := JobRun(s, worker, jobs[0], render);
      var rest := JobsAreARun(cfg, P.Final(cfg, s, first), worker, jobs[1..], render);
      P.RunsCompose(cfg, s, first, rest);
      run := first + rest;
    }
  }

  // ---------- the batch worker ----------

  /** A claimed batch with the results of publishing it, each claim's key, and how the outcomes get recorded. */
  datatype Batch = Batch(
    msgs: seq<Outbox>, results: seq<PublishResult>, keys: seq<P.ClaimKey>, render: Error -> string, us: Updates)
  {
    ghost predicate Good()
    {
      && |results| == |msgs| == |keys| && FailuresHaveErrors(results)
      && (forall i :: 0 <= i < |msgs| ==> SizeChecked(msgs[i], OutcomeOf(results[i])))
      && (forall i :: 0 <= i < |msgs| ==> keys[i].0 == msgs[i].id && msgs[i].row.status.Publishing?)
      && (forall i, j :: 0 <= i < j < |msgs| ==> msgs[i].id != msgs[j].id)
      && (forall i: nat :: i < |msgs| ==> Jitter(us.failure(i).jitter) && us.failure(i).now <= us.successes.now)
      && (forall i: nat, j: nat :: i < j < |msgs| ==> us.failure(i).now <= us.failure(j).now)
    }

    /** The clock has not passed any of the times still to come. */
    ghost predicate Ahead(now: real, i: nat)
    {
      now <= us.successes.now && forall j: nat :: i <= j < |msgs| ==> now <= us.failure(j).now
    }

    function SuccessKeys(): set<P.ClaimKey>
      requires |results| == |keys|
    {
      set i | 0 <= i < |keys| && results[i].success :: keys[i]
    }
  }

  /** The first `i` results have been gone through: failures are recorded, successes await the batch update. */
  ghost predicate Midway(cfg: Config, claimed: Table, b: Batch, i: nat, s: P.State)
    requires b.Good() && i <= |b.msgs|
  {
    && Through(cfg, claimed, b.msgs, b.results, b.render, b.us, i, s.rows)
    && b.Ahead(s.now, i)
    && forall j: nat :: j < |b.msgs| && (j >= i || b.results[j].success) ==>
         Has(s, b.keys[j], b.msgs[j].row, if j < i then P.Delivered else P.Pending)
  }

  lemma {:induction false} SuccessAdvances(cfg: Config, claimed: Table, b: Batch, i: nat, s: P.State)
    requires b.Good() && i < |b.msgs| && b.results[i].success && Midway(cfg, claimed, b, i, s)
    ensures var step := P.Publish(b.keys[i], true, P.Delivered);
            P.Enabled(s, step) && Midway(cfg, claimed, b, i + 1, P.Apply(cfg, s, step))
  {
    SuccessNeedsNoUpdate(b.results, i);
    assert Has(s, b.keys[i], b.msgs[i].row, P.Pending);
    var s' := P.Apply(cfg, s, P.Publish(b.keys[i], true, P.Delivered));
    forall j: nat | j < |b.msgs| && (j >= i + 1 || b.results[j].success)
      ensures Has(s', b.keys[j], b.msgs[j].row, if j < i + 1 then P.Delivered else P.Pending)
    {
      if j != i { KeysDiffer(b, i, j); }
    }
  }

  lemma {:induction false} KeysDiffer(b: Batch, i: nat, j: nat)
    requires b.Good() && i < |b.msgs| && j < |b.msgs| && i != j
    ensures b.keys[i] != b.keys[j] && b.msgs[i].id != b.msgs[j].id
  {
    assert b.keys[i].0 == b.msgs[i].id && b.keys[j].0 == b.msgs[j].id;
  }

  /** Resolving one claim leaves what a worker has through another one. */
  lemma {:induction false} HasSurvives(
    s: P.State, s': P.State, k: P.ClaimKey, other: P.ClaimKey, r: Row, outcome: P.Outcome)
    requires Has(s, other, r, outcome) && other.0 != k.0
    requires s'.claims == s.claims - {k} && k.0 in s'.rows && s'.rows == s.rows[k.0 := s'.rows[k.0]]
    ensures Has(s', other, r, outcome)
  {
  }

  lemma {:induction false} FailureAdvances(cfg: Config, claimed: Table, b: Batch, i: nat, s: P.State)
    requires b.Good() && i < |b.msgs| && !b.results[i].success && Midway(cfg, claimed, b, i, s)
    requires ClaimedBatch(claimed, b.msgs)
    ensures var leg := Leg(b.keys[i], b.results[i].error, b.render, b.us.failure(i));
            P.Valid(cfg, s, leg) && Midway(cfg, claimed, b, i + 1, P.Final(cfg, s, leg))
  {
    var u := b.us.failure(i);
    var leg := Leg(b.keys[i], b.results[i].error, b.render, u);
    LegDisposes(cfg, s, b.keys[i], b.msgs[i].row, b.results[i].error, b.render, u);
    var s' := P.Final(cfg, s, leg);
    OneMoreRecorded(cfg, claimed, b.msgs, b.results, b.render, b.us, i, s.rows, s'.rows);
    forall j: nat | j < |b.msgs| && (j >= i + 1 || b.results[j].success)
      ensures Has(s', b.keys[j], b.msgs[j].row, if j < i + 1 then P.Delivered else P.Pending)
    {
      KeysDiffer(b, i, j);
      HasSurvives(s, s', b.keys[i], b.keys[j], b.msgs[j].row, if j < i then P.Delivered else P.Pending);
    }
  }

  lemma {:induction false} NextResult(
    cfg: Config, claimed: Table, b: Batch, i: nat, s: P.State) returns (run: seq<P.Step>)
    requires b.Good() && i < |b.msgs| && Midway(cfg, claimed, b, i, s) && ClaimedBatch(claimed, b.msgs)
    ensures P.Valid(cfg, s, run) && Midway(cfg, claimed, b, i + 1, P.Final(cfg, s, run))
  {
    if b.results[i].success {
      SuccessAdvances(cfg, claimed, b, i, s);
      P.OneStep(cfg, s, P.Publish(b.keys[i], true, P.Delivered));
      run := [P.Publish(b.keys[i], true, P.Delivered)];
    } else {
      FailureAdvances(cfg, claimed, b, i, s);
      run := Leg(b.keys[i], b.results[i].error, b.render, b.us.failure(i));
    }
  }

  lemma {:induction false} ResultsAreARun(
    cfg: Config, claimed: Table, b: Batch, i: nat, s: P.State) returns (run: seq<P.Step>)
    requires b.Good() && i <= |b.msgs| && Midway(cfg, claimed, b, i, s) && ClaimedBatch(claimed, b.msgs)
    ensures P.Valid(cfg, s, run) && Midway(cfg, claimed, b, |b.msgs|, P.Final(cfg, s, run))
    decreases |b.msgs| - i
  {
    if i == |b.msgs| {
      run := [];
    } else {
      var first := NextResult(cfg, claimed, b, i, s);
      var rest := ResultsAreARun(cfg, claimed, b, i + 1, P.Final(cfg, s, first));
      P.RunsCompose(cfg, s, first, rest);
      run := first + rest;
    }
  }

  /** The batch update, or its loss. */
  function LastLeg(b: Batch): seq<P.Step>
    requires b.Good()
  {
    [P.Tick(b.us.successes.now),
     if b.us.successes.dbUp then P.ResolvePublished(b.SuccessKeys()) else P.Abandon(b.SuccessKeys())]
  }

  lemma {:induction false} SuccessIds(b: Batch)
    requires b.Good()
    ensures P.RowIds(b.SuccessKeys()) == Elements(SuccessesBelow(b.msgs, b.results, |b.msgs|))
  {
    forall x ensures x in P.RowIds(b.SuccessKeys()) <==> x in SuccessesBelow(b.msgs, b.results, |b.msgs|) {
      SuccessesMeaning(b.msgs, b.results, |b.msgs|, x);
      if i :| 0 <= i < |b.msgs| && b.results[i].success && b.msgs[i].id == x {
        assert b.keys[i] in b.SuccessKeys();
      }
    }
  }

  lemma {:induction false} NoneMarked(t: Table, now: real)
    ensures MarkPublished(t, {}, now) == t
  {
  }

  lemma {:induction false} SuccessesAreDelivered(cfg: Config, claimed: Table, b: Batch, s: P.State)
    requires b.Good() && Midway(cfg, claimed, b, |b.msgs|, s)
    ensures forall k :: k in b.SuccessKeys() ==> k in s.claims && s.claims[k].outcome.Delivered?
  {
    forall k | k in b.SuccessKeys() ensures k in s.claims && s.claims[k].outcome.Delivered? {
      var i :| 0 <= i < |b.keys| && b.results[i].success && b.keys[i] == k;
      assert Has(s, b.keys[i], b.msgs[i].row, P.Delivered);
    }
  }

  lemma {:induction false} LastLegSteps(cfg: Config, b: Batch, s: P.State)
    requires b.Good() && s.now <= b.us.successes.now
    requires forall k :: k in b.SuccessKeys() ==> k in s.claims && s.claims[k].outcome.Delivered?
    ensures P.Valid(cfg, s, LastLeg(b))
    ensures P.Final(cfg, s, LastLeg(b)).rows ==
              if b.us.successes.dbUp then MarkPublished(s.rows, P.RowIds(b.SuccessKeys()), b.us.successes.now)
              else s.rows
  {
    var leg := LastLeg(b);
    var s1 := P.Apply(cfg, s, leg[0]);
    P.OneStep(cfg, s1, leg[1]);
    Take(cfg, s, leg[0], [leg[1]]);
    assert leg == [leg[0]] + [leg[1]];
  }

  lemma {:induction false} LastLegIsARun(cfg: Config, claimed: Table, b: Batch, s: P.State)
    requires b.Good() && Midway(cfg, claimed, b, |b.msgs|, s)
    ensures P.Valid(cfg, s, LastLeg(b))
    ensures var ids := SuccessesBelow(b.msgs, b.results, |b.msgs|);
            P.Final(cfg, s, LastLeg(b)).rows ==
              if ids != [] && b.us.successes.dbUp then MarkPublished(s.rows, Elements(ids), b.us.successes.now)
              else s.rows
  {
    SuccessesAreDelivered(cfg, claimed, b, s);
    LastLegSteps(cfg, b, s);
    SuccessIds(b);
    if SuccessesBelow(b.msgs, b.results, |b.msgs|) == [] {
      assert P.RowIds(b.SuccessKeys()) == {};
      NoneMarked(s.rows, b.us.successes.now);
    }
  }

  lemma {:induction false} ThreeLegs(cfg: Config, s: P.State, a: seq<P.Step>, b: seq<P.Step>, c: seq<P.Step>)
    requires P.Valid(cfg, s, a)
    requires P.Valid(cfg, P.Final(cfg, s, a), b)
    requires P.Valid(cfg, P.Final(cfg, P.Final(cfg, s, a), b), c)
    ensures P.Valid(cfg, s, a + (b + c))
    ensures P.Final(cfg, s, a + (b + c)) == P.Final(cfg, P.Final(cfg, P.Final(cfg, s, a), b), c)
  {
    P.RunsCompose(cfg, P.Final(cfg, s, a), b, c);
    P.RunsCompose(cfg, s, a, b + c);
  }

  lemma {:induction false} RecordedIsUnique(cfg: Config, t: Table, b: Batch, a: Table, c: Table)
    requires |b.results| == |b.msgs|
    requires Recorded(cfg, t, b.msgs, b.results, b.render, b.us, All(|b.msgs|), a)
    requires Recorded(cfg, t, b.msgs, b.results, b.render, b.us, All(|b.msgs|), c)
    ensures a == c
  {
    forall id | id in a ensures a[id] == c[id] {
      if id in Ids(b.msgs) {
        var m :| m in b.msgs && m.id == id;
        var i :| 0 <= i < |b.msgs| && b.msgs[i] == m;
      }
    }
  }

  lemma {:induction false} ClaimStartsBatch(cfg: Config, s: P.State, worker: nat, b: Batch, at: real)
    requires b.Good() && Ids(b.msgs) <= EnqueuedIds(s.rows) && ClaimedFrom(s.rows, b.msgs, at)
    requires forall i :: 0 <= i < |b.msgs| ==> b.keys[i] == KeyOf(s, b.msgs[i].id)
    requires s.now <= at && b.Ahead(at, 0)
    ensures var leg := ClaimLeg(worker, Ids(b.msgs), at);
            var claimed := ClaimRows(s.rows, Ids(b.msgs), at);
            && P.Valid(cfg, s, leg) && P.Final(cfg, s, leg).rows == claimed
            && ClaimedBatch(claimed, b.msgs)
            && Midway(cfg, claimed, b, 0, P.Final(cfg, s, leg))
  {
    IdsInRange(b.msgs);
    ClaimLegClaims(cfg, s, worker, Ids(b.msgs), at);
    var claimed := ClaimRows(s.rows, Ids(b.msgs), at);
    NothingRecorded(cfg, claimed, b.msgs, b.results, b.render, b.us);
  }

  lemma {:induction false} BatchRuns(
    cfg: Config, s: P.State, worker: nat, b: Batch, at: real) returns (run: seq<P.Step>)
    requires b.Good() && Ids(b.msgs) <= EnqueuedIds(s.rows) && ClaimedFrom(s.rows, b.msgs, at)
    requires forall i :: 0 <= i < |b.msgs| ==> b.keys[i] == KeyOf(s, b.msgs[i].id)
    requires s.now <= at && b.Ahead(at, 0)
    ensures P.Valid(cfg, s, run)
    ensures Recorded(cfg, s.rows, b.msgs, b.results, b.render, b.us, All(|b.msgs|), P.Final(cfg, s, run).rows)
  {
    var claim := ClaimLeg(worker, Ids(b.msgs), at);
    var claimed := ClaimRows(s.rows, Ids(b.msgs), at);
    ClaimStartsBatch(cfg, s, worker, b, at);
    var s1 := P.Final(cfg, s, claim);
    var middle := ResultsAreARun(cfg, claimed, b, 0, s1);
    var s2 := P.Final(cfg, s1, middle);
    LastLegIsARun(cfg, claimed, b, s2);
    run := claim + (middle + LastLeg(b));
    ThreeLegs(cfg, s, claim, middle, LastLeg(b));
    BatchUpdateCompletes(cfg, s.rows, claimed, b.msgs, b.results, b.render, b.us, s2.rows, P.Final(cfg, s, run).rows);
  }

  /**
   BatchDispatcher.processBatch is a run of the protocol: whatever table its contract allows is reached by claiming the
   batch, publishing it, recording each failure and then all successes at once.
   */
  lemma {:induction false} BatchIsARun(cfg: Config, s: P.State, worker: nat, b: Batch, at: real, t': Table)
    returns (run: seq<P.Step>)
    requires b.Good() && Ids(b.msgs) <= EnqueuedIds(s.rows) && ClaimedFrom(s.rows, b.msgs, at)
    requires forall i :: 0 <= i < |b.msgs| ==> b.keys[i] == KeyOf(s, b.msgs[i].id)
    requires s.now <= at && b.Ahead(at, 0)
    requires Recorded(cfg, s.rows, b.msgs, b.results, b.render, b.us, All(|b.msgs|), t')
    ensures P.Valid(cfg, s, run) && P.Final(cfg, s, run).rows == t'
  {
    run := BatchRuns(cfg, s, worker, b, at);
    RecordedIsUnique(cfg, s.rows, b, P.Final(cfg, s, run).rows, t');
  }

  // ---------- the methods themselves ----------

  /** What ProcessOne does to the repository is a run of the protocol from any state with that table. */
  method ProcessOneAsRun(
    repo: OutboxRepository, ghost s: P.State, ghost worker: nat, claimAt: real, sendError: Option<Error>,
    render: Error -> string, u: Update) returns (msg: Option<Outbox>, ghost run: seq<P.Step>)
    requires s.rows == repo.rows && s.now <= claimAt <= u.now && Jitter(u.jitter)
    modifies repo`rows
    ensures P.Valid(repo.cfg, s, run) && P.Final(repo.cfg, s, run).rows == repo.rows
  {
    msg := ProcessOne(repo, claimAt, sendError, render, u);
    run := [];
    if msg.Some? {
      ghost var job := Job(msg.value.id, Publish(msg.value, sendError), claimAt, u);
      JobIsARun(repo.cfg, s, worker, job, render);
      run := JobRun(s, worker, job, render);
    }
  }

  /** Outcomes are recorded in order, the successes last, and not before the batch is claimed. */
  ghost predicate InOrder(us: Updates, claimAt: real, limit: nat)
  {
    && claimAt <= us.successes.now
    && (forall i: nat :: i < limit ==>
          Jitter(us.failure(i).jitter) && claimAt <= us.failure(i).now <= us.successes.now)
    && (forall i: nat, j: nat :: i < j < limit ==> us.failure(i).now <= us.failure(j).now)
  }

  function KeysOf(s: P.State, msgs: seq<Outbox>): (keys: seq<P.ClaimKey>)
    ensures |keys| == |msgs| && forall i :: 0 <= i < |msgs| ==> keys[i] == KeyOf(s, msgs[i].id)
  {
    seq(|msgs|, i requires 0 <= i < |msgs| => KeyOf(s, msgs[i].id))
  }

  lemma {:induction false} BatchIsGood(t: Table, b: Batch, limit: nat, claimAt: real, target: Target)
    requires |b.results| == |b.msgs| == |b.keys| <= limit && InOrder(b.us, claimAt, limit)
    requires ClaimedFrom(t, b.msgs, claimAt)
    requires forall i :: 0 <= i < |b.keys| ==> b.keys[i].0 == b.msgs[i].id
    requires forall i, j :: 0 <= i < j < |b.msgs| ==> b.msgs[i].id != b.msgs[j].id
    requires forall i :: 0 <= i < |b.msgs| ==> Positional(b.msgs[i], target.ReplyFor(b.msgs[i]), b.results[i])
    ensures b.Good() && b.Ahead(claimAt, 0)
  {
  }

  lemma {:induction false} ProcessedBatchIsARun(
    cfg: Config, s: P.State, worker: nat, limit: nat, claimAt: real, target: Target, msgs: seq<Outbox>,
    results: seq<PublishResult>, render: Error -> string, us: Updates, t': Table) returns (run: seq<P.Step>)
    requires s.now <= claimAt && InOrder(us, claimAt, limit)
    requires Ids(msgs) <= EnqueuedIds(s.rows) && |Ids(msgs)| <= limit && ClaimedFrom(s.rows, msgs, claimAt)
    requires forall i, j :: 0 <= i < j < |msgs| ==> msgs[i].id != msgs[j].id
    requires |results| == |msgs|
    requires forall i :: 0 <= i < |msgs| ==> Positional(msgs[i], target.ReplyFor(msgs[i]), results[i])
    requires Recorded(cfg, s.rows, msgs, results, render, us, All(|msgs|), t')
    ensures P.Valid(cfg, s, run) && P.Final(cfg, s, run).rows == t'
  {
    IdsSize(msgs);
    var b := Batch(msgs, results, KeysOf(s, msgs), render, us);
    BatchIsGood(s.rows, b, limit, claimAt, target);
    run := BatchIsARun(cfg, s, worker, b, claimAt, t');
  }

  /** So is what ProcessBatch does, to one queue or many. */
  method ProcessBatchAsRun(
    repo: OutboxRepository, ghost s: P.State, ghost worker: nat, limit: nat, claimAt: real, target: Target,
    render: Error -> string, us: Updates)
    returns (msgs: seq<Outbox>, results: seq<PublishResult>, successes: nat, failures: nat, ghost run: seq<P.Step>)
    requires s.rows == repo.rows && s.now <= claimAt && InOrder(us, claimAt, limit)
    modifies repo`rows
    ensures successes + failures == |msgs|
    ensures P.Valid(repo.cfg, s, run) && P.Final(repo.cfg, s, run).rows == repo.rows
  {
    msgs, results, successes, failures := ProcessBatch(repo, limit, claimAt, target, render, us);
    run := ProcessedBatchIsARun(
      repo.cfg, s, worker, limit, claimAt, target, msgs, results, render, us, repo.rows);
  }
}
