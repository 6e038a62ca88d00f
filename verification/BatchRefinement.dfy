/**
 A batch does to the table what a single-message worker would do with the same messages and outcomes, one after
 the other: same statuses, same attempt counts, same stored errors. Only clock readings and jitter differ.
 */
module BatchRefinement {
  import opened Prelude
  import opened OutboxTable
  import opened Errors
  import opened Publisher
  import opened Repository
  import opened Dispatcher
  import opened ClaimOrder

  predicate SameButTimes(a: Row, b: Row)
  {
    b == a.(nextRetryAt := b.nextRetryAt, updatedAt := b.updatedAt)
  }

  /** One message with the outcome of its publish, when it is claimed and how its outcome is recorded. */
  datatype Job = Job(id: Id, outcome: Option<Error>, claimAt: real, update: Update)

  /** The table after Worker.processOne has handled this job (the contract of ProcessOne). */
  function Alone(cfg: Config, t: Table, job: Job, render: Error -> string): Table
    requires job.id in t
  {
    t[job.id := Disposed(cfg, ToPublishing(t[job.id], job.claimAt), job.outcome, render, job.update)]
  }

  /** Each job is the oldest ENQUEUED message when its turn comes. */
  predicate Serial(cfg: Config, t: Table, jobs: seq<Job>, render: Error -> string)
    decreases |jobs|
  {
    jobs == [] || (IsOldest(t, jobs[0].id) && Serial(cfg, Alone(cfg, t, jobs[0], render), jobs[1..], render))
  }

  function OneByOne(cfg: Config, t: Table, jobs: seq<Job>, render: Error -> string): Table
    requires Serial(cfg, t, jobs, render)
    decreases |jobs|
  {
    if jobs == [] then t else OneByOne(cfg, Alone(cfg, t, jobs[0], render), jobs[1..], render)
  }

  function JobIds(jobs: seq<Job>): (ids: seq<Id>)
    ensures |ids| == |jobs| && forall i :: 0 <= i < |jobs| ==> ids[i] == jobs[i].id
  {
    seq(|jobs|, i requires 0 <= i < |jobs| => jobs[i].id)
  }

  // ---------- the same messages are picked ----------

  /** The tables agree on what a claim looks at. */
  ghost predicate Alike(t: Table, t': Table)
  {
    && t.Keys == t'.Keys
    && forall id :: id in t ==> t[id].createdAt == t'[id].createdAt && t[id].status.Enqueued? == t'[id].status.Enqueued?
  }

  lemma {:induction false} AlikeClaims(t: Table, t': Table, p: Id)
    requires Alike(t, t')
    ensures EnqueuedIds(t) == EnqueuedIds(t') && (IsOldest(t, p) <==> IsOldest(t', p))
  {
    assert EnqueuedIds(t) == EnqueuedIds(t');
  }

  lemma {:induction false} AloneIsAlike(cfg: Config, t: Table, t': Table, job: Job, render: Error -> string, now: real)
    requires Alike(t, t') && job.id in t
    ensures Alike(Alone(cfg, t, job, render), ClaimRows(t', {job.id}, now))
  {
  }

  /** Processing each message before claiming the next picks the same messages as claiming them all first. */
  lemma {:induction false} SerialIffSuccessive(
    cfg: Config, t: Table, t': Table, jobs: seq<Job>, render: Error -> string, now: real)
    requires Alike(t, t')
    ensures Serial(cfg, t, jobs, render) <==> Successive(t', JobIds(jobs), now)
    decreases |jobs|
  {
    if jobs == [] {
    } else {
      AlikeClaims(t, t', jobs[0].id);
      if IsOldest(t, jobs[0].id) {
        AloneIsAlike(cfg, t, t', jobs[0], render, now);
        SerialIffSuccessive(
          cfg, Alone(cfg, t, jobs[0], render), ClaimRows(t', {jobs[0].id}, now), jobs[1..], render, now);
        assert JobIds(jobs)[1..] == JobIds(jobs[1..]);
      }
    }
  }

  // ---------- the same rows result ----------

  lemma {:induction false} SerialIsPointwise(cfg: Config, t: Table, jobs: seq<Job>, render: Error -> string)
    requires Serial(cfg, t, jobs, render) && Distinct(JobIds(jobs))
    ensures OneByOne(cfg, t, jobs, render).Keys == t.Keys
    ensures forall id :: id in t && id !in JobIds(jobs) ==> OneByOne(cfg, t, jobs, render)[id] == t[id]
    ensures forall i :: 0 <= i < |jobs| ==>
              && jobs[i].id in t
              && OneByOne(cfg, t, jobs, render)[jobs[i].id] ==
                   Disposed(cfg, ToPublishing(t[jobs[i].id], jobs[i].claimAt), jobs[i].outcome, render, jobs[i].update)
    decreases |jobs|
  {
    if jobs == [] {
    } else {
      var t' := Alone(cfg, t, jobs[0], render);
      var ids := JobIds(jobs);
      assert JobIds(jobs[1..]) == ids[1..];
      SerialIsPointwise(cfg, t', jobs[1..], render);
      assert ids[0] !in ids[1..];
      forall i | 1 <= i < |jobs| ensures jobs[i].id in t' && jobs[i].id != jobs[0].id && jobs[i] == jobs[1..][i - 1] {
        assert ids[i] in ids[1..];
      }
    }
  }

  lemma {:induction false} TimesDoNotMatter(
    cfg: Config, r: Row, a: real, b: real, outcome: Option<Error>, render: Error -> string, u: Update, v: Update)
    requires u.dbUp == v.dbUp
    ensures SameButTimes(
              Disposed(cfg, ToPublishing(r, a), outcome, render, u),
              Disposed(cfg, ToPublishing(r, b), outcome, render, v))
  {
  }

  /**
   The batch and the jobs, in whatever order, are the same messages with the same outcomes, recorded or lost alike.
   */
  ghost predicate Matches(jobs: seq<Job>, msgs: seq<Outbox>, results: seq<PublishResult>, us: Updates)
  {
    && |msgs| == |results|
    && Elements(JobIds(jobs)) == Ids(msgs)
    && forall i: nat, j: nat :: i < |jobs| && j < |msgs| && jobs[i].id == msgs[j].id ==>
         jobs[i].outcome == OutcomeOf(results[j]) && jobs[i].update.dbUp == us.At(results[j], j).dbUp
  }

  ghost predicate ClaimedFrom(t: Table, msgs: seq<Outbox>, claimAt: real)
  {
    forall j: nat :: j < |msgs| ==> msgs[j].id in t && msgs[j].row == ToPublishing(t[msgs[j].id], claimAt)
  }

  lemma {:induction false} SameRow(
    cfg: Config, t: Table, jobs: seq<Job>, msgs: seq<Outbox>, results: seq<PublishResult>, render: Error -> string,
    us: Updates, claimAt: real, single: Table, t': Table, id: Id)
    requires Matches(jobs, msgs, results, us) && ClaimedFrom(t, msgs, claimAt)
    requires Recorded(cfg, t, msgs, results, render, us, All(|msgs|), t')
    requires single.Keys == t.Keys && id in t'
    requires id !in JobIds(jobs) ==> single[id] == t[id]
    requires forall i :: 0 <= i < |jobs| ==>
               jobs[i].id in t && single[jobs[i].id] ==
                 Disposed(cfg, ToPublishing(t[jobs[i].id], jobs[i].claimAt), jobs[i].outcome, render, jobs[i].update)
    ensures SameButTimes(single[id], t'[id])
  {
    assert id in JobIds(jobs) <==> id in Ids(msgs);
    if id in JobIds(jobs) {
      var i :| 0 <= i < |jobs| && JobIds(jobs)[i] == id;
      var m :| m in msgs && m.id == id;
      var j :| 0 <= j < |msgs| && msgs[j] == m;
      assert jobs[i].id == msgs[j].id;
      TimesDoNotMatter(
        cfg, t[id], jobs[i].claimAt, claimAt, jobs[i].outcome, render, jobs[i].update, us.At(results[j], j));
    }
  }

  /**
   Whatever ProcessBatch leaves behind (its contract, `Recorded`), a single-message worker handling the same messages
   with the same outcomes at any other times leaves behind too; and what that worker picks is a legal batch claim.
   */
  lemma {:induction false} BatchRefinesSingle(
    cfg: Config, t: Table, jobs: seq<Job>, msgs: seq<Outbox>, results: seq<PublishResult>, render: Error -> string,
    us: Updates, claimAt: real, t': Table, n: nat)
    requires Serial(cfg, t, jobs, render) && |jobs| == Min(n, |EnqueuedIds(t)|)
    requires Matches(jobs, msgs, results, us) && ClaimedFrom(t, msgs, claimAt)
    requires Recorded(cfg, t, msgs, results, render, us, All(|msgs|), t')
    ensures Oldest(t, Elements(JobIds(jobs)), n)
    ensures OneByOne(cfg, t, jobs, render).Keys == t'.Keys
    ensures forall id :: id in t' ==>
              var r := OneByOne(cfg, t, jobs, render)[id];
              t'[id] == r.(nextRetryAt := t'[id].nextRetryAt, updatedAt := t'[id].updatedAt)
  {
    SerialIffSuccessive(cfg, t, t, jobs, render, claimAt);
    SuccessiveClaimsAreABatch(t, JobIds(jobs), n, claimAt);
    SerialIsPointwise(cfg, t, jobs, render);
    forall id | id in t' ensures SameButTimes(OneByOne(cfg, t, jobs, render)[id], t'[id]) {
      SameRow(cfg, t, jobs, msgs, results, render, us, claimAt, OneByOne(cfg, t, jobs, render), t', id);
    }
  }

  function PositionOf(msgs: seq<Outbox>, id: Id): (j: nat)
    requires id in Ids(msgs)
    ensures j < |msgs| && msgs[j].id == id
  {
    if msgs[0].id == id then 0
    else
      assert forall m :: m in msgs <==> m == msgs[0] || m in msgs[1..];
      1 + PositionOf(msgs[1..], id)
  }

  /** The jobs of a batch, in the order `picks`. */
  function JobsFor(
    picks: seq<Id>, msgs: seq<Outbox>, results: seq<PublishResult>, us: Updates, claimAt: real): (jobs: seq<Job>)
    requires |msgs| == |results| && forall i :: 0 <= i < |picks| ==> picks[i] in Ids(msgs)
    ensures |jobs| == |picks| && JobIds(jobs) == picks
    ensures forall i :: 0 <= i < |picks| ==>
              var j := PositionOf(msgs, picks[i]);
              jobs[i] == Job(picks[i], OutcomeOf(results[j]), claimAt, us.At(results[j], j))
  {
    seq(|picks|, i requires 0 <= i < |picks| =>
      var j := PositionOf(msgs, picks[i]);
      Job(picks[i], OutcomeOf(results[j]), claimAt, us.At(results[j], j)))
  }

  /** Conversely, every batch is matched by some oldest-first run of a single-message worker. */
  lemma {:induction false} EveryBatchHasASerialRun(
    cfg: Config, t: Table, msgs: seq<Outbox>, results: seq<PublishResult>, render: Error -> string, us: Updates,
    claimAt: real, n: nat) returns (jobs: seq<Job>)
    requires |msgs| == |results| && Oldest(t, Ids(msgs), n)
    requires forall i, j :: 0 <= i < j < |msgs| ==> msgs[i].id != msgs[j].id
    ensures Serial(cfg, t, jobs, render) && |jobs| == Min(n, |EnqueuedIds(t)|) && Matches(jobs, msgs, results, us)
  {
    var picks := BatchIsSuccessiveClaims(t, Ids(msgs), n, claimAt);
    forall i | 0 <= i < |picks| ensures picks[i] in Ids(msgs) { assert picks[i] in Elements(picks); }
    jobs := JobsFor(picks, msgs, results, us, claimAt);
    SerialIffSuccessive(cfg, t, t, jobs, render, claimAt);
    forall i: nat, j: nat | i < |jobs| && j < |msgs| && jobs[i].id == msgs[j].id
      ensures jobs[i].outcome == OutcomeOf(results[j]) && jobs[i].update.dbUp == us.At(results[j], j).dbUp
    {
      assert PositionOf(msgs, picks[i]) == j;
    }
  }

  // ---------- oversized payloads ----------

  /**
   A message over the size limit is DEAD after its first claim, however many attempts it has left and whatever the
   broker answers, in a batch or alone, as long as the database takes the update.
   */
  lemma {:induction false} OversizeIsDeadAtOnce(
    cfg: Config, m: Outbox, sendError: Option<Error>, reply: Reply, r: PublishResult, render: Error -> string,
    u: Update)
    requires !Fits(m) && u.dbUp && Positional(m, reply, r)
    ensures Disposed(cfg, m.row, Publish(m, sendError), render, u).status.Dead?
    ensures Disposed(cfg, m.row, OutcomeOf(r), render, u).status.Dead?
  {
    assert !IsRetryable(Some(OversizeError()));
  }
}
