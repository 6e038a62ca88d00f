/**
 Workers over the repository: one message at a time (Worker.processOne) and a whole batch
 (BatchDispatcher.processBatch). Publisher replies, clock readings, jitter and database failures are parameters.
 */
module Dispatcher {
  import opened Prelude
  import opened OutboxTable
  import opened Errors
  import opened Publisher
  import opened Repository
  import MultiQueue
  import Truncation

  /** The circumstances of recording one outcome: clock, jitter, and whether the database takes the update. */
  datatype Update = Update(now: real, jitter: real, dbUp: bool)

  predicate GivesUp(r: Row, e: Error)
  {
    !IsRetryable(Some(e)) || r.WillExceedMaxAttemptsAfterFailure()
  }

  /** What becomes of a freshly claimed row, given the outcome of its publish. */
  function Disposed(cfg: Config, r: Row, outcome: Option<Error>, render: Error -> string, u: Update): Row
  {
    if !u.dbUp then r
    else match outcome
      case None => ToPublished(r, u.now)
      case Some(e) =>
        var message := Truncation.Truncated(render(e));
        if GivesUp(r, e) then ToDead(r, message, u.now) else ToFailed(cfg, r, message, u.now, u.jitter)
  }

  /**
   What a claimed row has come to, seen from outside: PUBLISHED if the message was taken; otherwise DEAD if it may not
   be retried or that was its last attempt, and FAILED with one attempt more if not. The stored error fits its column.
   */
  predicate Settled(claimed: Row, taken: bool, mayRetry: bool, r: Row)
  {
    if taken then
      r.status.Published? && r.attemptCount == claimed.attemptCount
    else
      && r.errorMessage.Some? && |r.errorMessage.value| <= 4000
      && if !mayRetry || claimed.attemptCount + 1 >= claimed.maxAttempts then r.status.Dead?
         else r.status.Failed? && r.attemptCount == claimed.attemptCount + 1 && r.nextRetryAt.Some?
  }

  lemma {:induction false} DisposedIsSettled(
    cfg: Config, r: Row, outcome: Option<Error>, render: Error -> string, u: Update)
    requires u.dbUp
    ensures Settled(r, outcome.None?, IsRetryable(outcome), Disposed(cfg, r, outcome, render, u))
  {
  }

  /** The failure branch on a table where the row may have moved on since it was claimed. */
  function RecordFailure(cfg: Config, t: Table, msg: Outbox, e: Error, render: Error -> string, u: Update): Table
  {
    var message := Truncation.Truncated(render(e));
    if !u.dbUp then t
    else if GivesUp(msg.row, e) then MarkDead(t, msg.id, message, u.now)
    else MarkFailed(cfg, t, msg.id, message, u.now, u.jitter)
  }

  /** `render` stands for the error's text after redaction. */
  method HandlePublishFailure(repo: OutboxRepository, msg: Outbox, e: Error, render: Error -> string, u: Update)
    modifies repo`rows
    ensures repo.rows == RecordFailure(repo.cfg, old(repo.rows), msg, e, render, u)
    ensures msg.id in old(repo.rows) && old(repo.rows)[msg.id] == msg.row && msg.row.status.Publishing? ==>
              repo.rows == old(repo.rows)[msg.id := Disposed(repo.cfg, msg.row, Some(e), render, u)]
    ensures !(msg.id in old(repo.rows) && old(repo.rows)[msg.id].status.Publishing?) ==> repo.rows == old(repo.rows)
    ensures u.dbUp && msg.id in old(repo.rows) && old(repo.rows)[msg.id].status.Publishing? ==>
              repo.rows[msg.id].errorMessage == Some(Truncation.Truncated(render(e)))
  {
    var message := Truncation.TruncateErrorMessage(render(e));
    if u.dbUp {
      if !IsRetryable(Some(e)) || msg.row.WillExceedMaxAttemptsAfterFailure() {
        var _ := repo.UpdateToDead(msg.id, message, u.now);
      } else {
        var _ := repo.UpdateToFailed(msg.id, message, u.now, u.jitter);
      }
    }
  }

  /** Publisher.Publish: the size check, then the SendMessage call whose error, if any, is `sendError`. */
  function Publish(m: Outbox, sendError: Option<Error>): Option<Error>
  {
    if !Fits(m) then Some(OversizeError())
    else match sendError
      case None => None
      case Some(e) => Some(Wrapped("sqs publish failed", e))
  }

  /** A publish succeeds iff the message is small enough and the call succeeds; it fails with the call's own verdict. */
  lemma {:induction false} PublishVerdict(m: Outbox, sendError: Option<Error>)
    ensures Publish(m, sendError).None? <==> Small(m) && sendError.None?
    ensures Publish(m, sendError).Some? ==>
              IsRetryable(Publish(m, sendError)) == (Small(m) && IsRetryable(sendError))
  {
    if sendError.Some? { WrappingKeepsVerdict([Text("sqs publish failed")], sendError.value); }
  }

  /** What recording an outcome does to a table in which the row may have moved on since it was claimed. */
  function Recording(
    cfg: Config, t: Table, msg: Outbox, outcome: Option<Error>, render: Error -> string, u: Update): Table
  {
    match outcome
    case None => if u.dbUp then MarkPublished(t, {msg.id}, u.now) else t
    case Some(e) => RecordFailure(cfg, t, msg, e, render, u)
  }

  /** The second half of processOne: whatever happened to the row meanwhile, only its own PUBLISHING row is touched. */
  method RecordOutcome(
    repo: OutboxRepository, msg: Outbox, outcome: Option<Error>, render: Error -> string, u: Update)
    modifies repo`rows
    ensures repo.rows == Recording(repo.cfg, old(repo.rows), msg, outcome, render, u)
    ensures OnlyTouches(old(repo.rows), repo.rows, InFlight(old(repo.rows), {msg.id}))
    ensures msg.id in old(repo.rows) && old(repo.rows)[msg.id] == msg.row && msg.row.status.Publishing? ==>
              repo.rows == old(repo.rows)[msg.id := Disposed(repo.cfg, msg.row, outcome, render, u)]
  {
    if outcome.Some? {
      HandlePublishFailure(repo, msg, outcome.value, render, u);
    } else if u.dbUp {
      var _ := repo.UpdateToPublished(msg.id, u.now);
    }
  }

  method ProcessOne(
    repo: OutboxRepository, claimAt: real, sendError: Option<Error>, render: Error -> string, u: Update)
    returns (msg: Option<Outbox>)
    modifies repo`rows
    ensures msg.None? <==> EnqueuedIds(old(repo.rows)) == {}
    ensures msg.None? ==> repo.rows == old(repo.rows)
    ensures msg.Some? ==>
              var id := msg.value.id;
              && Oldest(old(repo.rows), {id}, 1)
              && msg.value.row == ToPublishing(old(repo.rows)[id], claimAt)
              && repo.rows == old(repo.rows)[id :=
                   Disposed(repo.cfg, msg.value.row, Publish(msg.value, sendError), render, u)]
              && (u.dbUp ==>
                    Settled(msg.value.row, Small(msg.value) && sendError.None?,
                      Small(msg.value) && IsRetryable(sendError), repo.rows[id]))
  {
    var before := repo.rows;
    msg := repo.FetchAndLockToPublishing(claimAt);
    if msg.Some? {
      var m := msg.value;
      assert repo.rows == before[m.id := m.row];
      PublishVerdict(m, sendError);
      RecordOutcome(repo, m, Publish(m, sendError), render, u);
      if u.dbUp { DisposedIsSettled(repo.cfg, m.row, Publish(m, sendError), render, u); }
    }
  }

  function OutcomeOf(r: PublishResult): Option<Error>
  {
    if r.success then None else r.error
  }

  /** How the outcomes of a batch get recorded: each failure in its own update, all successes in one. */
  datatype Updates = Updates(failure: nat -> Update, successes: Update) {
    function At(r: PublishResult, i: nat): Update { if r.success then successes else failure(i) }
  }

  /** `t` is `claimed` with the messages at the positions `done` disposed of by their own results. */
  ghost predicate Recorded(
    cfg: Config, claimed: Table, msgs: seq<Outbox>, results: seq<PublishResult>, render: Error -> string,
    us: Updates, done: set<nat>, t: Table)
    requires |results| == |msgs|
  {
    && OnlyTouches(claimed, t, Ids(msgs))
    && forall i: nat :: i < |msgs| ==>
         RecordedAt(cfg, msgs[i], results[i], render, us.At(results[i], i), i in done, t)
  }

  /** The message's row is as claimed until it is done, and then disposed of by its result. */
  predicate RecordedAt(
    cfg: Config, m: Outbox, r: PublishResult, render: Error -> string, u: Update, done: bool, t: Table)
  {
    m.id in t && t[m.id] == if done then Disposed(cfg, m.row, OutcomeOf(r), render, u) else m.row
  }

  function FailedBelow(results: seq<PublishResult>, n: nat): set<nat>
    requires n <= |results|
  {
    set i: nat | i < n && !results[i].success
  }

  /** The failures among the first `n` results have been recorded, and nothing else. */
  ghost predicate Through(
    cfg: Config, claimed: Table, msgs: seq<Outbox>, results: seq<PublishResult>, render: Error -> string,
    us: Updates, n: nat, t: Table)
  {
    n <= |results| == |msgs| && Recorded(cfg, claimed, msgs, results, render, us, FailedBelow(results, n), t)
  }

  function All(n: nat): (s: set<nat>)
    ensures forall i: nat :: i in s <==> i < n
  {
    if n == 0 then {} else All(n - 1) + {n - 1}
  }

  /** Ids of the successful messages before position `n`, in order. */
  function SuccessesBelow(msgs: seq<Outbox>, results: seq<PublishResult>, n: nat): seq<Id>
    requires n <= |results| == |msgs|
  {
    if n == 0 then []
    else if results[n - 1].success then SuccessesBelow(msgs, results, n - 1) + [msgs[n - 1].id]
    else SuccessesBelow(msgs, results, n - 1)
  }

  lemma {:induction false} SuccessesMeaning(msgs: seq<Outbox>, results: seq<PublishResult>, n: nat, x: Id)
    requires n <= |results| == |msgs|
    ensures x in SuccessesBelow(msgs, results, n) <==> exists i :: 0 <= i < n && results[i].success && msgs[i].id == x
  {
    if n == 0 {
    } else {
      SuccessesMeaning(msgs, results, n - 1, x);
    }
  }

  /** The batch as it comes back from the claim: distinct ids, each row in PUBLISHING as handed out. */
  ghost predicate ClaimedBatch(t: Table, msgs: seq<Outbox>)
  {
    && (forall i, j :: 0 <= i < j < |msgs| ==> msgs[i].id != msgs[j].id)
    && (forall i :: 0 <= i < |msgs| ==>
          msgs[i].id in t && t[msgs[i].id] == msgs[i].row && msgs[i].row.status.Publishing?)
  }

  predicate FailuresHaveErrors(results: seq<PublishResult>)
  {
    forall i :: 0 <= i < |results| && !results[i].success ==> results[i].error.Some?
  }

  /** The result loop of processBatch: failures are recorded one by one, successes are collected. */
  method RecordResults(
    repo: OutboxRepository, msgs: seq<Outbox>, results: seq<PublishResult>, render: Error -> string, us: Updates)
    returns (successIds: seq<Id>, failures: nat)
    requires |results| == |msgs| && FailuresHaveErrors(results) && ClaimedBatch(repo.rows, msgs)
    modifies repo`rows
    ensures Through(repo.cfg, old(repo.rows), msgs, results, render, us, |msgs|, repo.rows)
    ensures |successIds| + failures == |msgs|
    ensures successIds == SuccessesBelow(msgs, results, |msgs|)
  {
    ghost var claimed := repo.rows;
    successIds, failures := [], 0;
    NothingRecorded(repo.cfg, claimed, msgs, results, render, us);
    for i := 0 to |results|
      invariant Through(repo.cfg, claimed, msgs, results, render, us, i, repo.rows)
      invariant |successIds| + failures == i
      invariant successIds == SuccessesBelow(msgs, results, i)
    {
      if results[i].success {
        SuccessStaysRecorded(repo.cfg, claimed, msgs, results, render, us, i, repo.rows);
        successIds := successIds + [msgs[i].id];
      } else {
        failures := failures + 1;
        RecordOne(repo, claimed, msgs, results, render, us, i);
      }
    }
  }

  lemma {:induction false} SuccessNeedsNoUpdate(results: seq<PublishResult>, i: nat)
    requires i < |results| && results[i].success
    ensures FailedBelow(results, i + 1) == FailedBelow(results, i)
  {
  }

  lemma {:induction false} FailureNeedsUpdate(results: seq<PublishResult>, i: nat)
    requires i < |results| && !results[i].success
    ensures FailedBelow(results, i + 1) == FailedBelow(results, i) + {i}
  {
  }

  lemma {:induction false} SuccessStaysRecorded(
    cfg: Config, claimed: Table, msgs: seq<Outbox>, results: seq<PublishResult>, render: Error -> string, us: Updates,
    i: nat, t: Table)
    requires i < |results| == |msgs| && results[i].success
    requires Through(cfg, claimed, msgs, results, render, us, i, t)
    ensures Through(cfg, claimed, msgs, results, render, us, i + 1, t)
  {
    SuccessNeedsNoUpdate(results, i);
  }

  lemma {:induction false} NothingRecorded(
    cfg: Config, claimed: Table, msgs: seq<Outbox>, results: seq<PublishResult>, render: Error -> string, us: Updates)
    requires |results| == |msgs| && ClaimedBatch(claimed, msgs)
    ensures Through(cfg, claimed, msgs, results, render, us, 0, claimed)
  {
  }

  method RecordOne(
    repo: OutboxRepository, ghost claimed: Table, msgs: seq<Outbox>, results: seq<PublishResult>,
    render: Error -> string, us: Updates, i: nat)
    requires |results| == |msgs| && ClaimedBatch(claimed, msgs)
    requires i < |msgs| && !results[i].success && results[i].error.Some?
    requires Through(repo.cfg, claimed, msgs, results, render, us, i, repo.rows)
    modifies repo`rows
    ensures Through(repo.cfg, claimed, msgs, results, render, us, i + 1, repo.rows)
  {
    ghost var t := repo.rows;
    assert i !in FailedBelow(results, i) && t[msgs[i].id] == msgs[i].row;
    HandlePublishFailure(repo, msgs[i], results[i].error.value, render, us.failure(i));
    OneMoreRecorded(repo.cfg, claimed, msgs, results, render, us, i, t, repo.rows);
  }

  lemma {:induction false} OneMoreRecorded(
    cfg: Config, claimed: Table, msgs: seq<Outbox>, results: seq<PublishResult>, render: Error -> string,
    us: Updates, i: nat, t: Table, t': Table)
    requires |results| == |msgs| && ClaimedBatch(claimed, msgs) && i < |msgs| && !results[i].success
    requires Through(cfg, claimed, msgs, results, render, us, i, t)
    requires t' == t[msgs[i].id := Disposed(cfg, msgs[i].row, OutcomeOf(results[i]), render, us.failure(i))]
    ensures Through(cfg, claimed, msgs, results, render, us, i + 1, t')
  {
    FailureNeedsUpdate(results, i);
    IdsInRange(msgs);
    assert OnlyTouches(claimed, t', Ids(msgs));
    forall k: nat | k < |msgs|
      ensures RecordedAt(cfg, msgs[k], results[k], render, us.At(results[k], k), k in FailedBelow(results, i + 1), t')
    {
      assert RecordedAt(cfg, msgs[k], results[k], render, us.At(results[k], k), k in FailedBelow(results, i), t);
    }
  }

  /** Where a batch publisher sends: one queue, or one queue per event type with each queue's own reply. */
  datatype Target =
    | OneQueue(queueURL: string, reply: Reply)
    | ManyQueues(route: string -> string, replies: string -> Reply)
  {
    /** The reply a message's result comes from. */
    function ReplyFor(m: Outbox): Reply
    {
      match this
      case OneQueue(_, reply) => reply
      case ManyQueues(route, replies) => replies(route(m.row.eventType))
    }
  }

  /** BatchPublisher.PublishBatch or MultiBatchPublisher.PublishBatch. */
  method PublishTo(target: Target, msgs: seq<Outbox>) returns (results: seq<PublishResult>)
    ensures |results| == |msgs| && FailuresHaveErrors(results)
    ensures forall i :: 0 <= i < |msgs| ==> Positional(msgs[i], target.ReplyFor(msgs[i]), results[i])
  {
    match target
    case OneQueue(queueURL, reply) =>
      var entries;
      results, entries := PublishBatch(queueURL, msgs, reply);
    case ManyQueues(route, replies) =>
      var calls;
      results, calls := MultiQueue.PublishBatch(msgs, route, replies);
  }

  /** What claiming a batch leaves behind, seen from the table before the claim. */
  ghost predicate Claimed(before: Table, msgs: seq<Outbox>, claimAt: real, t: Table)
  {
    && ClaimedBatch(t, msgs)
    && OnlyTouches(before, t, Ids(msgs))
    && forall i :: 0 <= i < |msgs| ==> msgs[i].id in before && msgs[i].row == ToPublishing(before[msgs[i].id], claimAt)
  }

  method ClaimBatch(repo: OutboxRepository, limit: nat, claimAt: real) returns (msgs: seq<Outbox>)
    modifies repo`rows
    ensures Oldest(old(repo.rows), Ids(msgs), limit)
    ensures Claimed(old(repo.rows), msgs, claimAt, repo.rows)
  {
    msgs := repo.FetchLockAndMarkPublishing(limit, claimAt);
    IdsInRange(msgs);
  }

  /** The second half of processBatch: the result loop, then one update for all successes. */
  method RecordBatch(
    repo: OutboxRepository, ghost before: Table, ghost claimAt: real, msgs: seq<Outbox>, results: seq<PublishResult>,
    render: Error -> string, us: Updates) returns (successes: nat, failures: nat)
    requires |results| == |msgs| && FailuresHaveErrors(results) && Claimed(before, msgs, claimAt, repo.rows)
    modifies repo`rows
    ensures successes + failures == |msgs|
    ensures Recorded(repo.cfg, before, msgs, results, render, us, All(|msgs|), repo.rows)
  {
    ghost var claimed := repo.rows;
    var successIds;
    successIds, failures := RecordResults(repo, msgs, results, render, us);
    successes := |successIds|;
    ghost var recorded := repo.rows;
    if successIds != [] && us.successes.dbUp {
      var _ := repo.UpdateBatchToPublished(successIds, us.successes.now);
    }
    BatchUpdateCompletes(repo.cfg, before, claimed, msgs, results, render, us, recorded, repo.rows);
  }

  /**
   Every claimed message gets exactly one disposition, by its own result; nothing else in the table changes, and
   successes and failures add up to the batch.
   */
  method ProcessBatch(
    repo: OutboxRepository, limit: nat, claimAt: real, target: Target, render: Error -> string, us: Updates)
    returns (msgs: seq<Outbox>, results: seq<PublishResult>, successes: nat, failures: nat)
    modifies repo`rows
    ensures Oldest(old(repo.rows), Ids(msgs), limit)
    ensures forall i, j :: 0 <= i < j < |msgs| ==> msgs[i].id != msgs[j].id
    ensures forall i :: 0 <= i < |msgs| ==>
              msgs[i].id in old(repo.rows) && msgs[i].row == ToPublishing(old(repo.rows)[msgs[i].id], claimAt)
    ensures |results| == |msgs| && successes + failures == |msgs|
    ensures forall i :: 0 <= i < |msgs| ==> Positional(msgs[i], target.ReplyFor(msgs[i]), results[i])
    ensures Recorded(repo.cfg, old(repo.rows), msgs, results, render, us, All(|msgs|), repo.rows)
    ensures forall i :: 0 <= i < |msgs| && us.At(results[i], i).dbUp ==>
              msgs[i].id in repo.rows && SettledBy(msgs[i], target.ReplyFor(msgs[i]), repo.rows[msgs[i].id])
  {
    ghost var before := repo.rows;
    msgs := ClaimBatch(repo, limit, claimAt);
    results := PublishTo(target, msgs);
    successes, failures := RecordBatch(repo, before, claimAt, msgs, results, render, us);
    forall i: nat | i < |msgs| && us.At(results[i], i).dbUp
      ensures msgs[i].id in repo.rows && SettledBy(msgs[i], target.ReplyFor(msgs[i]), repo.rows[msgs[i].id])
    {
      assert RecordedAt(repo.cfg, msgs[i], results[i], render, us.At(results[i], i), i in All(|msgs|), repo.rows);
      ResultSettles(repo.cfg, msgs[i], target.ReplyFor(msgs[i]), results[i], render, us.At(results[i], i));
    }
  }

  /** The row has come to what the broker's reply says about its message. */
  predicate SettledBy(m: Outbox, reply: Reply, r: Row)
  {
    Settled(m.row, Taken(m, reply), MayRetry(m, reply), r)
  }

  lemma {:induction false} ResultSettles(
    cfg: Config, m: Outbox, reply: Reply, result: PublishResult, render: Error -> string, u: Update)
    requires Positional(m, reply, result) && u.dbUp
    ensures SettledBy(m, reply, Disposed(cfg, m.row, OutcomeOf(result), render, u))
  {
    DisposedIsSettled(cfg, m.row, OutcomeOf(result), render, u);
  }

  lemma {:induction false} IdsInRange(msgs: seq<Outbox>)
    ensures forall i :: 0 <= i < |msgs| ==> msgs[i].id in Ids(msgs)
  {
    forall i | 0 <= i < |msgs| ensures msgs[i].id in Ids(msgs) { assert msgs[i] in msgs; }
  }

  /** After the batch update, each message's row is the disposition of its own result. */
  lemma {:induction false} BatchUpdateDisposes(
    cfg: Config, claimed: Table, msgs: seq<Outbox>, results: seq<PublishResult>, render: Error -> string,
    us: Updates, recorded: Table, t: Table, i: nat)
    requires |results| == |msgs| && ClaimedBatch(claimed, msgs) && i < |msgs|
    requires Through(cfg, claimed, msgs, results, render, us, |msgs|, recorded)
    requires var ids := SuccessesBelow(msgs, results, |msgs|);
             t == if ids != [] && us.successes.dbUp
                  then MarkPublished(recorded, Elements(ids), us.successes.now) else recorded
    ensures RecordedAt(cfg, msgs[i], results[i], render, us.At(results[i], i), true, t)
  {
    var ids, id := SuccessesBelow(msgs, results, |msgs|), msgs[i].id;
    SuccessesMeaning(msgs, results, |msgs|, id);
    assert i in FailedBelow(results, |msgs|) <==> !results[i].success;
    assert RecordedAt(cfg, msgs[i], results[i], render, us.At(results[i], i), !results[i].success, recorded);
    assert id in ids <==> results[i].success;
    assert id in Elements(ids) <==> id in ids;
  }

  lemma {:induction false} BatchUpdateTouches(
    before: Table, claimed: Table, msgs: seq<Outbox>, results: seq<PublishResult>, now: real, recorded: Table)
    requires |results| == |msgs|
    requires OnlyTouches(before, claimed, Ids(msgs)) && OnlyTouches(claimed, recorded, Ids(msgs))
    ensures OnlyTouches(before, recorded, Ids(msgs))
    ensures OnlyTouches(
              before, MarkPublished(recorded, Elements(SuccessesBelow(msgs, results, |msgs|)), now), Ids(msgs))
  {
    IdsInRange(msgs);
    forall x | x in SuccessesBelow(msgs, results, |msgs|) ensures x in Ids(msgs) {
      SuccessesMeaning(msgs, results, |msgs|, x);
    }
  }

  lemma {:induction false} BatchUpdateCompletes(
    cfg: Config, before: Table, claimed: Table, msgs: seq<Outbox>, results: seq<PublishResult>, render: Error -> string,
    us: Updates, recorded: Table, t: Table)
    requires |results| == |msgs| && ClaimedBatch(claimed, msgs)
    requires OnlyTouches(before, claimed, Ids(msgs))
    requires Through(cfg, claimed, msgs, results, render, us, |msgs|, recorded)
    requires var ids := SuccessesBelow(msgs, results, |msgs|);
             t == if ids != [] && us.successes.dbUp
                  then MarkPublished(recorded, Elements(ids), us.successes.now) else recorded
    ensures Recorded(cfg, before, msgs, results, render, us, All(|msgs|), t)
  {
    BatchUpdateTouches(before, claimed, msgs, results, us.successes.now, recorded);
    forall i: nat | i < |msgs|
      ensures RecordedAt(cfg, msgs[i], results[i], render, us.At(results[i], i), i in All(|msgs|), t)
    {
      BatchUpdateDisposes(cfg, claimed, msgs, results, render, us, recorded, t, i);
    }
  }
}
