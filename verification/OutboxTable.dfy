/**
 The outbox table and the SQL statements that change it.

 A statement of contrib/pgx/repo.go is a function from table to table, taken at one instant `now` of the
 database clock. `SET` expressions read the row as it was before the statement. Where PostgreSQL draws
 `0.5 + random() * 0.5`, the model takes the drawn value as a parameter. A Go string or byte slice is a `string`
 with one character per byte.
 */
module OutboxTable {
  import opened Prelude

  type Id = string

  datatype Status = Enqueued | Publishing | Published | Failed | Dead {
    predicate Terminal() { Published? || Dead? }
  }

  datatype Row = Row(
    eventType: string,
    payload: string,
    metadata: string,
    idempotencyKey: string,
    status: Status,
    errorMessage: Option<string>,
    attemptCount: nat,
    maxAttempts: nat,
    nextRetryAt: Option<real>,
    createdAt: real,
    updatedAt: real)
  {
    /** The message would reach its limit if this attempt failed. */
    predicate WillExceedMaxAttemptsAfterFailure() { attemptCount + 1 >= maxAttempts }
  }

  type Table = map<Id, Row>

  /** A row together with its id, as a worker receives it. */
  datatype Outbox = Outbox(id: Id, row: Row)

  datatype Config = Config(backoffBase: real, backoffMax: real, stuckThreshold: real)

  datatype InsertParams = InsertParams(
    eventType: string, payload: string, metadata: string, idempotencyKey: string, maxAttempts: nat)

  // ---------- one row ----------

  function NewRow(p: InsertParams, now: real): Row
  {
    Row(p.eventType, p.payload, p.metadata, p.idempotencyKey, Enqueued, None, 1, p.maxAttempts, None, now, now)
  }

  function CappedBackoff(cfg: Config, n: nat): real
  {
    MinReal(cfg.backoffBase * Pow2(n) as real, cfg.backoffMax)
  }

  predicate Jitter(j: real) { 0.5 <= j < 1.0 }

  function RetryDelay(cfg: Config, n: nat, jitter: real): real
  {
    Times(CappedBackoff(cfg, n), jitter)
  }

  function ToPublishing(r: Row, now: real): Row
  {
    r.(status := Publishing, updatedAt := now)
  }

  function ToPublished(r: Row, now: real): Row
  {
    r.(status := Published, updatedAt := now)
  }

  function ToFailed(cfg: Config, r: Row, message: string, now: real, jitter: real): Row
  {
    r.(status := Failed,
       errorMessage := Some(message),
       attemptCount := r.attemptCount + 1,
       nextRetryAt := Some(now + RetryDelay(cfg, r.attemptCount, jitter)),
       updatedAt := now)
  }

  function ToDead(r: Row, message: string, now: real): Row
  {
    r.(status := Dead,
       errorMessage := Some(message),
       attemptCount := Min(r.attemptCount + 1, r.maxAttempts),
       updatedAt := now)
  }

  predicate Requeueable(r: Row, now: real)
  {
    r.status.Failed? && r.attemptCount < r.maxAttempts && r.nextRetryAt.Some? && r.nextRetryAt.value <= now
  }

  function ToEnqueued(r: Row, now: real): Row
  {
    r.(status := Enqueued, updatedAt := now)
  }

  /** `int64(d.Seconds())`: whole seconds, rounded toward zero. */
  function WholeSeconds(d: real): (w: int)
    ensures if d >= 0.0 then w as real <= d < w as real + 1.0 else w as real - 1.0 < d <= w as real
  {
    if d >= 0.0 then d.Floor else -(-d).Floor
  }

  predicate Stuck(cfg: Config, r: Row, now: real)
  {
    r.status.Publishing? && r.updatedAt < now - WholeSeconds(cfg.stuckThreshold) as real
  }

  const REVIVED_DEAD := "revived from PUBLISHING (crash recovery) - max attempts reached"
  const REVIVED_FAILED := "revived from PUBLISHING (crash recovery)"

  function Revived(cfg: Config, r: Row, now: real, jitter: real): Row
  {
    if r.attemptCount + 1 >= r.maxAttempts then
      r.(status := Dead,
         errorMessage := Some(REVIVED_DEAD),
         attemptCount := Min(r.attemptCount + 1, r.maxAttempts),
         nextRetryAt := None,
         updatedAt := now)
    else
      r.(status := Failed,
         errorMessage := Some(REVIVED_FAILED),
         attemptCount := r.attemptCount + 1,
         nextRetryAt := Some(now + RetryDelay(cfg, r.attemptCount, jitter)),
         updatedAt := now)
  }

  predicate Expired(r: Row, statuses: set<Status>, olderThan: real, now: real)
  {
    r.status in statuses && r.updatedAt < now - olderThan
  }

  // ---------- whole statements ----------

  function EnqueuedIds(t: Table): (ids: set<Id>)
  {
    set id | id in t && t[id].status.Enqueued?
  }

  /** Some row already carries this (event_type, idempotency_key) pair. */
  predicate Duplicate(t: Table, p: InsertParams)
  {
    exists id :: id in t && t[id].eventType == p.eventType && t[id].idempotencyKey == p.idempotencyKey
  }

  function ClaimRows(t: Table, ids: set<Id>, now: real): Table
  {
    map id | id in t :: if id in ids then ToPublishing(t[id], now) else t[id]
  }

  function MarkPublished(t: Table, ids: set<Id>, now: real): Table
  {
    map id | id in t :: if id in ids && t[id].status.Publishing? then ToPublished(t[id], now) else t[id]
  }

  function MarkFailed(cfg: Config, t: Table, id: Id, message: string, now: real, jitter: real): Table
  {
    if id in t && t[id].status.Publishing? then t[id := ToFailed(cfg, t[id], message, now, jitter)] else t
  }

  function MarkDead(t: Table, id: Id, message: string, now: real): Table
  {
    if id in t && t[id].status.Publishing? then t[id := ToDead(t[id], message, now)] else t
  }

  function RequeueFailed(t: Table, now: real): Table
  {
    map id | id in t :: if Requeueable(t[id], now) then ToEnqueued(t[id], now) else t[id]
  }

  function ReviveStuck(cfg: Config, t: Table, now: real, jitter: map<Id, real>): Table
    requires t.Keys <= jitter.Keys
  {
    map id | id in t :: if Stuck(cfg, t[id], now) then Revived(cfg, t[id], now, jitter[id]) else t[id]
  }

  function DeleteExpired(t: Table, statuses: set<Status>, olderThan: real, now: real): Table
  {
    map id | id in t && !Expired(t[id], statuses, olderThan, now) :: t[id]
  }

  // ---------- which rows a claim takes ----------

  /** `WHERE status = 'ENQUEUED' ORDER BY created_at ASC LIMIT n`; ties may fall either way. */
  ghost predicate Oldest(t: Table, ids: set<Id>, n: nat)
  {
    && ids <= EnqueuedIds(t)
    && |ids| == Min(n, |EnqueuedIds(t)|)
    && forall a, b :: a in ids && b in EnqueuedIds(t) - ids ==> t[a].createdAt <= t[b].createdAt
  }
}
