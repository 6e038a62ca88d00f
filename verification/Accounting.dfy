/**
 What every reachable state of the outbox protocol satisfies, whatever the interleaving: exact attempt accounting,
 truthful terminal statuses, conservation of committed events, and a bound on how often a row can change.
 */
module Accounting {
  import opened Prelude
  import opened OutboxTable
  import opened Protocol
  import Publisher

  /** How `attempt_count` relates to the number `n` of times the row has been claimed. */
  predicate Counted(r: Row, n: nat)
  {
    && 1 <= r.maxAttempts
    && 1 <= r.attemptCount <= r.maxAttempts
    && n <= Max(1, r.maxAttempts - 1)
    && match r.status
       case Enqueued => r.attemptCount == n + 1 && (n == 0 || r.attemptCount < r.maxAttempts)
       case Publishing => r.attemptCount == n && (n == 1 || r.attemptCount < r.maxAttempts)
       case Failed => n >= 1 && r.attemptCount == n + 1 && r.nextRetryAt.Some?
       case Published => r.attemptCount == n
       case Dead => n >= 1 && r.attemptCount == Min(n + 1, r.maxAttempts)
  }

  /** PUBLISHED was accepted by the broker; DEAD was refused for good or used up its attempts. */
  predicate Truthful(s: State, id: Id)
    requires id in s.rows
  {
    && (s.rows[id].status.Published? ==> id in s.accepted)
    && (s.rows[id].status.Dead? ==>
          id in s.dead && (id in s.refused || s.rows[id].attemptCount == s.rows[id].maxAttempts))
  }

  /** What was inserted never changes. */
  predicate Carries(r: Row, p: InsertParams)
  {
    && r.eventType == p.eventType && r.payload == p.payload && r.metadata == p.metadata
    && r.idempotencyKey == p.idempotencyKey && r.maxAttempts == p.maxAttempts
  }

  predicate RowInv(s: State, id: Id)
  {
    id in s.rows ==>
      && id in s.committed && Carries(s.rows[id], s.committed[id])
      && Counted(s.rows[id], |History(s, id)|) && Truthful(s, id)
  }

  /** No event is claimed more often than its budget allows, even counting claims of rows since deleted. */
  predicate WithinBudget(s: State, id: Id)
  {
    id in s.committed ==> |History(s, id)| <= Max(1, s.committed[id].maxAttempts - 1)
  }

  /** A committed event is still on its way, has been given up as DEAD, or has reached the broker. */
  predicate Conserved(s: State, id: Id)
  {
    id in s.committed ==> (id in s.rows && !s.rows[id].status.Terminal()) || id in s.dead || id in s.accepted
  }

  /** A live claim is some past claim of its row; the snapshot is the row as it was then, stamped with that instant. */
  predicate ClaimInv(s: State, k: ClaimKey)
    requires k in s.claims
  {
    var c := s.claims[k];
    && k.0 in s.committed
    && 1 <= k.1 <= |History(s, k.0)|
    && c.snapshot.attemptCount == k.1
    && c.snapshot.updatedAt == History(s, k.0)[k.1 - 1]
    && c.snapshot.status.Publishing?
    && Carries(c.snapshot, s.committed[k.0])
    && (c.outcome.Delivered? ==> k.0 in s.accepted)
    && (c.outcome == Rejected(false) ==> k.0 in s.refused)
    && (!Fits(k.0, c.snapshot) ==> c.outcome.Pending? || c.outcome == Rejected(false))
  }

  /** UNIQUE (event_type, idempotency_key). */
  predicate UniqueKeys(t: Table)
  {
    forall a, b ::
      a in t && b in t && t[a].eventType == t[b].eventType && t[a].idempotencyKey == t[b].idempotencyKey ==> a == b
  }

  /** What was inserted is small enough to be sent: at most 256 KiB. */
  predicate Sendable(p: InsertParams) { |p.payload| <= 256 * 1024 }

  /** The broker only ever gets committed events it can take. */
  predicate AcceptedOk(s: State)
  {
    forall id :: id in s.accepted ==> id in s.committed && Sendable(s.committed[id])
  }

  ghost predicate Inv(s: State)
  {
    && AcceptedOk(s)
    && s.history.Keys == s.committed.Keys
    && (forall id :: RowInv(s, id))
    && (forall id :: Conserved(s, id) && WithinBudget(s, id))
    && (forall k :: k in s.claims ==> ClaimInv(s, k))
    && UniqueKeys(s.rows)
  }

  /** The part of the invariant that decides what a step does to one row. */
  ghost predicate Local(s: State, step: Step, id: Id)
  {
    && s.history.Keys == s.committed.Keys
    && RowInv(s, id) && Conserved(s, id) && WithinBudget(s, id)
    && (step.ResolveFailure? ==> step.key in s.claims && ClaimInv(s, step.key))
    && (step.ResolvePublished? ==> forall k :: k in step.keys ==> k in s.claims && ClaimInv(s, k))
  }

  lemma {:induction false} InvIsLocal(s: State, step: Step, id: Id)
    requires Inv(s) && Enabled(s, step)
    ensures Local(s, step, id)
  {
  }

  lemma {:induction false} StepKeepsContent(cfg: Config, s: State, step: Step, id: Id)
    requires Enabled(s, step) && Local(s, step, id)
    requires id in Apply(cfg, s, step).rows
    ensures id in Apply(cfg, s, step).committed &&
            Carries(Apply(cfg, s, step).rows[id], Apply(cfg, s, step).committed[id])
  {
  }

  lemma {:induction false} ClaimKeepsCount(cfg: Config, s: State, step: Step, id: Id)
    requires Enabled(s, step) && Local(s, step, id) && step.ClaimSome?
    requires id in Apply(cfg, s, step).rows
    ensures Counted(Apply(cfg, s, step).rows[id], |History(Apply(cfg, s, step), id)|)
  {
  }

  lemma {:induction false} FailureKeepsCount(cfg: Config, s: State, step: Step, id: Id)
    requires Enabled(s, step) && Local(s, step, id) && step.ResolveFailure?
    requires id in Apply(cfg, s, step).rows
    ensures Counted(Apply(cfg, s, step).rows[id], |History(Apply(cfg, s, step), id)|)
  {
  }

  lemma {:induction false} SweepKeepsCount(cfg: Config, s: State, step: Step, id: Id)
    requires Enabled(s, step) && Local(s, step, id) && (step.Requeue? || step.Revive? || step.Clean?)
    requires id in Apply(cfg, s, step).rows
    ensures Counted(Apply(cfg, s, step).rows[id], |History(Apply(cfg, s, step), id)|)
  {
  }

  lemma {:induction false} SuccessKeepsCount(cfg: Config, s: State, step: Step, id: Id)
    requires Enabled(s, step) && Local(s, step, id) && step.ResolvePublished?
    requires id in Apply(cfg, s, step).rows
    ensures Counted(Apply(cfg, s, step).rows[id], |History(Apply(cfg, s, step), id)|)
  {
  }

  lemma {:induction false} OtherwiseKeepsCount(cfg: Config, s: State, step: Step, id: Id)
    requires Enabled(s, step) && Local(s, step, id)
    requires step.Tick? || step.Insert? || step.Publish? || step.Abandon?
    requires id in Apply(cfg, s, step).rows
    ensures Counted(Apply(cfg, s, step).rows[id], |History(Apply(cfg, s, step), id)|)
  {
  }

  lemma {:induction false} StepKeepsCount(cfg: Config, s: State, step: Step, id: Id)
    requires Enabled(s, step) && Local(s, step, id)
    requires id in Apply(cfg, s, step).rows
    ensures Counted(Apply(cfg, s, step).rows[id], |History(Apply(cfg, s, step), id)|)
  {
    match step
    case ClaimSome(_, _) => ClaimKeepsCount(cfg, s, step, id);
    case ResolveFailure(_, _, _) => FailureKeepsCount(cfg, s, step, id);
    case Requeue => SweepKeepsCount(cfg, s, step, id);
    case Revive(_) => SweepKeepsCount(cfg, s, step, id);
    case Clean(_, _) => SweepKeepsCount(cfg, s, step, id);
    case ResolvePublished(_) => SuccessKeepsCount(cfg, s, step, id);
    case _ => OtherwiseKeepsCount(cfg, s, step, id);
  }

  lemma {:induction false} StepKeepsTruth(cfg: Config, s: State, step: Step, id: Id)
    requires Enabled(s, step) && Local(s, step, id)
    requires id in Apply(cfg, s, step).rows
    ensures Truthful(Apply(cfg, s, step), id)
  {
    if step.ResolveFailure? || step.Revive? { DeathIsTruthful(cfg, s, step, id); }
  }

  lemma {:induction false} DeathIsTruthful(cfg: Config, s: State, step: Step, id: Id)
    requires Enabled(s, step) && Local(s, step, id) && (step.ResolveFailure? || step.Revive?)
    requires id in Apply(cfg, s, step).rows
    ensures Truthful(Apply(cfg, s, step), id)
  {
  }

  lemma {:induction false} StepConserves(cfg: Config, s: State, step: Step, id: Id)
    requires Enabled(s, step) && Local(s, step, id)
    ensures Conserved(Apply(cfg, s, step), id) && WithinBudget(Apply(cfg, s, step), id)
  {
    StepKeepsBudget(cfg, s, step, id);
  }

  lemma {:induction false} StepKeepsBudget(cfg: Config, s: State, step: Step, id: Id)
    requires Enabled(s, step) && Local(s, step, id)
    ensures WithinBudget(Apply(cfg, s, step), id)
  {
  }

  /** What the record knows only grows. */
  lemma {:induction false} RecordGrows(cfg: Config, s: State, step: Step, id: Id)
    requires s.history.Keys == s.committed.Keys && Enabled(s, step) && id in s.committed
    ensures var s' := Apply(cfg, s, step);
            && id in s'.committed && s'.committed[id] == s.committed[id]
            && History(s, id) <= History(s', id)
            && (id in s.accepted ==> id in s'.accepted) && (id in s.refused ==> id in s'.refused)
  {
  }

  /** Exactly when an id enters each part of the record. */
  lemma {:induction false} RecordMoves(cfg: Config, s: State, step: Step, id: Id)
    requires Inv(s) && Enabled(s, step)
    ensures var s' := Apply(cfg, s, step);
            && (id in s'.accepted <==> id in s.accepted || (step.Publish? && step.sent && step.key.0 == id))
            && (id in s'.refused <==>
                  id in s.refused || (step.Publish? && step.outcome == Rejected(false) && step.key.0 == id))
  {
  }

  lemma {:induction false} DeathIsRecorded(cfg: Config, s: State, step: Step, id: Id)
    requires Inv(s) && Enabled(s, step)
    ensures var s' := Apply(cfg, s, step);
            id in s'.dead <==> id in s.dead || (id in s'.rows && s'.rows[id].status.Dead?)
  {
    assert RowInv(s, id);
  }

  /** An insert is committed if and only if no row carries its event type and key. */
  lemma {:induction false} InsertCommitsIff(cfg: Config, s: State, step: Step, id: Id)
    requires Enabled(s, step) && id !in s.committed
    ensures id in Apply(cfg, s, step).committed <==>
              && step.Insert? && step.id == id
              && var p := step.params;
                 forall o :: o in s.rows ==>
                   !(s.rows[o].eventType == p.eventType && s.rows[o].idempotencyKey == p.idempotencyKey)
  {
  }

  /** A row keeps its creation time, and every change is stamped with its own instant. */
  lemma {:induction false} ChangeIsStamped(cfg: Config, s: State, step: Step, id: Id)
    requires Enabled(s, step) && s.rows.Keys <= s.committed.Keys && id in Apply(cfg, s, step).rows
    ensures var r := Apply(cfg, s, step).rows[id];
            if id in s.rows then r.createdAt == s.rows[id].createdAt && (r == s.rows[id] || r.updatedAt == s.now)
            else r.createdAt == s.now && r.updatedAt == s.now
  {
  }

  /** The stored error and the retry time change only when a row leaves PUBLISHING for FAILED or DEAD. */
  lemma {:induction false} ColumnsStay(cfg: Config, s: State, step: Step, id: Id)
    requires Enabled(s, step) && s.rows.Keys <= s.committed.Keys && id in s.rows && id in Apply(cfg, s, step).rows
    ensures var r, r' := s.rows[id], Apply(cfg, s, step).rows[id];
            r'.errorMessage != r.errorMessage || r'.nextRetryAt != r.nextRetryAt ==>
              r.status.Publishing? && (r'.status.Failed? || r'.status.Dead?)
  {
  }

  /** The cleaner deletes exactly the rows with a listed status last changed longer ago than it is told. */
  lemma {:induction false} CleanDeletesIff(cfg: Config, s: State, step: Step, id: Id)
    requires Enabled(s, step) && step.Clean?
    ensures id in Apply(cfg, s, step).rows <==>
              id in s.rows && !(s.rows[id].status in step.statuses && s.now - s.rows[id].updatedAt > step.olderThan)
  {
  }

  /** The step resolves or abandons this claim. */
  predicate Ends(step: Step, k: ClaimKey)
  {
    match step
    case ResolvePublished(keys) => k in keys
    case ResolveFailure(key, _, _) => k == key
    case Abandon(keys) => k in keys
    case _ => false
  }

  /** A claim lives from the statement that makes it to the step that ends it. */
  lemma {:induction false} ClaimLives(cfg: Config, s: State, step: Step, k: ClaimKey)
    requires Enabled(s, step)
    ensures k in Apply(cfg, s, step).claims <==>
              || (k in s.claims && !Ends(step, k))
              || (step.ClaimSome? && k.0 in step.ids && k.1 == |History(s, k.0)| + 1)
  {
  }

  /** A step makes new claims, reports on one, or at most ends some. */
  lemma {:induction false} ClaimsShrink(cfg: Config, s: State, step: Step, k: ClaimKey)
    requires Enabled(s, step) && !step.ClaimSome? && !step.Publish?
    requires k in Apply(cfg, s, step).claims
    ensures k in s.claims && Apply(cfg, s, step).claims[k] == s.claims[k]
  {
  }

  lemma {:induction false} NewClaimOk(cfg: Config, s: State, step: Step, k: ClaimKey)
    requires Enabled(s, step) && step.ClaimSome?
    requires s.history.Keys == s.committed.Keys && RowInv(s, k.0)
    requires k in NewClaims(s, step.worker, step.ids)
    ensures ClaimInv(Apply(cfg, s, step), k)
  {
  }

  lemma {:induction false} StepKeepsClaim(cfg: Config, s: State, step: Step, k: ClaimKey)
    requires Inv(s) && Enabled(s, step)
    requires k in Apply(cfg, s, step).claims
    ensures ClaimInv(Apply(cfg, s, step), k)
  {
    if step.ClaimSome? && k in NewClaims(s, step.worker, step.ids) {
      assert RowInv(s, k.0);
      NewClaimOk(cfg, s, step, k);
    } else {
      OldClaimOk(cfg, s, step, k);
    }
  }

  lemma {:induction false} OldClaimOk(cfg: Config, s: State, step: Step, k: ClaimKey)
    requires s.history.Keys == s.committed.Keys && Enabled(s, step)
    requires k in s.claims ==> ClaimInv(s, k)
    requires step.ClaimSome? ==> k !in NewClaims(s, step.worker, step.ids)
    requires k in Apply(cfg, s, step).claims
    ensures ClaimInv(Apply(cfg, s, step), k)
  {
    if !step.ClaimSome? && !step.Publish? { ClaimsShrink(cfg, s, step, k); }
    RecordGrows(cfg, s, step, k.0);
  }

  /** A row keeps its key for as long as it exists, and comes only from an insert. */
  lemma {:induction false} KeyStays(cfg: Config, s: State, step: Step, id: Id)
    requires Enabled(s, step)
    requires id in Apply(cfg, s, step).rows
    ensures var r := Apply(cfg, s, step).rows[id];
            if id in s.rows && s.rows.Keys <= s.committed.Keys then
              r.eventType == s.rows[id].eventType && r.idempotencyKey == s.rows[id].idempotencyKey
            else
              || id in s.rows
              || (&& step.Insert? && step.id == id
                  && r == NewRow(step.params, s.now) && !Duplicate(s.rows, step.params))
  {
  }

  lemma {:induction false} StepKeepsKeys(cfg: Config, s: State, step: Step)
    requires s.rows.Keys <= s.committed.Keys && UniqueKeys(s.rows) && Enabled(s, step)
    ensures UniqueKeys(Apply(cfg, s, step).rows)
  {
    var t := Apply(cfg, s, step).rows;
    forall a, b | a in t && b in t && t[a].eventType == t[b].eventType && t[a].idempotencyKey == t[b].idempotencyKey
      ensures a == b
    {
      KeyStays(cfg, s, step, a);
      KeyStays(cfg, s, step, b);
    }
  }

  lemma {:induction false} StepKeepsAcceptedOk(cfg: Config, s: State, step: Step)
    requires AcceptedOk(s) && Enabled(s, step)
    requires step.Publish? ==> ClaimInv(s, step.key)
    ensures AcceptedOk(Apply(cfg, s, step))
  {
  }

  lemma {:induction false} StepKeepsHistory(cfg: Config, s: State, step: Step)
    requires s.history.Keys == s.committed.Keys && Enabled(s, step)
    ensures Apply(cfg, s, step).history.Keys == Apply(cfg, s, step).committed.Keys
  {
  }

  lemma {:induction false} StepKeepsInv(cfg: Config, s: State, step: Step)
    requires Inv(s) && Enabled(s, step)
    ensures Inv(Apply(cfg, s, step))
  {
    var s' := Apply(cfg, s, step);
    KeysCommitted(s);
    StepKeepsKeys(cfg, s, step);
    StepKeepsHistory(cfg, s, step);
    StepKeepsAcceptedOk(cfg, s, step);
    forall id ensures RowInv(s', id) && Conserved(s', id) && WithinBudget(s', id) {
      InvIsLocal(s, step, id);
      StepConserves(cfg, s, step, id);
      if id in s'.rows {
        StepKeepsContent(cfg, s, step, id);
        StepKeepsCount(cfg, s, step, id);
        StepKeepsTruth(cfg, s, step, id);
      }
    }
    forall k | k in s'.claims ensures ClaimInv(s', k) { StepKeepsClaim(cfg, s, step, k); }
  }

  /** The whole of `Inv` holds after every run from the empty table. */
  lemma {:induction false} RunKeepsInv(cfg: Config, s: State, run: seq<Step>)
    requires Inv(s) && Valid(cfg, s, run)
    ensures Inv(Final(cfg, s, run))
    decreases |run|
  {
    if run == [] {
    } else {
      StepKeepsInv(cfg, s, run[0]);
      RunKeepsInv(cfg, Apply(cfg, s, run[0]), run[1..]);
    }
  }

  // ---------- termination ----------

  function Rank(status: Status): nat
  {
    match status
    case Failed => 3
    case Enqueued => 2
    case Publishing => 1
    case Published => 0
    case Dead => 0
  }

  function Potential(r: Row): int
  {
    4 * (r.maxAttempts - r.attemptCount) + Rank(r.status)
  }

  /** The arrows of the status diagram, with what each does to attempt_count. DEAD is entered only from PUBLISHING. */
  predicate Arrow(r: Row, r': Row)
  {
    && r'.maxAttempts == r.maxAttempts
    && match r.status
       case Enqueued => r'.status.Publishing? && r'.attemptCount == r.attemptCount
       case Publishing =>
         || (r'.status.Published? && r'.attemptCount == r.attemptCount)
         || (r'.status.Failed? && r'.attemptCount == r.attemptCount + 1)
         || (r'.status.Dead? && r'.attemptCount == Min(r.attemptCount + 1, r.maxAttempts))
       case Failed => r'.status.Enqueued? && r'.attemptCount == r.attemptCount < r.maxAttempts
       case Published => false
       case Dead => false
  }

  /** A step leaves a row alone, takes it along one arrow of the diagram, or deletes it once it is terminal. */
  lemma {:induction false} StepFollowsDiagram(cfg: Config, s: State, step: Step, id: Id)
    requires Enabled(s, step) && id in s.rows
    requires s.rows.Keys <= s.committed.Keys
    ensures var s' := Apply(cfg, s, step);
            if id in s'.rows then s'.rows[id] == s.rows[id] || Arrow(s.rows[id], s'.rows[id])
            else s.rows[id].status.Terminal() && id in s'.committed
  {
    match step
    case ResolveFailure(key, _, _) =>
    case _ =>
  }

  /** Every change strictly lowers the potential. */
  lemma {:induction false} StepLowersPotential(cfg: Config, s: State, step: Step, id: Id)
    requires Inv(s) && Enabled(s, step)
    requires id in s.rows && id in Apply(cfg, s, step).rows
    ensures Apply(cfg, s, step).rows[id].maxAttempts == s.rows[id].maxAttempts
    ensures Apply(cfg, s, step).rows[id] == s.rows[id] ||
            Potential(Apply(cfg, s, step).rows[id]) < Potential(s.rows[id])
  {
    KeysCommitted(s);
    StepFollowsDiagram(cfg, s, step, id);
    var r := s.rows[id];
    assert RowInv(s, id);
    assert r.attemptCount <= r.maxAttempts;
  }

  lemma {:induction false} KeysCommitted(s: State)
    requires Inv(s)
    ensures s.rows.Keys <= s.committed.Keys
  {
    forall id | id in s.rows ensures id in s.committed { assert RowInv(s, id); }
  }

  /** How many steps of the run change the row `id`. */
  function Changes(cfg: Config, s: State, run: seq<Step>, id: Id): (n: nat)
    requires Valid(cfg, s, run)
    decreases |run|
  {
    if run == [] then 0
    else
      var s' := Apply(cfg, s, run[0]);
      (if id in s.rows && id in s'.rows && s'.rows[id] != s.rows[id] then 1 else 0) + Changes(cfg, s', run[1..], id)
  }

  lemma {:induction false} StepKeepsDeleted(cfg: Config, s: State, step: Step, id: Id)
    requires Enabled(s, step) && id in s.committed && id !in s.rows
    ensures id in Apply(cfg, s, step).committed && id !in Apply(cfg, s, step).rows
  {
  }

  /** A row that has been deleted never comes back, so nothing about it changes again. */
  lemma {:induction false} DeletedStaysDeleted(cfg: Config, s: State, run: seq<Step>, id: Id)
    requires Inv(s) && Valid(cfg, s, run)
    requires id in s.committed && id !in s.rows
    ensures id !in Final(cfg, s, run).rows
    ensures Changes(cfg, s, run, id) == 0
    decreases |run|
  {
    if run == [] {
    } else {
      StepKeepsInv(cfg, s, run[0]);
      StepKeepsDeleted(cfg, s, run[0], id);
      DeletedStaysDeleted(cfg, Apply(cfg, s, run[0]), run[1..], id);
    }
  }

  /** From any point on, a row changes at most `Potential` many times. */
  lemma {:induction false} ChangesBounded(cfg: Config, s: State, run: seq<Step>, id: Id)
    requires Inv(s) && Valid(cfg, s, run)
    requires id in s.rows
    ensures Changes(cfg, s, run, id) <= Potential(s.rows[id])
    ensures id in Final(cfg, s, run).rows ==>
              && Final(cfg, s, run).rows[id].maxAttempts == s.rows[id].maxAttempts
              && Changes(cfg, s, run, id) + Potential(Final(cfg, s, run).rows[id]) <= Potential(s.rows[id])
    decreases |run|
  {
    assert RowInv(s, id);
    if run == [] {
    } else {
      var s' := Apply(cfg, s, run[0]);
      StepKeepsInv(cfg, s, run[0]);
      KeysCommitted(s);
      StepFollowsDiagram(cfg, s, run[0], id);
      if id in s'.rows {
        StepLowersPotential(cfg, s, run[0], id);
        ChangesBounded(cfg, s', run[1..], id);
      } else {
        DeletedStaysDeleted(cfg, s', run[1..], id);
      }
    }
  }

  lemma {:induction false} CommittedStays(cfg: Config, s: State, run: seq<Step>, id: Id)
    requires Valid(cfg, s, run) && id in s.committed
    ensures id in Final(cfg, s, run).committed && Final(cfg, s, run).committed[id] == s.committed[id]
    decreases |run|
  {
    if run == [] {
    } else {
      CommittedStays(cfg, Apply(cfg, s, run[0]), run[1..], id);
    }
  }

  /** An id that enters the record does so as the fresh row of its insert. */
  lemma {:induction false} CommitInserts(cfg: Config, s: State, step: Step, id: Id)
    requires Enabled(s, step)
    requires id !in s.committed && id in Apply(cfg, s, step).committed
    ensures var s' := Apply(cfg, s, step);
            id in s'.rows && s'.rows[id] == NewRow(s'.committed[id], s.now)
  {
  }

  /** Over its whole life, deleted or not, an event's row changes at most 4 * (max_attempts - 1) + 2 times. */
  lemma {:induction false} LifetimeChangesBounded(cfg: Config, s: State, run: seq<Step>, id: Id)
    requires Inv(s) && Valid(cfg, s, run)
    requires id !in s.committed && id in Final(cfg, s, run).committed
    ensures Changes(cfg, s, run, id) <= 4 * (Final(cfg, s, run).committed[id].maxAttempts - 1) + 2
    decreases |run|
  {
    var s' := Apply(cfg, s, run[0]);
    KeysCommitted(s);
    StepKeepsInv(cfg, s, run[0]);
    if id in s'.committed {
      CommitInserts(cfg, s, run[0], id);
      CommittedStays(cfg, s', run[1..], id);
      ChangesBounded(cfg, s', run[1..], id);
    } else {
      LifetimeChangesBounded(cfg, s', run[1..], id);
    }
  }

  /** PUBLISHED and DEAD rows never change again; they can only be deleted. */
  lemma {:induction false} TerminalIsAbsorbing(cfg: Config, s: State, run: seq<Step>, id: Id)
    requires Inv(s) && Valid(cfg, s, run)
    requires id in s.rows && s.rows[id].status.Terminal()
    ensures id in Final(cfg, s, run).rows ==> Final(cfg, s, run).rows[id] == s.rows[id]
    decreases |run|
  {
    if run == [] {
    } else {
      var s' := Apply(cfg, s, run[0]);
      StepKeepsInv(cfg, s, run[0]);
      KeysCommitted(s);
      StepFollowsDiagram(cfg, s, run[0], id);
      if id in s'.rows {
        TerminalIsAbsorbing(cfg, s', run[1..], id);
      } else {
        DeletedStaysDeleted(cfg, s', run[1..], id);
      }
    }
  }

  // ---------- the guarantees of every run from an empty table ----------

  /**
   A PUBLISHING row has been claimed exactly attempt_count times, an ENQUEUED or FAILED row one time less, stale
   workers included.
   */
  lemma {:induction false} AttemptAccounting(cfg: Config, start: real, run: seq<Step>, id: Id)
    requires Valid(cfg, Init(start), run)
    requires id in Final(cfg, Init(start), run).rows
    ensures var s := Final(cfg, Init(start), run);
            var r, n := s.rows[id], |History(s, id)|;
            && 1 <= r.attemptCount <= r.maxAttempts
            && (r.status.Publishing? || r.status.Published? ==> n == r.attemptCount)
            && (r.status.Enqueued? || r.status.Failed? ==> n == r.attemptCount - 1)
            && (r.status.Dead? ==> r.attemptCount == Min(n + 1, r.maxAttempts))
  {
    RunKeepsInv(cfg, Init(start), run);
    assert RowInv(Final(cfg, Init(start), run), id);
  }

  /** Over its whole life, deleted or not, an event is claimed at most max(1, max_attempts - 1) times. */
  lemma {:induction false} ClaimBudget(cfg: Config, start: real, run: seq<Step>, id: Id)
    requires Valid(cfg, Init(start), run)
    requires id in Final(cfg, Init(start), run).committed
    ensures var s := Final(cfg, Init(start), run);
            |History(s, id)| <= Max(1, s.committed[id].maxAttempts - 1)
  {
    RunKeepsInv(cfg, Init(start), run);
    assert WithinBudget(Final(cfg, Init(start), run), id);
  }

  /** Terminal statuses tell the truth, and no committed event is ever lost on the publishing side. */
  lemma {:induction false} TruthAndConservation(cfg: Config, start: real, run: seq<Step>, id: Id)
    requires Valid(cfg, Init(start), run)
    ensures var s := Final(cfg, Init(start), run);
            && (id in s.rows && s.rows[id].status.Published? ==> id in s.accepted)
            && (id in s.rows && s.rows[id].status.Dead? ==>
                  id in s.refused || s.rows[id].attemptCount == s.rows[id].maxAttempts)
            && (id in s.committed ==>
                  (id in s.rows && !s.rows[id].status.Terminal()) || id in s.dead || id in s.accepted)
  {
    RunKeepsInv(cfg, Init(start), run);
    var s := Final(cfg, Init(start), run);
    assert RowInv(s, id) && Conserved(s, id);
  }
}
