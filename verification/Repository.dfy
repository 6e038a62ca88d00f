/** The outbox repository: each method runs one statement on the table it owns. */
module Repository {
  import opened Prelude
  import opened OutboxTable
  import Accounting
  import Pacing

  /** The oldest of the given rows. */
  method FindOldest(t: Table, ids: set<Id>) returns (p: Id)
    requires ids != {} && ids <= t.Keys
    ensures p in ids && forall a :: a in ids ==> t[p].createdAt <= t[a].createdAt
  {
    p :| p in ids;
    var todo := ids - {p};
    while todo != {}
      invariant todo <= ids && p in ids
      invariant forall a :: a in ids - todo ==> t[p].createdAt <= t[a].createdAt
      decreases todo
    {
      var q :| q in todo;
      if t[q].createdAt < t[p].createdAt { p := q; }
      todo := todo - {q};
    }
  }

  /** `ids` are oldest ENQUEUED rows, without repeats, and `left` are the other ENQUEUED rows. */
  ghost predicate Picked(t: Table, ids: seq<Id>, left: set<Id>)
  {
    && Distinct(ids)
    && Elements(ids) !! left && Elements(ids) + left == EnqueuedIds(t)
    && NoneYounger(t, Elements(ids), left)
  }

  ghost predicate NoneYounger(t: Table, some: set<Id>, others: set<Id>)
    requires some <= t.Keys && others <= t.Keys
  {
    forall a, b :: a in some && b in others ==> t[a].createdAt <= t[b].createdAt
  }

  lemma {:induction false} OneMorePicked(t: Table, ids: seq<Id>, left: set<Id>, p: Id)
    requires Picked(t, ids, left) && p in left && NoneYounger(t, {p}, left)
    ensures Picked(t, ids + [p], left - {p})
  {
    assert Elements(ids + [p]) == Elements(ids) + {p};
    assert p !in Elements(ids);
  }

  lemma {:induction false} PickedIsOldest(t: Table, ids: seq<Id>, left: set<Id>, n: nat)
    requires Picked(t, ids, left) && |ids| <= n && (|ids| == n || left == {})
    ensures Oldest(t, Elements(ids), n)
  {
    DistinctSize(ids);
    assert EnqueuedIds(t) - Elements(ids) == left;
    assert |EnqueuedIds(t)| == |Elements(ids)| + |left|;
  }

  /** `ORDER BY created_at ASC LIMIT n` over the ENQUEUED rows. */
  method SelectOldest(t: Table, n: nat) returns (ids: seq<Id>)
    ensures Distinct(ids) && Oldest(t, Elements(ids), n)
  {
    ids := [];
    var left := EnqueuedIds(t);
    while |ids| < n && left != {}
      invariant |ids| <= n && Picked(t, ids, left)
      decreases left
    {
      var p := FindOldest(t, left);
      OneMorePicked(t, ids, left, p);
      ids := ids + [p];
      left := left - {p};
    }
    PickedIsOldest(t, ids, left, n);
  }

  /** The rows two versions of a table disagree on. */
  function Changed(t: Table, t': Table): (ids: set<Id>)
    ensures forall id :: id in ids <==> id in t && id in t' && t[id] != t'[id]
  {
    set id | id in t && id in t' && t[id] != t'[id]
  }

  /** Same rows, and those outside `ids` as they were. */
  ghost predicate OnlyTouches(t: Table, t': Table, ids: set<Id>)
  {
    t'.Keys == t.Keys && forall id :: id in t && id !in ids ==> t'[id] == t[id]
  }

  /** The rows of a table that are in PUBLISHING, among the given ids. */
  function InFlight(t: Table, ids: set<Id>): set<Id>
  {
    set id | id in t && id in ids && t[id].status.Publishing?
  }

  /** All of the ids are in flight exactly if as many are as there are ids. */
  lemma {:induction false} AllInFlightIff(t: Table, ids: seq<Id>)
    ensures |InFlight(t, Elements(ids))| <= |ids|
    ensures Distinct(ids) ==>
              (|InFlight(t, Elements(ids))| == |ids| <==>
                forall id :: id in ids ==> id in t && t[id].status.Publishing?)
  {
    ElementsAreFew(ids);
    SubsetSize(InFlight(t, Elements(ids)), Elements(ids));
    if Distinct(ids) { DistinctSize(ids); }
    assert InFlight(t, Elements(ids)) == Elements(ids) <==>
      forall id :: id in ids ==> id in t && t[id].status.Publishing?;
  }

  /** The row's retry time is between half and all of min(base * 2^n, cap) ahead. */
  predicate RetriesBetween(cfg: Config, r: Row, n: nat, now: real)
  {
    var cap := MinReal(cfg.backoffBase * Pow2(n) as real, cfg.backoffMax);
    r.nextRetryAt.Some? && now + cap * 0.5 <= r.nextRetryAt.value <= now + cap
  }

  /**
   The worker holds its row as it now stands: claimed at this instant with its attempts and age kept, and out of reach
   of crash recovery for as long as the threshold, floored to whole seconds.
   */
  predicate FreshlyClaimed(cfg: Config, before: Table, t: Table, m: Outbox, now: real)
  {
    && m.id in before && m.id in t && t[m.id] == m.row
    && m.row.status.Publishing? && m.row.updatedAt == now
    && m.row.attemptCount == before[m.id].attemptCount && m.row.createdAt == before[m.id].createdAt
    && (0.0 <= cfg.stuckThreshold ==>
          !Stuck(cfg, m.row, now) && !Stuck(cfg, m.row, now + cfg.stuckThreshold.Floor as real))
  }

  class OutboxRepository {
    var rows: Table
    const cfg: Config

    constructor (cfg: Config)
      ensures rows == map[] && this.cfg == cfg
    {
      rows := map[];
      this.cfg := cfg;
    }

    /**
     False is ErrAlreadyExists: the id or the (event_type, idempotency_key) pair is taken. Otherwise the event is
     waiting to be claimed, created now.
     */
    method Insert(id: Id, p: InsertParams, now: real) returns (inserted: bool)
      modifies this`rows
      ensures inserted <==>
                && id !in old(rows)
                && forall o :: o in old(rows) ==>
                     !(old(rows)[o].eventType == p.eventType && old(rows)[o].idempotencyKey == p.idempotencyKey)
      ensures rows == if inserted then old(rows)[id := NewRow(p, now)] else old(rows)
      ensures inserted ==>
                && rows[id].status.Enqueued? && rows[id].createdAt == now && rows[id].updatedAt == now
                && rows[id].attemptCount == 1 && rows[id].nextRetryAt.None? && Accounting.Carries(rows[id], p)
    {
      inserted := id !in rows && !Duplicate(rows, p);
      if inserted {
        rows := rows[id := NewRow(p, now)];
      }
    }

    method FetchLockAndMarkPublishing(limit: nat, now: real) returns (msgs: seq<Outbox>)
      modifies this`rows
      ensures forall i, j :: 0 <= i < j < |msgs| ==> msgs[i].id != msgs[j].id
      ensures Oldest(old(rows), Ids(msgs), limit)
      ensures rows == ClaimRows(old(rows), Ids(msgs), now)
      ensures OnlyTouches(old(rows), rows, Ids(msgs))
      ensures forall i :: 0 <= i < |msgs| ==>
                msgs[i].id in old(rows) && msgs[i].row == ToPublishing(old(rows)[msgs[i].id], now)
      ensures forall i :: 0 <= i < |msgs| ==> FreshlyClaimed(cfg, old(rows), rows, msgs[i], now)
    {
      var ids := SelectOldest(rows, limit);
      var before := rows;
      rows := ClaimRows(rows, Elements(ids), now);
      msgs := [];
      forall k | 0 <= k < |ids| ensures ids[k] in rows { assert ids[k] in Elements(ids); }
      for i := 0 to |ids|
        invariant |msgs| == i
        invariant forall k :: 0 <= k < i ==> msgs[k].id == ids[k] && msgs[k] == Outbox(ids[k], rows[ids[k]])
      {
        msgs := msgs + [Outbox(ids[i], rows[ids[i]])];
      }
      assert Ids(msgs) == Elements(ids) by {
        forall x | x in Elements(ids) ensures x in Ids(msgs) {
          var k :| 0 <= k < |ids| && ids[k] == x;
          assert msgs[k] in msgs && msgs[k].id == x;
        }
      }
      forall i | 0 <= i < |msgs|
        ensures msgs[i].id in before && msgs[i].row == ToPublishing(before[msgs[i].id], now)
      {
        assert ids[i] in Elements(ids);
      }
    }

    /** None is ErrNoMessage. */
    method FetchAndLockToPublishing(now: real) returns (msg: Option<Outbox>)
      modifies this`rows
      ensures msg.None? <==> EnqueuedIds(old(rows)) == {}
      ensures msg.None? ==> rows == old(rows)
      ensures msg.Some? ==>
                && Oldest(old(rows), {msg.value.id}, 1)
                && rows == ClaimRows(old(rows), {msg.value.id}, now)
                && msg.value.row == ToPublishing(old(rows)[msg.value.id], now)
                && OnlyTouches(old(rows), rows, {msg.value.id})
                && FreshlyClaimed(cfg, old(rows), rows, msg.value, now)
    {
      var msgs := FetchLockAndMarkPublishing(1, now);
      if msgs == [] {
        assert Ids(msgs) == {};
        assert ClaimRows(old(rows), {}, now) == old(rows);
        msg := None;
      } else {
        IdsSize(msgs);
        assert Ids(msgs) == {msgs[0].id};
        msg := Some(msgs[0]);
      }
    }

    /** False is ErrInvalidStatus: no row was in PUBLISHING. The same holds for the next two. */
    method UpdateToPublished(id: Id, now: real) returns (updated: bool)
      modifies this`rows
      ensures rows == MarkPublished(old(rows), {id}, now)
      ensures OnlyTouches(old(rows), rows, {id})
      ensures updated <==> id in Changed(old(rows), rows)
      ensures updated <==> id in old(rows) && old(rows)[id].status.Publishing?
      ensures updated ==> rows[id].status.Published? && rows[id].attemptCount == old(rows)[id].attemptCount
      ensures !updated ==> rows == old(rows)
    {
      updated := id in rows && rows[id].status.Publishing?;
      rows := MarkPublished(rows, {id}, now);
      assert !updated ==> rows == old(rows);
    }

    /** The row gets one attempt more and a retry time between half and all of its capped backoff ahead. */
    method UpdateToFailed(id: Id, message: string, now: real, jitter: real) returns (updated: bool)
      modifies this`rows
      ensures rows == MarkFailed(cfg, old(rows), id, message, now, jitter)
      ensures OnlyTouches(old(rows), rows, {id})
      ensures updated <==> id in Changed(old(rows), rows)
      ensures updated <==> id in old(rows) && old(rows)[id].status.Publishing?
      ensures updated ==>
                && rows[id].status.Failed? && rows[id].errorMessage == Some(message)
                && rows[id].attemptCount == old(rows)[id].attemptCount + 1
      ensures updated && Pacing.Backs(cfg) && Jitter(jitter) ==>
                RetriesBetween(cfg, rows[id], old(rows)[id].attemptCount, now)
    {
      updated := id in rows && rows[id].status.Publishing?;
      if updated && Pacing.Backs(cfg) && Jitter(jitter) {
        Pacing.DelayAtLeastHalf(cfg, rows[id].attemptCount, jitter);
      }
      rows := MarkFailed(cfg, rows, id, message, now, jitter);
    }

    /** The row's attempts never pass its limit. */
    method UpdateToDead(id: Id, message: string, now: real) returns (updated: bool)
      modifies this`rows
      ensures rows == MarkDead(old(rows), id, message, now)
      ensures OnlyTouches(old(rows), rows, {id})
      ensures updated <==> id in Changed(old(rows), rows)
      ensures updated <==> id in old(rows) && old(rows)[id].status.Publishing?
      ensures updated ==>
                && rows[id].status.Dead? && rows[id].errorMessage == Some(message)
                && rows[id].attemptCount <= rows[id].maxAttempts == old(rows)[id].maxAttempts
                && (old(rows)[id].attemptCount <= old(rows)[id].maxAttempts ==>
                      old(rows)[id].attemptCount <= rows[id].attemptCount <= old(rows)[id].attemptCount + 1)
    {
      updated := id in rows && rows[id].status.Publishing?;
      rows := MarkDead(rows, id, message, now);
    }

    /** A count below the number of ids tells the caller that some of them had left PUBLISHING, and only that. */
    method UpdateBatchToPublished(ids: seq<Id>, now: real) returns (n: nat)
      modifies this`rows
      ensures rows == MarkPublished(old(rows), Elements(ids), now)
      ensures OnlyTouches(old(rows), rows, InFlight(old(rows), Elements(ids)))
      ensures n == |Changed(old(rows), rows)| <= |ids|
      ensures forall id :: id in Changed(old(rows), rows) ==>
                rows[id].status.Published? && rows[id].attemptCount == old(rows)[id].attemptCount
      ensures Distinct(ids) ==>
                (n == |ids| <==> forall id :: id in ids ==> id in old(rows) && old(rows)[id].status.Publishing?)
    {
      n := |InFlight(rows, Elements(ids))|;
      AllInFlightIff(rows, ids);
      ghost var before := rows;
      rows := MarkPublished(rows, Elements(ids), now);
      assert Changed(before, rows) == InFlight(before, Elements(ids));
    }

    /** The count is the number of rows that are ENQUEUED again; afterwards no row is due any more. */
    method RequeueFailed(now: real) returns (n: nat)
      modifies this`rows
      ensures rows == OutboxTable.RequeueFailed(old(rows), now)
      ensures OnlyTouches(old(rows), rows, Changed(old(rows), rows)) && n == |Changed(old(rows), rows)|
      ensures forall id :: id in old(rows) ==>
                (id in Changed(old(rows), rows) <==> Requeueable(old(rows)[id], now))
      ensures forall id :: id in Changed(old(rows), rows) ==>
                && rows[id].status.Enqueued?
                && rows[id].attemptCount == old(rows)[id].attemptCount < rows[id].maxAttempts
      ensures forall id :: id in rows ==> !Requeueable(rows[id], now)
    {
      ghost var before := rows;
      var due := set id | id in rows && Requeueable(rows[id], now);
      n := |due|;
      rows := OutboxTable.RequeueFailed(rows, now);
      assert Changed(before, rows) == due;
    }

    /**
     The count is the number of rows taken out of PUBLISHING: to DEAD exactly if that was their last attempt, else to
     FAILED with one attempt more. Afterwards no row is stuck.
     */
    method ReviveStuckPublishing(now: real, jitter: map<Id, real>) returns (n: nat)
      requires rows.Keys <= jitter.Keys
      modifies this`rows
      ensures rows == ReviveStuck(cfg, old(rows), now, jitter)
      ensures OnlyTouches(old(rows), rows, Changed(old(rows), rows)) && n == |Changed(old(rows), rows)|
      ensures forall id :: id in old(rows) ==> (id in Changed(old(rows), rows) <==> Stuck(cfg, old(rows)[id], now))
      ensures 0.0 <= cfg.stuckThreshold ==> forall id :: id in old(rows) ==>
                (id in Changed(old(rows), rows) <==>
                   && old(rows)[id].status.Publishing?
                   && now - old(rows)[id].updatedAt > cfg.stuckThreshold.Floor as real)
      ensures Pacing.Backs(cfg) && (forall id :: id in jitter ==> Jitter(jitter[id])) ==>
                forall id :: id in Changed(old(rows), rows) && rows[id].status.Failed? ==>
                  RetriesBetween(cfg, rows[id], old(rows)[id].attemptCount, now)
      ensures forall id :: id in Changed(old(rows), rows) ==>
                if old(rows)[id].attemptCount + 1 >= old(rows)[id].maxAttempts then
                  && rows[id].status.Dead? && rows[id].nextRetryAt.None?
                  && rows[id].errorMessage == Some("revived from PUBLISHING (crash recovery) - max attempts reached")
                else
                  && rows[id].status.Failed? && rows[id].attemptCount == old(rows)[id].attemptCount + 1
                  && rows[id].errorMessage == Some("revived from PUBLISHING (crash recovery)")
      ensures forall id :: id in Changed(old(rows), rows) ==> rows[id].attemptCount <= rows[id].maxAttempts
      ensures forall id :: id in rows ==> !Stuck(cfg, rows[id], now)
    {
      ghost var before := rows;
      var stuck := set id | id in rows && Stuck(cfg, rows[id], now);
      n := |stuck|;
      rows := ReviveStuck(cfg, rows, now, jitter);
      assert Changed(before, rows) == stuck;
      if Pacing.Backs(cfg) && forall id :: id in jitter ==> Jitter(jitter[id]) {
        forall id | id in stuck && rows[id].status.Failed?
          ensures RetriesBetween(cfg, rows[id], before[id].attemptCount, now)
        {
          Pacing.DelayAtLeastHalf(cfg, before[id].attemptCount, jitter[id]);
        }
      }
    }

    /** None is the error for an empty list of statuses. */
    method DeleteOlderThan(statuses: seq<Status>, olderThan: real, now: real) returns (n: Option<nat>)
      modifies this`rows
      ensures n.None? <==> statuses == []
      ensures n.Some? ==> n.value == |old(rows).Keys - rows.Keys|
      ensures rows == if statuses == [] then old(rows) else DeleteExpired(old(rows), Elements(statuses), olderThan, now)
      ensures forall id :: id in rows <==>
                && id in old(rows)
                && !(old(rows)[id].status in statuses && now - old(rows)[id].updatedAt > olderThan)
      ensures forall id :: id in rows ==> rows[id] == old(rows)[id]
    {
      if statuses == [] {
        return None;
      }
      var kept := DeleteExpired(rows, Elements(statuses), olderThan, now);
      n := Some(|rows.Keys - kept.Keys|);
      rows := kept;
    }
  }

  function Ids(msgs: seq<Outbox>): set<Id>
  {
    set m | m in msgs :: m.id
  }

  lemma {:induction false} IdsSize(msgs: seq<Outbox>)
    requires forall i, j :: 0 <= i < j < |msgs| ==> msgs[i].id != msgs[j].id
    ensures |Ids(msgs)| == |msgs|
  {
    if msgs == [] {
    } else {
      IdsSize(msgs[1..]);
      assert Ids(msgs) == {msgs[0].id} + Ids(msgs[1..]);
    }
  }
}
