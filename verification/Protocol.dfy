/**
 The outbox protocol as a step system: many workers, crashes, recovery and requeue over one table.

 Every SQL statement is one step, and so is every action of a worker between two statements. A worker acts on
 the row it was handed when it claimed (`Claim.snapshot`), which may be long out of date when it resolves the
 claim. A claim is named by its row and its position in the row's claim history.
 */
module Protocol {
  import opened Prelude
  import opened OutboxTable
  import Publisher

  type ClaimKey = (Id, nat)

  /** What the publisher has reported for a claim; `Rejected(retryable)` is an error with its retry verdict. */
  datatype Outcome = Pending | Delivered | Rejected(retryable: bool)

  datatype Claim = Claim(worker: nat, snapshot: Row, outcome: Outcome)

  datatype State = State(
    now: real,
    rows: Table,
    claims: map<ClaimKey, Claim>,     // live claims: the worker has neither resolved nor abandoned them
    committed: map<Id, InsertParams>, // every id ever inserted, with what was inserted
    history: map<Id, seq<real>>,      // instants at which each id was claimed
    accepted: set<Id>,                // ids the broker has accepted at least once
    refused: set<Id>,                 // ids for which some publish failed permanently
    dead: set<Id>)                    // ids that have reached DEAD

  datatype Step =
    | Tick(to: real)
    | Insert(id: Id, params: InsertParams)
    | ClaimSome(worker: nat, ids: set<Id>)
    | Publish(key: ClaimKey, sent: bool, outcome: Outcome)
    | ResolvePublished(keys: set<ClaimKey>)
    | ResolveFailure(key: ClaimKey, message: string, jitter: real)
    | Abandon(keys: set<ClaimKey>)
    | Requeue
    | Revive(jitters: map<Id, real>)
    | Clean(statuses: set<Status>, olderThan: real)

  function History(s: State, id: Id): seq<real>
  {
    if id in s.history then s.history[id] else []
  }

  function Init(now: real): State
  {
    State(now, map[], map[], map[], map[], {}, {}, {})
  }

  /** The payload is within the broker's limit. */
  predicate Fits(id: Id, r: Row) { Publisher.Fits(Outbox(id, r)) }

  /**
   What a publish may report. It may fail towards the worker although the broker took the message, never the other
   way round; a payload over the limit is refused for good before anything is sent.
   */
  predicate Reports(id: Id, r: Row, sent: bool, outcome: Outcome)
  {
    && !outcome.Pending?
    && (outcome.Delivered? ==> sent)
    && (!Fits(id, r) ==> !sent && outcome == Rejected(false))
  }

  /**
   When a step may be taken. A claim takes any ENQUEUED rows, so rows skipped because another transaction
   holds their lock are covered.
   */
  predicate Enabled(s: State, step: Step)
  {
    match step
    case Tick(to) => s.now <= to
    case Insert(id, params) => id !in s.committed && params.maxAttempts >= 1
    case ClaimSome(_, ids) => ids <= EnqueuedIds(s.rows)
    case Publish(key, sent, outcome) =>
      key in s.claims && s.claims[key].outcome.Pending? && Reports(key.0, s.claims[key].snapshot, sent, outcome)
    case ResolvePublished(keys) => forall k :: k in keys ==> k in s.claims && s.claims[k].outcome.Delivered?
    case ResolveFailure(key, _, jitter) => key in s.claims && s.claims[key].outcome.Rejected? && Jitter(jitter)
    case Abandon(keys) => keys <= s.claims.Keys
    case Requeue => true
    case Revive(jitters) => s.rows.Keys <= jitters.Keys && forall id :: id in jitters ==> Jitter(jitters[id])
    case Clean(statuses, _) => statuses <= {Published, Dead}
  }

  function NewClaims(s: State, worker: nat, ids: set<Id>): (m: map<ClaimKey, Claim>)
    requires ids <= EnqueuedIds(s.rows)
    ensures forall k: ClaimKey :: k in m <==> k.0 in ids && k.1 == |History(s, k.0)| + 1
    ensures forall k: ClaimKey :: k in m ==> m[k] == Claim(worker, ToPublishing(s.rows[k.0], s.now), Pending)
  {
    map id | id in ids :: (id, |History(s, id)| + 1) := Claim(worker, ToPublishing(s.rows[id], s.now), Pending)
  }

  function RowIds(keys: set<ClaimKey>): (ids: set<Id>)
    ensures forall k :: k in keys ==> k.0 in ids
    ensures forall id :: id in ids ==> exists k :: k in keys && k.0 == id
  {
    set k | k in keys :: k.0
  }

  /** The DEAD/FAILED decision is taken on the snapshot the worker holds, not on the row. */
  predicate GivesUp(c: Claim)
    requires c.outcome.Rejected?
  {
    !c.outcome.retryable || c.snapshot.WillExceedMaxAttemptsAfterFailure()
  }

  function DeadIds(t: Table): set<Id>
  {
    set id | id in t && t[id].status.Dead?
  }

  /** Moves to a new table, remembering which ids have become DEAD. */
  function WithRows(s: State, t: Table): State
  {
    s.(rows := t, dead := s.dead + DeadIds(t))
  }

  function Apply(cfg: Config, s: State, step: Step): State
    requires Enabled(s, step)
  {
    match step
    case Tick(to) => s.(now := to)
    case Insert(id, params) =>
      if Duplicate(s.rows, params) then s
      else s.(rows := s.rows[id := NewRow(params, s.now)],
              committed := s.committed[id := params],
              history := s.history[id := []])
    case ClaimSome(worker, ids) =>
      s.(rows := ClaimRows(s.rows, ids, s.now),
         claims := s.claims + NewClaims(s, worker, ids),
         history := map id | id in s.history :: if id in ids then s.history[id] + [s.now] else s.history[id])
    case Publish(key, sent, outcome) =>
      s.(claims := s.claims[key := s.claims[key].(outcome := outcome)],
         accepted := if sent then s.accepted + {key.0} else s.accepted,
         refused := if outcome == Rejected(false) then s.refused + {key.0} else s.refused)
    case ResolvePublished(keys) =>
      WithRows(s, MarkPublished(s.rows, RowIds(keys), s.now)).(claims := s.claims - keys)
    case ResolveFailure(key, message, jitter) =>
      var t := if GivesUp(s.claims[key]) then MarkDead(s.rows, key.0, message, s.now)
               else MarkFailed(cfg, s.rows, key.0, message, s.now, jitter);
      WithRows(s, t).(claims := s.claims - {key})
    case Abandon(keys) => s.(claims := s.claims - keys)
    case Requeue => WithRows(s, RequeueFailed(s.rows, s.now))
    case Revive(jitters) => WithRows(s, ReviveStuck(cfg, s.rows, s.now, jitters))
    case Clean(statuses, olderThan) => WithRows(s, DeleteExpired(s.rows, statuses, olderThan, s.now))
  }

  // ---------- runs ----------

  predicate Valid(cfg: Config, s: State, run: seq<Step>)
    decreases |run|
  {
    run == [] || (Enabled(s, run[0]) && Valid(cfg, Apply(cfg, s, run[0]), run[1..]))
  }

  function Final(cfg: Config, s: State, run: seq<Step>): State
    requires Valid(cfg, s, run)
    decreases |run|
  {
    if run == [] then s else Final(cfg, Apply(cfg, s, run[0]), run[1..])
  }

  lemma {:induction false} OneStep(cfg: Config, s: State, step: Step)
    requires Enabled(s, step)
    ensures Valid(cfg, s, [step]) && Final(cfg, s, [step]) == Apply(cfg, s, step)
  {
    assert [step][1..] == [];
  }

  lemma {:induction false} RunsCompose(cfg: Config, s: State, first: seq<Step>, second: seq<Step>)
    requires Valid(cfg, s, first)
    requires Valid(cfg, Final(cfg, s, first), second)
    ensures Valid(cfg, s, first + second)
    ensures Final(cfg, s, first + second) == Final(cfg, Final(cfg, s, first), second)
    decreases |first|
  {
    if first == [] {
      assert first + second == second;
    } else {
      RunsCompose(cfg, Apply(cfg, s, first[0]), first[1..], second);
      assert (first + second)[1..] == first[1..] + second;
    }
  }
}
