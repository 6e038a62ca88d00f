/** The fate of an event whose payload is over the broker's limit, over whole runs. */
module Oversize {
  import opened Prelude
  import opened OutboxTable
  import opened Protocol
  import opened Accounting

  /** Crash recovery hits the row in this step. */
  predicate Hits(cfg: Config, s: State, step: Step, id: Id)
  {
    step.Revive? && id in s.rows && Stuck(cfg, s.rows[id], s.now)
  }

  /** How often crash recovery hits the row in a run. */
  function Revivals(cfg: Config, s: State, run: seq<Step>, id: Id): nat
    requires Valid(cfg, s, run)
    decreases |run|
  {
    if run == [] then 0
    else (if Hits(cfg, s, run[0], id) then 1 else 0) + Revivals(cfg, Apply(cfg, s, run[0]), run[1..], id)
  }

  /** How often an event that cannot be sent has been claimed, when crash recovery has hit it `v` times. */
  predicate Tallied(s: State, id: Id, v: nat)
  {
    var n := |History(s, id)|;
    if id !in s.rows then n <= 1 + v
    else match s.rows[id].status
      case Enqueued => n == v
      case Failed => n == v
      case Publishing => n == 1 + v
      case Published => false
      case Dead => n <= 1 + v
  }

  predicate TooLarge(s: State, id: Id)
  {
    id in s.committed && !Sendable(s.committed[id])
  }

  /** A live claim of such an event is pending or has been refused for good, so it is never resolved as FAILED. */
  lemma {:induction false} ResolvedAsDead(s: State, step: Step)
    requires Inv(s) && Enabled(s, step) && step.ResolveFailure? && TooLarge(s, step.key.0)
    ensures GivesUp(s.claims[step.key])
  {
    assert ClaimInv(s, step.key);
  }

  lemma {:induction false} NeverPublished(cfg: Config, s: State, step: Step, id: Id)
    requires Inv(s) && Enabled(s, step) && TooLarge(s, id) && id in Apply(cfg, s, step).rows
    ensures !Apply(cfg, s, step).rows[id].status.Published?
  {
    StepKeepsInv(cfg, s, step);
    RecordGrows(cfg, s, step, id);
    assert RowInv(Apply(cfg, s, step), id);
  }

  lemma {:induction false} HistoryMoves(cfg: Config, s: State, step: Step, id: Id)
    requires s.history.Keys == s.committed.Keys && Enabled(s, step) && id in s.committed
    ensures |History(Apply(cfg, s, step), id)| ==
              |History(s, id)| + if step.ClaimSome? && id in step.ids then 1 else 0
  {
  }

  lemma {:induction false} StepKeepsTally(cfg: Config, s: State, step: Step, id: Id, v: nat)
    requires Inv(s) && Enabled(s, step) && TooLarge(s, id) && Tallied(s, id, v)
    ensures TooLarge(Apply(cfg, s, step), id)
    ensures Tallied(Apply(cfg, s, step), id, if Hits(cfg, s, step, id) then v + 1 else v)
  {
    RecordGrows(cfg, s, step, id);
    HistoryMoves(cfg, s, step, id);
    if id !in s.rows {
      StepKeepsDeleted(cfg, s, step, id);
    } else {
      if id in Apply(cfg, s, step).rows { NeverPublished(cfg, s, step, id); }
      RowKeepsTally(cfg, s, step, id, v);
    }
  }

  /** What a step does to the row of such an event. */
  lemma {:induction false} RowMoves(cfg: Config, s: State, step: Step, id: Id)
    requires Inv(s) && Enabled(s, step) && TooLarge(s, id) && id in s.rows
    ensures var s' := Apply(cfg, s, step);
            if step.ClaimSome? && id in step.ids then
              s.rows[id].status.Enqueued? && id in s'.rows && s'.rows[id].status.Publishing?
            else if Hits(cfg, s, step, id) then
              s.rows[id].status.Publishing? && id in s'.rows && (s'.rows[id].status.Failed? || s'.rows[id].status.Dead?)
            else id in s'.rows ==>
              && (s'.rows[id].status.Failed? ==> s.rows[id].status.Failed?)
              && (s'.rows[id].status.Publishing? ==> s.rows[id].status.Publishing?)
  {
    if step.ResolveFailure? {
      if step.key.0 == id { ResolvedAsDead(s, step); }
      FailureMoves(cfg, s, step, id);
    }
  }

  lemma {:induction false} FailureMoves(cfg: Config, s: State, step: Step, id: Id)
    requires Enabled(s, step) && step.ResolveFailure? && id in s.rows
    requires step.key.0 == id ==> GivesUp(s.claims[step.key])
    ensures var s' := Apply(cfg, s, step);
            id in s'.rows && (s'.rows[id] == s.rows[id] || s'.rows[id].status.Dead?)
  {
  }

  lemma {:induction false} RowKeepsTally(cfg: Config, s: State, step: Step, id: Id, v: nat)
    requires Inv(s) && Enabled(s, step) && TooLarge(s, id) && id in s.rows && Tallied(s, id, v)
    requires |History(Apply(cfg, s, step), id)| ==
               |History(s, id)| + if step.ClaimSome? && id in step.ids then 1 else 0
    requires id in Apply(cfg, s, step).rows ==> !Apply(cfg, s, step).rows[id].status.Published?
    ensures Tallied(Apply(cfg, s, step), id, if Hits(cfg, s, step, id) then v + 1 else v)
  {
    RowMoves(cfg, s, step, id);
    KeysCommitted(s);
    StepFollowsDiagram(cfg, s, step, id);
    TallyMoves(s, Apply(cfg, s, step), id, v, step.ClaimSome? && id in step.ids, Hits(cfg, s, step, id));
  }

  /** The tally depends only on what becomes of the row, of its history and of the hits. */
  lemma {:induction false} TallyMoves(s: State, s': State, id: Id, v: nat, claimed: bool, hit: bool)
    requires id in s.rows && Tallied(s, id, v)
    requires |History(s', id)| == |History(s, id)| + if claimed then 1 else 0
    requires id in s'.rows ==> !s'.rows[id].status.Published?
    requires id in s'.rows ==> s'.rows[id] == s.rows[id] || Arrow(s.rows[id], s'.rows[id])
    requires id !in s'.rows ==> s.rows[id].status.Terminal()
    requires if claimed then s.rows[id].status.Enqueued? && id in s'.rows && s'.rows[id].status.Publishing? && !hit
             else if hit then s.rows[id].status.Publishing? && id in s'.rows &&
               (s'.rows[id].status.Failed? || s'.rows[id].status.Dead?)
             else id in s'.rows ==>
               && (s'.rows[id].status.Failed? ==> s.rows[id].status.Failed?)
               && (s'.rows[id].status.Publishing? ==> s.rows[id].status.Publishing?)
    ensures Tallied(s', id, if hit then v + 1 else v)
  {
  }

  lemma {:induction false} RunKeepsTally(cfg: Config, s: State, run: seq<Step>, id: Id, v: nat)
    requires Inv(s) && Valid(cfg, s, run) && TooLarge(s, id) && Tallied(s, id, v)
    ensures Tallied(Final(cfg, s, run), id, v + Revivals(cfg, s, run, id))
    decreases |run|
  {
    if run == [] {
    } else {
      StepKeepsInv(cfg, s, run[0]);
      StepKeepsTally(cfg, s, run[0], id, v);
      RunKeepsTally(cfg, Apply(cfg, s, run[0]), run[1..], id, if Hits(cfg, s, run[0], id) then v + 1 else v);
    }
  }

  lemma {:induction false} LifetimeTally(cfg: Config, s: State, run: seq<Step>, id: Id)
    requires Inv(s) && Valid(cfg, s, run)
    requires id !in s.committed && TooLarge(Final(cfg, s, run), id)
    ensures Tallied(Final(cfg, s, run), id, Revivals(cfg, s, run, id))
    decreases |run|
  {
    var s' := Apply(cfg, s, run[0]);
    KeysCommitted(s);
    StepKeepsInv(cfg, s, run[0]);
    if id in s'.committed {
      CommittedStays(cfg, s', run[1..], id);
      InsertTally(cfg, s, run[0], id);
      RunKeepsTally(cfg, s', run[1..], id, 0);
    } else {
      LifetimeTally(cfg, s', run[1..], id);
    }
  }

  lemma {:induction false} InsertTally(cfg: Config, s: State, step: Step, id: Id)
    requires Enabled(s, step) && id !in s.committed && id in Apply(cfg, s, step).committed
    ensures Tallied(Apply(cfg, s, step), id, 0)
  {
  }

  /**
   In every run an event over the size limit is never accepted by the broker and never PUBLISHED, and it is claimed at
   most once more than crash recovery has hit it; while it is ENQUEUED or FAILED, exactly as often. So it is DEAD after
   its first claim unless it is revived first or the worker never records the refusal.
   */
  lemma {:induction false} OversizeIsNeverSent(cfg: Config, start: real, run: seq<Step>, id: Id)
    requires Valid(cfg, Init(start), run) && TooLarge(Final(cfg, Init(start), run), id)
    ensures var s, v := Final(cfg, Init(start), run), Revivals(cfg, Init(start), run, id);
            && id !in s.accepted
            && |History(s, id)| <= 1 + v
            && (id in s.rows ==> !s.rows[id].status.Published?)
            && (id in s.rows && (s.rows[id].status.Failed? || s.rows[id].status.Enqueued?) ==> |History(s, id)| == v)
  {
    RunKeepsInv(cfg, Init(start), run);
    LifetimeTally(cfg, Init(start), run, id);
  }
}
