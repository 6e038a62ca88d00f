/** When an event can still be published: exactly which rows some continuation of the run brings to PUBLISHED. */
module Delivery {
  import opened Prelude
  import opened OutboxTable
  import opened Protocol
  import opened Accounting
  import opened Liveness

  /** Some live claim of the row has not failed. */
  predicate Hopeful(s: State, id: Id)
  {
    exists k :: k in s.claims && k.0 == id && !s.claims[k].outcome.Rejected?
  }

  /** The row's present state leaves a way to PUBLISHED open. */
  predicate WayOpen(s: State, id: Id)
    requires id in s.rows
  {
    var r := s.rows[id];
    match r.status
    case Enqueued => true
    case Failed => r.attemptCount < r.maxAttempts
    case Publishing => r.attemptCount + 1 < r.maxAttempts || Hopeful(s, id)
    case Published => true
    case Dead => false
  }

  /** The event can be sent at all, and its row has a way to PUBLISHED left. */
  predicate Publishable(s: State, id: Id)
    requires id in s.rows
  {
    Fits(id, s.rows[id]) && WayOpen(s, id)
  }

  ghost predicate Publishes(cfg: Config, s: State, run: seq<Step>, id: Id)
  {
    && Valid(cfg, s, run)
    && id in Final(cfg, s, run).rows
    && Final(cfg, s, run).rows[id].status.Published?
  }

  // ---------- a way ----------

  lemma {:induction false} DeliveredCanPublish(cfg: Config, s: State, k: ClaimKey) returns (run: seq<Step>)
    requires k in s.claims && s.claims[k].outcome.Delivered?
    requires k.0 in s.rows && s.rows[k.0].status.Publishing?
    ensures Publishes(cfg, s, run, k.0)
  {
    var resolve := ResolvePublished({k});
    assert k.0 in RowIds({k});
    OneStep(cfg, s, resolve);
    run := [resolve];
  }

  lemma {:induction false} PendingCanPublish(cfg: Config, s: State, k: ClaimKey) returns (run: seq<Step>)
    requires k in s.claims && s.claims[k].outcome.Pending? && Fits(k.0, s.claims[k].snapshot)
    requires k.0 in s.rows && s.rows[k.0].status.Publishing?
    ensures Publishes(cfg, s, run, k.0)
  {
    var publish := Publish(k, true, Delivered);
    OneStep(cfg, s, publish);
    var rest := DeliveredCanPublish(cfg, Apply(cfg, s, publish), k);
    RunsCompose(cfg, s, [publish], rest);
    run := [publish] + rest;
  }

  lemma {:induction false} EnqueuedCanPublish(cfg: Config, s: State, id: Id) returns (run: seq<Step>)
    requires id in s.rows && s.rows[id].status.Enqueued? && Fits(id, s.rows[id])
    ensures Publishes(cfg, s, run, id)
  {
    var claim := ClaimSome(0, {id});
    var k := (id, |History(s, id)| + 1);
    OneStep(cfg, s, claim);
    assert k in NewClaims(s, 0, {id});
    var rest := PendingCanPublish(cfg, Apply(cfg, s, claim), k);
    RunsCompose(cfg, s, [claim], rest);
    run := [claim] + rest;
  }

  /** A leg of requeue or revive keeps the row publishable. */
  lemma {:induction false} LegKeepsFits(cfg: Config, s: State, id: Id)
    requires Inv(s) && id in s.rows && Fits(id, s.rows[id])
    requires s.rows[id].status.Failed? || s.rows[id].status.Publishing?
    requires s.rows[id].status.Failed? ==> s.rows[id].attemptCount < s.rows[id].maxAttempts
    requires s.rows[id].status.Publishing? ==> s.rows[id].attemptCount + 1 < s.rows[id].maxAttempts
    ensures s.rows[id].status.Failed? ==> s.rows[id].nextRetryAt.Some?
    ensures var leg := NextLeg(cfg, s, id);
            && Valid(cfg, s, leg)
            && var s' := Final(cfg, s, leg);
               && id in s'.rows && Fits(id, s'.rows[id])
               && (s.rows[id].status.Failed? ==> s'.rows[id].status.Enqueued?)
               && (s.rows[id].status.Publishing? ==>
                     s'.rows[id].status.Failed? && s'.rows[id].attemptCount < s'.rows[id].maxAttempts)
  {
    LegIsValid(cfg, s, id);
    assert RowInv(s, id);
  }

  lemma {:induction false} FailedCanPublish(cfg: Config, s: State, id: Id) returns (run: seq<Step>)
    requires Inv(s) && id in s.rows && Fits(id, s.rows[id])
    requires s.rows[id].status.Failed? && s.rows[id].attemptCount < s.rows[id].maxAttempts
    ensures Publishes(cfg, s, run, id)
  {
    LegKeepsFits(cfg, s, id);
    var leg := NextLeg(cfg, s, id);
    var rest := EnqueuedCanPublish(cfg, Final(cfg, s, leg), id);
    RunsCompose(cfg, s, leg, rest);
    run := leg + rest;
  }

  lemma {:induction false} StuckCanPublish(cfg: Config, s: State, id: Id) returns (run: seq<Step>)
    requires Inv(s) && id in s.rows && Fits(id, s.rows[id])
    requires s.rows[id].status.Publishing? && s.rows[id].attemptCount + 1 < s.rows[id].maxAttempts
    ensures Publishes(cfg, s, run, id)
  {
    LegKeepsFits(cfg, s, id);
    var leg := NextLeg(cfg, s, id);
    RunKeepsInv(cfg, s, leg);
    var rest := FailedCanPublish(cfg, Final(cfg, s, leg), id);
    RunsCompose(cfg, s, leg, rest);
    run := leg + rest;
  }

  lemma {:induction false} HopefulCanPublish(cfg: Config, s: State, id: Id) returns (run: seq<Step>)
    requires Inv(s) && id in s.rows && Fits(id, s.rows[id])
    requires s.rows[id].status.Publishing? && Hopeful(s, id)
    ensures Publishes(cfg, s, run, id)
  {
    var k :| k in s.claims && k.0 == id && !s.claims[k].outcome.Rejected?;
    assert ClaimInv(s, k) && RowInv(s, id);
    if s.claims[k].outcome.Delivered? {
      run := DeliveredCanPublish(cfg, s, k);
    } else {
      run := PendingCanPublish(cfg, s, k);
    }
  }

  lemma {:induction false} CanPublish(cfg: Config, s: State, id: Id) returns (run: seq<Step>)
    requires Inv(s) && id in s.rows && Publishable(s, id)
    ensures Publishes(cfg, s, run, id)
  {
    match s.rows[id].status
    case Enqueued => run := EnqueuedCanPublish(cfg, s, id);
    case Failed => run := FailedCanPublish(cfg, s, id);
    case Published => run := [];
    case Publishing =>
      if Hopeful(s, id) {
        run := HopefulCanPublish(cfg, s, id);
      } else {
        run := StuckCanPublish(cfg, s, id);
      }
  }

  // ---------- no way ----------

  /** The event is gone or has no way to PUBLISHED left. */
  predicate Lost(s: State, id: Id)
  {
    id in s.committed && (id in s.rows ==> !Publishable(s, id))
  }

  /** PUBLISHED is an event the broker took, so one that can be sent. */
  lemma {:induction false} PublishedFits(s: State, id: Id)
    requires Inv(s) && id in s.rows && s.rows[id].status.Published?
    ensures Fits(id, s.rows[id])
  {
    assert RowInv(s, id);
  }

  /** While a row stays in PUBLISHING, it gets no new claims, and failed ones stay failed. */
  lemma {:induction false} HopeDoesNotReturn(cfg: Config, s: State, step: Step, id: Id)
    requires Enabled(s, step) && id in s.rows && !s.rows[id].status.Enqueued? && !Hopeful(s, id)
    ensures !Hopeful(Apply(cfg, s, step), id)
  {
    var s' := Apply(cfg, s, step);
    forall k | k in s'.claims && k.0 == id ensures s'.claims[k].outcome.Rejected? {
      if !step.ClaimSome? && !step.Publish? { ClaimsShrink(cfg, s, step, k); }
      assert k in s.claims;
    }
  }

  lemma {:induction false} LastClaimDoesNotPublish(cfg: Config, s: State, step: Step, id: Id)
    requires Enabled(s, step) && id in s.rows && s.rows[id].status.Publishing? && !Hopeful(s, id)
    requires id in Apply(cfg, s, step).rows
    ensures !Apply(cfg, s, step).rows[id].status.Published?
  {
  }

  lemma {:induction false} StepKeepsLost(cfg: Config, s: State, step: Step, id: Id)
    requires Inv(s) && Enabled(s, step) && Lost(s, id)
    ensures Lost(Apply(cfg, s, step), id)
  {
    var s' := Apply(cfg, s, step);
    RecordGrows(cfg, s, step, id);
    if id !in s.rows {
      StepKeepsDeleted(cfg, s, step, id);
    } else if id in s'.rows && Fits(id, s'.rows[id]) {
      StepKeepsFits(cfg, s, step, id);
      KeysCommitted(s);
      StepFollowsDiagram(cfg, s, step, id);
      if s.rows[id].status.Publishing? {
        HopeDoesNotReturn(cfg, s, step, id);
        LastClaimDoesNotPublish(cfg, s, step, id);
      }
    }
  }

  lemma {:induction false} StepKeepsFits(cfg: Config, s: State, step: Step, id: Id)
    requires Inv(s) && Enabled(s, step) && id in s.rows && id in Apply(cfg, s, step).rows
    ensures Fits(id, Apply(cfg, s, step).rows[id]) <==> Fits(id, s.rows[id])
  {
    InvIsLocal(s, step, id);
    StepKeepsContent(cfg, s, step, id);
    RecordGrows(cfg, s, step, id);
  }

  lemma {:induction false} LostForGood(cfg: Config, s: State, run: seq<Step>, id: Id)
    requires Inv(s) && Valid(cfg, s, run) && Lost(s, id)
    ensures !Publishes(cfg, s, run, id)
    decreases |run|
  {
    if run == [] {
      if id in s.rows && s.rows[id].status.Published? { PublishedFits(s, id); }
    } else {
      StepKeepsInv(cfg, s, run[0]);
      StepKeepsLost(cfg, s, run[0], id);
      LostForGood(cfg, Apply(cfg, s, run[0]), run[1..], id);
    }
  }

  /**
   A row can still become PUBLISHED if and only if its payload is within the limit and it is ENQUEUED, FAILED with
   attempts left, PUBLISHING with attempts to spare or with a live claim that has not failed, or PUBLISHED already.
   */
  lemma {:induction false} PublishableIff(cfg: Config, s: State, id: Id)
    requires Inv(s) && id in s.rows
    ensures (exists run :: Publishes(cfg, s, run, id)) <==> Publishable(s, id)
  {
    if Publishable(s, id) {
      var run := CanPublish(cfg, s, id);
    } else {
      assert RowInv(s, id);
      forall run | Valid(cfg, s, run) ensures !Publishes(cfg, s, run, id) { LostForGood(cfg, s, run, id); }
    }
  }
}
