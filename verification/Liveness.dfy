/**
 Exclusion and progress. If claims are resolved in time, every row in flight has a single holder whose snapshot is
 the row itself. A row can still be brought to PUBLISHED or DEAD unless a stale failure has stranded it as FAILED
 with no attempts left, and only a worker that was too slow can do that.
 */
module Liveness {
  import opened Prelude
  import opened OutboxTable
  import opened Protocol
  import opened Accounting

  // ---------- timed mutual exclusion ----------

  /** The claim was made no longer ago than this. */
  predicate Within(s: State, k: ClaimKey, seconds: real)
  {
    1 <= k.1 <= |History(s, k.0)| && s.now - History(s, k.0)[k.1 - 1] <= seconds
  }

  /** Crash recovery runs only while no live claim is older than the threshold, floored to whole seconds. */
  predicate Timely(cfg: Config, s: State, step: Step)
  {
    step.Revive? ==> forall k :: k in s.claims ==> Within(s, k, WholeSeconds(cfg.stuckThreshold) as real)
  }

  predicate TimelyRun(cfg: Config, s: State, run: seq<Step>)
    requires Valid(cfg, s, run)
    decreases |run|
  {
    run == [] || (Timely(cfg, s, run[0]) && TimelyRun(cfg, Apply(cfg, s, run[0]), run[1..]))
  }

  /** Every live claim still holds its row: the row is exactly what the worker was handed. */
  predicate Held(s: State)
  {
    forall k :: k in s.claims ==> k.0 in s.rows && s.rows[k.0] == s.claims[k].snapshot
  }

  lemma {:induction false} SoleHolder(s: State, a: ClaimKey, b: ClaimKey)
    requires Inv(s) && Held(s)
    requires a in s.claims && b in s.claims && a.0 == b.0
    ensures a == b
  {
    assert ClaimInv(s, a) && ClaimInv(s, b);
  }

  /** Resolving one claim leaves every other live claim's row alone. */
  lemma {:induction false} ResolveKeepsHeld(cfg: Config, s: State, step: Step, k: ClaimKey)
    requires Inv(s) && Held(s) && Enabled(s, step) && (step.ResolvePublished? || step.ResolveFailure?)
    requires k in Apply(cfg, s, step).claims
    ensures k.0 in s.rows && s.rows[k.0] == Apply(cfg, s, step).claims[k].snapshot
    ensures k.0 in Apply(cfg, s, step).rows && Apply(cfg, s, step).rows[k.0] == s.rows[k.0]
  {
    match step
    case ResolvePublished(keys) =>
      forall other | other in keys ensures other.0 != k.0 {
        if other.0 == k.0 { SoleHolder(s, k, other); }
      }
    case ResolveFailure(key, _, _) =>
      if k.0 == key.0 { SoleHolder(s, k, key); }
  }

  /** So do the sweeps: claimed rows are PUBLISHING, and young enough for crash recovery to pass them over. */
  lemma {:induction false} SweepKeepsHeld(cfg: Config, s: State, step: Step, k: ClaimKey)
    requires Enabled(s, step) && Timely(cfg, s, step) && (step.Requeue? || step.Revive? || step.Clean?)
    requires k in s.claims && ClaimInv(s, k) && k.0 in s.rows && s.rows[k.0] == s.claims[k].snapshot
    ensures k.0 in Apply(cfg, s, step).rows && Apply(cfg, s, step).rows[k.0] == s.rows[k.0]
  {
  }

  lemma {:induction false} StepKeepsHeld(cfg: Config, s: State, step: Step)
    requires Inv(s) && Held(s) && Enabled(s, step) && Timely(cfg, s, step)
    ensures Held(Apply(cfg, s, step))
  {
    var s' := Apply(cfg, s, step);
    forall k | k in s'.claims ensures k.0 in s'.rows && s'.rows[k.0] == s'.claims[k].snapshot {
      ClaimStaysHeld(cfg, s, step, k);
    }
  }

  lemma {:induction false} ClaimStaysHeld(cfg: Config, s: State, step: Step, k: ClaimKey)
    requires Inv(s) && Held(s) && Enabled(s, step) && Timely(cfg, s, step)
    requires k in Apply(cfg, s, step).claims
    ensures var s' := Apply(cfg, s, step); k.0 in s'.rows && s'.rows[k.0] == s'.claims[k].snapshot
  {
    if step.ResolvePublished? || step.ResolveFailure? {
      ResolveKeepsHeld(cfg, s, step, k);
    } else if step.Requeue? || step.Revive? || step.Clean? {
      ClaimsShrink(cfg, s, step, k);
      assert ClaimInv(s, k);
      SweepKeepsHeld(cfg, s, step, k);
    } else if step.ClaimSome? {
      NewClaimHeld(cfg, s, step, k);
    } else {
      BystanderKeepsHeld(cfg, s, step, k);
    }
  }

  lemma {:induction false} BystanderKeepsHeld(cfg: Config, s: State, step: Step, k: ClaimKey)
    requires Held(s) && Enabled(s, step) && (step.Tick? || step.Insert? || step.Publish? || step.Abandon?)
    requires k in Apply(cfg, s, step).claims && (k in s.claims ==> ClaimInv(s, k))
    ensures var s' := Apply(cfg, s, step); k.0 in s'.rows && s'.rows[k.0] == s'.claims[k].snapshot
  {
  }

  lemma {:induction false} NewClaimHeld(cfg: Config, s: State, step: Step, k: ClaimKey)
    requires Held(s) && Enabled(s, step) && step.ClaimSome?
    requires k in s.claims ==> ClaimInv(s, k)
    requires k in Apply(cfg, s, step).claims
    ensures var s' := Apply(cfg, s, step); k.0 in s'.rows && s'.rows[k.0] == s'.claims[k].snapshot
  {
  }

  /** A failure is fresh if it lands on no row that has been claimed again since. */
  predicate Fresh(s: State, step: Step)
  {
    step.ResolveFailure? && step.key.0 in s.rows && s.rows[step.key.0].status.Publishing? ==>
      step.key.1 == s.rows[step.key.0].attemptCount
  }

  predicate FreshRun(cfg: Config, s: State, run: seq<Step>)
    requires Valid(cfg, s, run)
    decreases |run|
  {
    run == [] || (Fresh(s, run[0]) && FreshRun(cfg, Apply(cfg, s, run[0]), run[1..]))
  }

  /** A timely run keeps every claim current, so all its failures are fresh. */
  lemma {:induction false} TimelyRunKeeps(cfg: Config, s: State, run: seq<Step>)
    requires Inv(s) && Held(s)
    requires Valid(cfg, s, run) && TimelyRun(cfg, s, run)
    ensures Inv(Final(cfg, s, run)) && Held(Final(cfg, s, run))
    ensures FreshRun(cfg, s, run)
    decreases |run|
  {
    if run == [] {
    } else {
      if run[0].ResolveFailure? { assert ClaimInv(s, run[0].key); }
      StepKeepsInv(cfg, s, run[0]);
      StepKeepsHeld(cfg, s, run[0]);
      TimelyRunKeeps(cfg, Apply(cfg, s, run[0]), run[1..]);
    }
  }

  /** The rows a worker holds. */
  function Holding(s: State, worker: nat): set<Id>
  {
    set k | k in s.claims && s.claims[k].worker == worker :: k.0
  }

  /**
   In a timely run crash recovery leaves every live claim's row alone, each PUBLISHING row has at most one live
   holder, the holder's view of it is current, and what different workers hold is disjoint.
   */
  lemma {:induction false} TimedMutualExclusion(cfg: Config, start: real, run: seq<Step>, v: nat, w: nat)
    requires Valid(cfg, Init(start), run) && TimelyRun(cfg, Init(start), run)
    ensures var s := Final(cfg, Init(start), run);
            && (forall k :: k in s.claims ==> k.0 in s.rows && s.rows[k.0] == s.claims[k].snapshot)
            && (forall a, b :: a in s.claims && b in s.claims && a.0 == b.0 ==> a == b)
            && (v != w ==> Holding(s, v) !! Holding(s, w))
            && (forall jitters, k :: Enabled(s, Revive(jitters)) && Timely(cfg, s, Revive(jitters)) && k in s.claims ==>
                  Apply(cfg, s, Revive(jitters)).rows[k.0] == s.rows[k.0])
  {
    TimelyRunKeeps(cfg, Init(start), run);
    HeldIsExclusive(cfg, Final(cfg, Init(start), run), v, w);
  }

  lemma {:induction false} HeldIsExclusive(cfg: Config, s: State, v: nat, w: nat)
    requires Inv(s) && Held(s)
    ensures forall a, b :: a in s.claims && b in s.claims && a.0 == b.0 ==> a == b
    ensures v != w ==> Holding(s, v) !! Holding(s, w)
    ensures forall jitters, k :: Enabled(s, Revive(jitters)) && Timely(cfg, s, Revive(jitters)) && k in s.claims ==>
              Apply(cfg, s, Revive(jitters)).rows[k.0] == s.rows[k.0]
  {
    forall a, b | a in s.claims && b in s.claims && a.0 == b.0 ensures a == b { SoleHolder(s, a, b); }
    forall jitters, k | Enabled(s, Revive(jitters)) && Timely(cfg, s, Revive(jitters)) && k in s.claims
      ensures Apply(cfg, s, Revive(jitters)).rows[k.0] == s.rows[k.0]
    {
      assert ClaimInv(s, k);
      SweepKeepsHeld(cfg, s, Revive(jitters), k);
    }
  }

  // ---------- stranded rows ----------

  /** The row is FAILED with no attempts left. */
  predicate Limbo(r: Row) { r.status.Failed? && r.attemptCount >= r.maxAttempts }

  predicate NoLimbo(t: Table) { forall id :: id in t ==> !Limbo(t[id]) }

  /** A retryable failure, judged on its snapshot, uses up the last attempt of a row. */
  predicate Strands(s: State, step: Step)
    requires Enabled(s, step)
  {
    && step.ResolveFailure? && !GivesUp(s.claims[step.key])
    && step.key.0 in s.rows && s.rows[step.key.0].status.Publishing?
    && s.rows[step.key.0].attemptCount + 1 == s.rows[step.key.0].maxAttempts
  }

  /**
   Exactly which step strands a row: a retryable failure, resolved from a snapshot that still had attempts to spare,
   landing on a row that has one attempt left. The snapshot is then necessarily an earlier claim than the row's
   current one.
   */
  lemma {:induction false} StrandedExactlyByStaleFailure(cfg: Config, s: State, step: Step, id: Id)
    requires Inv(s) && Enabled(s, step)
    requires id in s.rows && !Limbo(s.rows[id]) && id in Apply(cfg, s, step).rows
    ensures Limbo(Apply(cfg, s, step).rows[id]) <==> Strands(s, step) && step.key.0 == id
    ensures Limbo(Apply(cfg, s, step).rows[id]) ==> step.key.1 < s.rows[id].attemptCount
  {
    assert RowInv(s, id);
    if step.ResolveFailure? {
      assert ClaimInv(s, step.key);
      FailureStrandsIff(cfg, s, step, id);
    } else {
      OthersDoNotStrand(cfg, s, step, id);
    }
  }

  lemma {:induction false} FailureStrandsIff(cfg: Config, s: State, step: Step, id: Id)
    requires Enabled(s, step) && step.ResolveFailure? && ClaimInv(s, step.key)
    requires id in s.rows && RowInv(s, id) && !Limbo(s.rows[id]) && id in Apply(cfg, s, step).rows
    ensures Limbo(Apply(cfg, s, step).rows[id]) <==> Strands(s, step) && step.key.0 == id
    ensures Limbo(Apply(cfg, s, step).rows[id]) ==> step.key.1 < s.rows[id].attemptCount
  {
  }

  lemma {:induction false} OthersDoNotStrand(cfg: Config, s: State, step: Step, id: Id)
    requires Enabled(s, step) && !step.ResolveFailure?
    requires id in s.rows && RowInv(s, id) && !Limbo(s.rows[id]) && id in Apply(cfg, s, step).rows
    ensures !Limbo(Apply(cfg, s, step).rows[id])
  {
  }

  /** A stranded row never changes again. */
  lemma {:induction false} StrandedForever(cfg: Config, s: State, run: seq<Step>, id: Id)
    requires Inv(s) && Valid(cfg, s, run)
    requires id in s.rows && Limbo(s.rows[id])
    ensures id in Final(cfg, s, run).rows && Final(cfg, s, run).rows[id] == s.rows[id]
    decreases |run|
  {
    if run == [] {
    } else {
      KeysCommitted(s);
      StepFollowsDiagram(cfg, s, run[0], id);
      StepKeepsInv(cfg, s, run[0]);
      StrandedForever(cfg, Apply(cfg, s, run[0]), run[1..], id);
    }
  }

  ghost predicate Finishes(cfg: Config, s: State, run: seq<Step>, id: Id)
  {
    && Valid(cfg, s, run)
    && id in Final(cfg, s, run).rows
    && Final(cfg, s, run).rows[id].status.Terminal()
  }

  function Later(a: real, b: real): real { if a <= b then b else a }

  /** One more leg of a row's way to a terminal status, using only the clock, requeue, a claim and crash recovery. */
  function NextLeg(cfg: Config, s: State, id: Id): seq<Step>
    requires id in s.rows && (s.rows[id].status.Failed? ==> s.rows[id].nextRetryAt.Some?)
  {
    var r := s.rows[id];
    match r.status
    case Enqueued => [ClaimSome(0, {id})]
    case Failed => [Tick(Later(s.now, r.nextRetryAt.value)), Requeue]
    case Publishing =>
      [Tick(Later(s.now, r.updatedAt + WholeSeconds(cfg.stuckThreshold) as real + 1.0)),
       Revive(map i | i in s.rows :: 0.5)]
    case Published => []
    case Dead => []
  }

  /** A leg can be walked, and it ends where its one or two steps lead. */
  lemma {:induction false} LegIsValid(cfg: Config, s: State, id: Id)
    requires Inv(s)
    requires id in s.rows && !s.rows[id].status.Terminal() && !Limbo(s.rows[id])
    ensures s.rows[id].status.Failed? ==> s.rows[id].nextRetryAt.Some?
    ensures var leg := NextLeg(cfg, s, id);
            && Valid(cfg, s, leg)
            && (|leg| == 1 ==> Final(cfg, s, leg) == Apply(cfg, s, leg[0]))
            && (|leg| == 2 ==> Enabled(Apply(cfg, s, leg[0]), leg[1]) &&
                               Final(cfg, s, leg) == Apply(cfg, Apply(cfg, s, leg[0]), leg[1]))
  {
    assert RowInv(s, id);
    var leg := NextLeg(cfg, s, id);
    if |leg| == 1 {
      OneStep(cfg, s, leg[0]);
      assert leg == [leg[0]];
    } else {
      OneStep(cfg, Apply(cfg, s, leg[0]), leg[1]);
      assert leg[1..] == [leg[1]];
    }
  }

  /** What a leg makes of the row. */
  predicate LegResult(cfg: Config, r: Row, r': Row)
  {
    match r.status
    case Enqueued => r' == ToPublishing(r, r'.updatedAt)
    case Failed => r' == ToEnqueued(r, r'.updatedAt)
    case Publishing => r' == Revived(cfg, r, r'.updatedAt, 0.5)
    case Published => false
    case Dead => false
  }

  lemma {:induction false} LegRow(cfg: Config, s: State, id: Id)
    requires Inv(s)
    requires id in s.rows && !s.rows[id].status.Terminal() && !Limbo(s.rows[id])
    ensures s.rows[id].status.Failed? ==> s.rows[id].nextRetryAt.Some?
    ensures var leg := NextLeg(cfg, s, id);
            Valid(cfg, s, leg) &&
            var s' := Final(cfg, s, leg);
            id in s'.rows && LegResult(cfg, s.rows[id], s'.rows[id])
  {
    LegIsValid(cfg, s, id);
  }

  /** A leg is a step down, and never into limbo. */
  lemma {:induction false} LegResultIsLower(cfg: Config, r: Row, r': Row, n: nat)
    requires Counted(r, n) && !Limbo(r) && LegResult(cfg, r, r')
    ensures !Limbo(r') && 0 <= Potential(r') < Potential(r) && r'.maxAttempts == r.maxAttempts
    ensures r'.status.Terminal() ==> r.status.Publishing? && r.WillExceedMaxAttemptsAfterFailure()
  {
  }

  lemma {:induction false} LegMakesProgress(cfg: Config, s: State, id: Id)
    requires Inv(s)
    requires id in s.rows && !s.rows[id].status.Terminal() && !Limbo(s.rows[id])
    ensures s.rows[id].status.Failed? ==> s.rows[id].nextRetryAt.Some?
    ensures var leg := NextLeg(cfg, s, id);
            Valid(cfg, s, leg) &&
            var s' := Final(cfg, s, leg);
            Inv(s') && id in s'.rows && !Limbo(s'.rows[id]) && 0 <= Potential(s'.rows[id]) < Potential(s.rows[id])
  {
    LegRow(cfg, s, id);
    var leg := NextLeg(cfg, s, id);
    RunKeepsInv(cfg, s, leg);
    assert RowInv(s, id);
    LegResultIsLower(cfg, s.rows[id], Final(cfg, s, leg).rows[id], |History(s, id)|);
  }

  lemma {:induction false} CanFinish(cfg: Config, s: State, id: Id) returns (run: seq<Step>)
    requires Inv(s)
    requires id in s.rows && !Limbo(s.rows[id])
    ensures Finishes(cfg, s, run, id)
    decreases Potential(s.rows[id])
  {
    if s.rows[id].status.Terminal() {
      run := [];
    } else {
      LegMakesProgress(cfg, s, id);
      var leg := NextLeg(cfg, s, id);
      var rest := CanFinish(cfg, Final(cfg, s, leg), id);
      run := leg + rest;
      RunsCompose(cfg, s, leg, rest);
    }
  }

  /** A row can still be brought to PUBLISHED or DEAD if and only if it is not stranded. */
  lemma {:induction false} FinishableIffNotStranded(cfg: Config, s: State, id: Id)
    requires Inv(s) && id in s.rows
    ensures (exists run :: Finishes(cfg, s, run, id)) <==> !Limbo(s.rows[id])
  {
    if Limbo(s.rows[id]) {
      forall run | Valid(cfg, s, run) ensures !Finishes(cfg, s, run, id) { StrandedForever(cfg, s, run, id); }
    } else {
      var run := CanFinish(cfg, s, id);
    }
  }

  ghost predicate StrandsNone(cfg: Config, s: State, run: seq<Step>)
    requires Valid(cfg, s, run)
    decreases |run|
  {
    run == [] || (!Strands(s, run[0]) && StrandsNone(cfg, Apply(cfg, s, run[0]), run[1..]))
  }

  lemma {:induction false} StepStrandsIff(cfg: Config, s: State, step: Step)
    requires Inv(s) && NoLimbo(s.rows) && Enabled(s, step)
    ensures NoLimbo(Apply(cfg, s, step).rows) <==> !Strands(s, step)
  {
    var s' := Apply(cfg, s, step);
    forall id | id in s'.rows ensures Limbo(s'.rows[id]) <==> Strands(s, step) && step.key.0 == id {
      if id in s.rows { StrandedExactlyByStaleFailure(cfg, s, step, id); }
    }
    if Strands(s, step) {
      KeysCommitted(s);
      StepFollowsDiagram(cfg, s, step, step.key.0);
    }
  }

  /** A run leaves some row stranded if and only if one of its steps strands a row. */
  lemma {:induction false} RunStrandsIff(cfg: Config, s: State, run: seq<Step>)
    requires Inv(s) && NoLimbo(s.rows) && Valid(cfg, s, run)
    ensures NoLimbo(Final(cfg, s, run).rows) <==> StrandsNone(cfg, s, run)
    decreases |run|
  {
    if run == [] {
    } else {
      var s' := Apply(cfg, s, run[0]);
      StepKeepsInv(cfg, s, run[0]);
      StepStrandsIff(cfg, s, run[0]);
      if Strands(s, run[0]) {
        var id :| id in s'.rows && Limbo(s'.rows[id]);
        StrandedForever(cfg, s', run[1..], id);
      } else {
        RunStrandsIff(cfg, s', run[1..]);
      }
    }
  }

  lemma {:induction false} FreshRunStrandsNone(cfg: Config, s: State, run: seq<Step>)
    requires Inv(s) && Valid(cfg, s, run) && FreshRun(cfg, s, run)
    ensures StrandsNone(cfg, s, run)
    decreases |run|
  {
    if run == [] {
    } else {
      if run[0].ResolveFailure? { assert ClaimInv(s, run[0].key) && RowInv(s, run[0].key.0); }
      StepKeepsInv(cfg, s, run[0]);
      FreshRunStrandsNone(cfg, Apply(cfg, s, run[0]), run[1..]);
    }
  }

  /**
   After a run whose failures are all fresh, whatever was revived meanwhile, every row in the table can still be
   brought to PUBLISHED or DEAD. Timely runs are such runs.
   */
  lemma {:induction false} FreshRunsNeverStrand(cfg: Config, start: real, run: seq<Step>, id: Id)
    requires Valid(cfg, Init(start), run) && FreshRun(cfg, Init(start), run)
    requires id in Final(cfg, Init(start), run).rows
    ensures exists more :: Finishes(cfg, Final(cfg, Init(start), run), more, id)
  {
    RunKeepsInv(cfg, Init(start), run);
    FreshRunStrandsNone(cfg, Init(start), run);
    RunStrandsIff(cfg, Init(start), run);
    FinishableIffNotStranded(cfg, Final(cfg, Init(start), run), id);
  }

  // ---------- stranding does happen ----------

  /** A leg leaves live claims alone, and gives a row up only from PUBLISHING with one attempt left. */
  lemma {:induction false} LegKeepsClaims(cfg: Config, s: State, id: Id, k: ClaimKey)
    requires Inv(s) && k in s.claims
    requires id in s.rows && !s.rows[id].status.Terminal() && !Limbo(s.rows[id])
    ensures s.rows[id].status.Failed? ==> s.rows[id].nextRetryAt.Some?
    ensures var leg := NextLeg(cfg, s, id);
            Valid(cfg, s, leg) &&
            var s' := Final(cfg, s, leg);
            && k in s'.claims && s'.claims[k] == s.claims[k]
            && (id in s'.rows ==>
                  && s'.rows[id].maxAttempts == s.rows[id].maxAttempts
                  && (s'.rows[id].status.Terminal() ==>
                        s.rows[id].status.Publishing? && s.rows[id].WillExceedMaxAttemptsAfterFailure()))
  {
    LegRow(cfg, s, id);
    assert RowInv(s, id);
    LegResultIsLower(cfg, s.rows[id], Final(cfg, s, NextLeg(cfg, s, id)).rows[id], |History(s, id)|);
    LegKeepsClaim(cfg, s, id, k);
  }

  lemma {:induction false} LegKeepsClaim(cfg: Config, s: State, id: Id, k: ClaimKey)
    requires Inv(s) && k in s.claims
    requires id in s.rows && !s.rows[id].status.Terminal() && !Limbo(s.rows[id])
    ensures s.rows[id].status.Failed? ==> s.rows[id].nextRetryAt.Some?
    ensures var leg := NextLeg(cfg, s, id);
            Valid(cfg, s, leg) && k in Final(cfg, s, leg).claims && Final(cfg, s, leg).claims[k] == s.claims[k]
  {
    LegIsValid(cfg, s, id);
    assert ClaimInv(s, k);
  }

  /**
   A worker that sits on a retryable failure can always strand its row: recovery, requeue and other workers use up
   the attempts but one, and then the late failure uses the last.
   */
  lemma {:induction false} LateFailureCanStrand(cfg: Config, s: State, k: ClaimKey) returns (run: seq<Step>)
    requires Inv(s)
    requires k in s.claims && s.claims[k].outcome == Rejected(true) && !GivesUp(s.claims[k])
    requires k.0 in s.rows && !s.rows[k.0].status.Terminal() && !Limbo(s.rows[k.0])
    ensures Valid(cfg, s, run)
    ensures k.0 in Final(cfg, s, run).rows && Limbo(Final(cfg, s, run).rows[k.0])
    decreases Potential(s.rows[k.0])
  {
    var r := s.rows[k.0];
    assert RowInv(s, k.0) && ClaimInv(s, k);
    if r.status.Publishing? && r.WillExceedMaxAttemptsAfterFailure() {
      var late := ResolveFailure(k, "late", 0.5);
      run := [late];
      OneStep(cfg, s, late);
      StrandedExactlyByStaleFailure(cfg, s, late, k.0);
    } else {
      LegMakesProgress(cfg, s, k.0);
      LegKeepsClaims(cfg, s, k.0, k);
      var leg := NextLeg(cfg, s, k.0);
      var rest := LateFailureCanStrand(cfg, Final(cfg, s, leg), k);
      run := leg + rest;
      RunsCompose(cfg, s, leg, rest);
    }
  }

  lemma {:induction false} PendingClaimCanStrand(cfg: Config, s: State, k: ClaimKey) returns (run: seq<Step>)
    requires Inv(s)
    requires k in s.claims && s.claims[k].outcome.Pending?
    requires !s.claims[k].snapshot.WillExceedMaxAttemptsAfterFailure() && Fits(k.0, s.claims[k].snapshot)
    requires k.0 in s.rows && !s.rows[k.0].status.Terminal() && !Limbo(s.rows[k.0])
    ensures Valid(cfg, s, run)
    ensures k.0 in Final(cfg, s, run).rows && Limbo(Final(cfg, s, run).rows[k.0])
  {
    var publish := Publish(k, false, Rejected(true));
    StepKeepsInv(cfg, s, publish);
    OneStep(cfg, s, publish);
    var rest := LateFailureCanStrand(cfg, Apply(cfg, s, publish), k);
    RunsCompose(cfg, s, [publish], rest);
    run := [publish] + rest;
  }

  /** Any ENQUEUED event with at least two attempts to spare that can be sent at all can end up stranded. */
  lemma {:induction false} EnqueuedCanStrand(cfg: Config, s: State, e: Id) returns (run: seq<Step>)
    requires Inv(s)
    requires e in s.rows && s.rows[e].status.Enqueued? && Fits(e, s.rows[e])
    requires !s.rows[e].WillExceedMaxAttemptsAfterFailure()
    ensures Valid(cfg, s, run)
    ensures e in Final(cfg, s, run).rows && Limbo(Final(cfg, s, run).rows[e])
  {
    var claim := ClaimSome(1, {e});
    StepKeepsInv(cfg, s, claim);
    OneStep(cfg, s, claim);
    var k := (e, |History(s, e)| + 1);
    assert k in NewClaims(s, 1, {e});
    var rest := PendingClaimCanStrand(cfg, Apply(cfg, s, claim), k);
    RunsCompose(cfg, s, [claim], rest);
    run := [claim] + rest;
  }

  /** So some run from the empty table strands a freshly inserted event whose limit is 3 or more. */
  lemma {:induction false} StrandingRun(cfg: Config, e: Id, p: InsertParams) returns (run: seq<Step>)
    requires p.maxAttempts >= 3 && Sendable(p)
    ensures Valid(cfg, Init(0.0), run)
    ensures LeavesStranded(cfg, run, e, p.maxAttempts)
  {
    var insert := Insert(e, p);
    StepKeepsInv(cfg, Init(0.0), insert);
    OneStep(cfg, Init(0.0), insert);
    var rest := EnqueuedCanStrand(cfg, Apply(cfg, Init(0.0), insert), e);
    ChangesBounded(cfg, Apply(cfg, Init(0.0), insert), rest, e);
    RunsCompose(cfg, Init(0.0), [insert], rest);
    run := [insert] + rest;
  }

  predicate LimboIsRoomy(t: Table) { forall id :: id in t && Limbo(t[id]) ==> t[id].maxAttempts >= 3 }

  lemma {:induction false} StepKeepsLimboRoomy(cfg: Config, s: State, step: Step)
    requires Inv(s) && Enabled(s, step) && LimboIsRoomy(s.rows)
    ensures LimboIsRoomy(Apply(cfg, s, step).rows)
  {
    var s' := Apply(cfg, s, step);
    KeysCommitted(s);
    forall id | id in s'.rows && Limbo(s'.rows[id]) ensures s'.rows[id].maxAttempts >= 3 {
      if id in s.rows {
        StepFollowsDiagram(cfg, s, step, id);
        if !Limbo(s.rows[id]) {
          StrandedExactlyByStaleFailure(cfg, s, step, id);
          assert ClaimInv(s, step.key);
        }
      }
    }
  }

  lemma {:induction false} RunKeepsLimboRoomy(cfg: Config, s: State, run: seq<Step>)
    requires Inv(s) && Valid(cfg, s, run) && LimboIsRoomy(s.rows)
    ensures LimboIsRoomy(Final(cfg, s, run).rows)
    decreases |run|
  {
    if run == [] {
    } else {
      StepKeepsLimboRoomy(cfg, s, run[0]);
      StepKeepsInv(cfg, s, run[0]);
      RunKeepsLimboRoomy(cfg, Apply(cfg, s, run[0]), run[1..]);
    }
  }

  /** The run leaves an event with limit `m` stranded. */
  ghost predicate LeavesStranded(cfg: Config, run: seq<Step>, e: Id, m: nat)
  {
    && Valid(cfg, Init(0.0), run)
    && e in Final(cfg, Init(0.0), run).rows
    && Final(cfg, Init(0.0), run).rows[e].maxAttempts == m
    && Limbo(Final(cfg, Init(0.0), run).rows[e])
  }

  /** An event can be stranded if and only if its max_attempts is 3 or more. */
  lemma {:induction false} StrandableIffThreeAttempts(cfg: Config, m: nat)
    ensures (exists run, e :: LeavesStranded(cfg, run, e, m)) <==> m >= 3
  {
    if m >= 3 {
      var p := InsertParams("", "", "", "", m);
      var run := StrandingRun(cfg, "e", p);
      assert LeavesStranded(cfg, run, "e", m);
    }
    forall run, e | LeavesStranded(cfg, run, e, m) ensures m >= 3 {
      RunKeepsLimboRoomy(cfg, Init(0.0), run);
    }
  }
}
