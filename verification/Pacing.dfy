/** Exponential backoff over whole runs: how early a row can be claimed for the k-th time. */
module Pacing {
  import opened Prelude
  import opened OutboxTable
  import opened Protocol
  import opened Accounting

  predicate Backs(cfg: Config) { cfg.backoffBase >= 0.0 && cfg.backoffMax >= 0.0 }

  /** The longest wait after the j-th claim: min(base * 2^j, cap), the upper end of the jitter. */
  function MostWait(cfg: Config, j: nat): real
  {
    MinReal(cfg.backoffBase * Pow2(j) as real, cfg.backoffMax)
  }

  /** The shortest wait after the j-th claim: half of min(base * 2^j, cap), the lower end of the jitter. */
  function LeastWait(cfg: Config, j: nat): real
  {
    MinReal(cfg.backoffBase * Pow2(j) as real, cfg.backoffMax) * 0.5
  }

  /** The backoff starts at the base and doubles with every attempt until it reaches the cap. */
  lemma {:induction false} BackoffDoubles(cfg: Config, n: nat)
    requires Backs(cfg)
    ensures CappedBackoff(cfg, 0) == MinReal(cfg.backoffBase, cfg.backoffMax)
    ensures CappedBackoff(cfg, n + 1) == MinReal(2.0 * CappedBackoff(cfg, n), cfg.backoffMax)
  {
    assert cfg.backoffBase * Pow2(0) as real == cfg.backoffBase;
    ScaledNonNegative(cfg.backoffBase, Pow2(n));
    assert Pow2(n + 1) as real == 2.0 * Pow2(n) as real;
    Regroup(cfg.backoffBase, Pow2(n) as real);
  }

  lemma {:induction false} Regroup(a: real, b: real)
    ensures a * (2.0 * b) == 2.0 * (a * b)
  {
  }

  lemma {:induction false} ScaleBounds(c: real, half: real, delay: real, j: real)
    requires c >= 0.0 && 0.5 <= j <= 1.0
    requires half == c * 0.5 && delay == Times(c, j)
    ensures 0.0 <= half <= delay <= c
  {
    assert c * (j - 0.5) >= 0.0;
    assert c * (1.0 - j) >= 0.0;
  }

  lemma {:induction false} ScaledNonNegative(a: real, p: nat)
    requires a >= 0.0
    ensures a * p as real >= 0.0
  {
  }

  lemma {:induction false} BackoffNonNegative(cfg: Config, n: nat)
    requires Backs(cfg)
    ensures CappedBackoff(cfg, n) >= 0.0
  {
    ScaledNonNegative(cfg.backoffBase, Pow2(n));
  }

  lemma {:induction false} DelayAtLeastHalf(cfg: Config, n: nat, jitter: real)
    requires Backs(cfg) && Jitter(jitter)
    ensures 0.0 <= LeastWait(cfg, n) <= RetryDelay(cfg, n, jitter) <= MostWait(cfg, n)
  {
    BackoffNonNegative(cfg, n);
    ScaleBounds(CappedBackoff(cfg, n), LeastWait(cfg, n), RetryDelay(cfg, n, jitter), jitter);
  }

  /** The jitter spreads retries over the whole range: every wait from half to all of the backoff comes up. */
  lemma {:induction false} JitterSpreads(cfg: Config, n: nat, w: real) returns (jitter: real)
    requires 0.0 < MostWait(cfg, n) && LeastWait(cfg, n) <= w < MostWait(cfg, n)
    ensures Jitter(jitter) && RetryDelay(cfg, n, jitter) == w
  {
    jitter := Share(CappedBackoff(cfg, n), w);
  }

  lemma {:induction false} Share(cap: real, w: real) returns (jitter: real)
    requires 0.0 < cap && cap * 0.5 <= w < cap
    ensures 0.5 <= jitter < 1.0 && Times(cap, jitter) == w
  {
    jitter := Quotient(cap, w);
    ShareIsJitter(cap, w, jitter);
  }

  lemma {:induction false} Quotient(cap: real, w: real) returns (q: real)
    requires cap > 0.0
    ensures cap * q == w
  {
    q := w / cap;
  }

  lemma {:induction false} ShareIsJitter(cap: real, w: real, jitter: real)
    requires 0.0 < cap && cap * 0.5 <= w < cap && cap * jitter == w
    ensures 0.5 <= jitter < 1.0
  {
    if jitter < 0.5 { Product(cap, jitter, 0.5); }
    if jitter >= 1.0 { Product(cap, 1.0, jitter); }
  }

  lemma {:induction false} Product(a: real, b: real, c: real)
    requires 0.0 < a && b <= c
    ensures a * b <= a * c && (b < c ==> a * b < a * c)
  {
    assert a * (c - b) >= 0.0;
  }

  // ---------- pacing by any waits the retry delays respect ----------

  /** No retry delay is shorter than the wait for its attempt. */
  ghost predicate Respected(cfg: Config, w: nat -> real)
  {
    forall j, jitter :: Jitter(jitter) ==> 0.0 <= w(j) <= RetryDelay(cfg, j, jitter)
  }

  /** Consecutive claims are at least the wait apart. */
  predicate Spaced(w: nat -> real, h: seq<real>)
  {
    forall i :: 0 <= i < |h| - 1 ==> h[i] + w(i + 1) <= h[i + 1]
  }

  /** A row that has been claimed before is held back until its next claim is due. */
  predicate HeldBack(r: Row, due: real, now: real)
  {
    && (r.status.Enqueued? ==> due <= now)
    && (r.status.Failed? ==> r.nextRetryAt.Some? && due <= r.nextRetryAt.value)
  }

  predicate Paced(w: nat -> real, s: State, id: Id)
  {
    var h := History(s, id);
    && Spaced(w, h)
    && (h != [] ==> h[|h| - 1] <= s.now)
    && (h != [] && id in s.rows ==> HeldBack(s.rows[id], h[|h| - 1] + w(|h|), s.now))
  }

  lemma {:induction false} FailureHoldsBack(
    cfg: Config, w: nat -> real, r: Row, message: string, last: real, now: real, jitter: real)
    requires Respected(cfg, w) && Jitter(jitter) && last <= now
    ensures HeldBack(ToFailed(cfg, r, message, now, jitter), last + w(r.attemptCount), now)
    ensures HeldBack(Revived(cfg, r, now, jitter), last + w(r.attemptCount), now)
  {
    assert w(r.attemptCount) <= RetryDelay(cfg, r.attemptCount, jitter);
  }

  /** What recording a failure does to a row. */
  lemma {:induction false} FailureMovesRow(cfg: Config, s: State, step: Step, id: Id)
    requires Enabled(s, step) && step.ResolveFailure?
    ensures var s' := Apply(cfg, s, step);
            && History(s', id) == History(s, id) && s'.now == s.now && (id in s'.rows <==> id in s.rows)
            && (id in s.rows ==>
                  || s'.rows[id] == s.rows[id] || s'.rows[id].status.Dead?
                  || (&& s.rows[id].status.Publishing?
                      && s'.rows[id] == ToFailed(cfg, s.rows[id], step.message, s.now, step.jitter)))
  {
  }

  lemma {:induction false} FailureKeepsPace(cfg: Config, w: nat -> real, s: State, step: Step, id: Id)
    requires Respected(cfg, w) && Enabled(s, step) && Local(s, step, id) && step.ResolveFailure?
    requires Paced(w, s, id)
    ensures Paced(w, Apply(cfg, s, step), id)
  {
    var h := History(s, id);
    FailureMovesRow(cfg, s, step, id);
    if id in s.rows && h != [] {
      FailureHoldsBack(cfg, w, s.rows[id], step.message, h[|h| - 1], s.now, step.jitter);
    }
  }

  lemma {:induction false} ReviveKeepsPace(cfg: Config, w: nat -> real, s: State, step: Step, id: Id)
    requires Respected(cfg, w) && Enabled(s, step) && Local(s, step, id) && step.Revive?
    requires Paced(w, s, id)
    ensures Paced(w, Apply(cfg, s, step), id)
  {
    var h := History(s, id);
    if id in s.rows && h != [] {
      FailureHoldsBack(cfg, w, s.rows[id], "", h[|h| - 1], s.now, step.jitters[id]);
    }
  }

  /** A claim adds the present instant to the history of the rows it takes. */
  lemma {:induction false} ClaimExtendsHistory(cfg: Config, s: State, step: Step, id: Id)
    requires Enabled(s, step) && step.ClaimSome?
    ensures History(Apply(cfg, s, step), id) ==
              if id in step.ids && id in s.history then History(s, id) + [s.now] else History(s, id)
  {
  }

  lemma {:induction false} SpacingExtends(w: nat -> real, h: seq<real>, now: real)
    requires Spaced(w, h) && (h != [] ==> h[|h| - 1] + w(|h|) <= now)
    ensures Spaced(w, h + [now])
  {
  }

  lemma {:induction false} ClaimKeepsPace(cfg: Config, w: nat -> real, s: State, step: Step, id: Id)
    requires Enabled(s, step) && Local(s, step, id) && step.ClaimSome?
    requires Paced(w, s, id)
    ensures Paced(w, Apply(cfg, s, step), id)
  {
    ClaimExtendsHistory(cfg, s, step, id);
    if id in step.ids { SpacingExtends(w, History(s, id), s.now); }
  }

  lemma {:induction false} StepKeepsPace(cfg: Config, w: nat -> real, s: State, step: Step, id: Id)
    requires Respected(cfg, w) && Enabled(s, step) && Local(s, step, id)
    requires Paced(w, s, id)
    ensures Paced(w, Apply(cfg, s, step), id)
  {
    match step
    case ResolveFailure(_, _, _) => FailureKeepsPace(cfg, w, s, step, id);
    case Revive(_) => ReviveKeepsPace(cfg, w, s, step, id);
    case ClaimSome(_, _) => ClaimKeepsPace(cfg, w, s, step, id);
    case Requeue => RequeueKeepsPace(cfg, w, s, step, id);
    case _ => OtherwiseKeepsPace(cfg, w, s, step, id);
  }

  /** What is due may be requeued. */
  lemma {:induction false} RequeueKeepsPace(cfg: Config, w: nat -> real, s: State, step: Step, id: Id)
    requires Enabled(s, step) && step.Requeue? && Paced(w, s, id)
    ensures Paced(w, Apply(cfg, s, step), id)
  {
    assert History(Apply(cfg, s, step), id) == History(s, id);
  }

  lemma {:induction false} OtherwiseKeepsPace(cfg: Config, w: nat -> real, s: State, step: Step, id: Id)
    requires Enabled(s, step) && Local(s, step, id) && Paced(w, s, id)
    requires !step.ResolveFailure? && !step.Revive? && !step.ClaimSome? && !step.Requeue?
    ensures Paced(w, Apply(cfg, s, step), id)
  {
    var s' := Apply(cfg, s, step);
    assert id in s.committed ==> History(s', id) == History(s, id);
  }

  lemma {:induction false} RunKeepsPace(cfg: Config, w: nat -> real, s: State, run: seq<Step>, id: Id)
    requires Respected(cfg, w) && Inv(s) && Valid(cfg, s, run)
    requires Paced(w, s, id)
    ensures Paced(w, Final(cfg, s, run), id)
    decreases |run|
  {
    if run == [] {
    } else {
      StepKeepsInv(cfg, s, run[0]);
      InvIsLocal(s, run[0], id);
      StepKeepsPace(cfg, w, s, run[0], id);
      RunKeepsPace(cfg, w, Apply(cfg, s, run[0]), run[1..], id);
    }
  }

  /** The sum of the waits after claims 1 .. k-1. */
  function Sum(w: nat -> real, k: nat): real
  {
    if k <= 1 then 0.0 else Sum(w, k - 1) + w(k - 1)
  }

  lemma {:induction false} SpacingAddsUp(w: nat -> real, h: seq<real>, k: nat)
    requires Spaced(w, h)
    requires 1 <= k <= |h|
    ensures h[0] + Sum(w, k) <= h[k - 1]
  {
    if k == 1 {
    } else {
      SpacingAddsUp(w, h, k - 1);
      assert h[k - 2] + w(k - 2 + 1) <= h[k - 2 + 1];
    }
  }

  // ---------- the waits of o4x ----------

  /** Half of min(base * 2^j, cap), for each j. */
  function Waits(cfg: Config): nat -> real
  {
    (j: nat) => LeastWait(cfg, j)
  }

  lemma {:induction false} WaitsAreRespected(cfg: Config)
    requires Backs(cfg)
    ensures Respected(cfg, Waits(cfg))
  {
    forall j, jitter | Jitter(jitter) ensures 0.0 <= Waits(cfg)(j) <= RetryDelay(cfg, j, jitter) {
      DelayAtLeastHalf(cfg, j, jitter);
    }
  }

  /** The sum over j = 1 .. k-1 of half of min(base * 2^j, cap). */
  function TotalWait(cfg: Config, k: nat): real
  {
    if k <= 1 then 0.0
    else TotalWait(cfg, k - 1) + MinReal(cfg.backoffBase * Pow2(k - 1) as real, cfg.backoffMax) * 0.5
  }

  lemma {:induction false} SumIsTotal(cfg: Config, k: nat)
    ensures Sum(Waits(cfg), k) == TotalWait(cfg, k)
  {
    if k <= 1 {
    } else {
      SumIsTotal(cfg, k - 1);
      assert Waits(cfg)(k - 1) == LeastWait(cfg, k - 1);
    }
  }

  /**
   In every run, the k-th claim of an event comes no earlier than the sum over j = 1 .. k-1 of half of
   min(base * 2^j, cap) after its first, whether the failures came from workers or from crash recovery.
   */
  lemma {:induction false} KthClaimIsDelayed(cfg: Config, start: real, run: seq<Step>, id: Id, k: nat)
    requires Backs(cfg) && Valid(cfg, Init(start), run)
    requires 1 <= k <= |History(Final(cfg, Init(start), run), id)|
    ensures var h := History(Final(cfg, Init(start), run), id);
            h[0] + TotalWait(cfg, k) <= h[k - 1]
  {
    WaitsAreRespected(cfg);
    RunKeepsPace(cfg, Waits(cfg), Init(start), run, id);
    SpacingAddsUp(Waits(cfg), History(Final(cfg, Init(start), run), id), k);
    SumIsTotal(cfg, k);
  }
}
