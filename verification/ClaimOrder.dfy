/** Claiming n rows in one statement is the same as n successive single claims, oldest first. */
module ClaimOrder {
  import opened Prelude
  import opened OutboxTable

  predicate IsOldest(t: Table, p: Id)
  {
    p in EnqueuedIds(t) && forall b :: b in EnqueuedIds(t) ==> t[p].createdAt <= t[b].createdAt
  }

  lemma {:induction false} SingleClaimIsOldest(t: Table, p: Id)
    ensures Oldest(t, {p}, 1) <==> IsOldest(t, p)
  {
    if p in EnqueuedIds(t) {
      assert EnqueuedIds(t) - {p} + {p} == EnqueuedIds(t);
      assert |EnqueuedIds(t)| >= 1;
    }
  }

  /** The picks a worker gets from claiming one row at a time. */
  predicate Successive(t: Table, picks: seq<Id>, now: real)
    decreases |picks|
  {
    picks == [] || (IsOldest(t, picks[0]) && Successive(ClaimRows(t, {picks[0]}, now), picks[1..], now))
  }

  function ClaimEach(t: Table, picks: seq<Id>, now: real): Table
    decreases |picks|
  {
    if picks == [] then t else ClaimEach(ClaimRows(t, {picks[0]}, now), picks[1..], now)
  }

  lemma {:induction false} ClaimLeavesOthersEnqueued(t: Table, p: Id, now: real)
    requires p in EnqueuedIds(t)
    ensures EnqueuedIds(ClaimRows(t, {p}, now)) == EnqueuedIds(t) - {p}
  {
  }

  /** Successive single claims end in the table of one batch claim. */
  lemma {:induction false} ClaimEachIsClaimRows(t: Table, picks: seq<Id>, now: real)
    ensures ClaimEach(t, picks, now) == ClaimRows(t, Elements(picks), now)
    decreases |picks|
  {
    if picks == [] {
      assert Elements(picks) == {};
      assert ClaimRows(t, {}, now) == t;
    } else {
      var t' := ClaimRows(t, {picks[0]}, now);
      ClaimEachIsClaimRows(t', picks[1..], now);
      assert Elements(picks) == {picks[0]} + Elements(picks[1..]);
      assert ClaimRows(t', Elements(picks[1..]), now) == ClaimRows(t, Elements(picks), now);
    }
  }

  lemma {:induction false} SuccessivePicksAreOldest(t: Table, picks: seq<Id>, now: real)
    requires Successive(t, picks, now)
    ensures Distinct(picks) && Elements(picks) <= EnqueuedIds(t)
    ensures forall a, b :: a in Elements(picks) && b in EnqueuedIds(t) - Elements(picks) ==>
            t[a].createdAt <= t[b].createdAt
    decreases |picks|
  {
    if picks == [] {
    } else {
      var t' := ClaimRows(t, {picks[0]}, now);
      ClaimLeavesOthersEnqueued(t, picks[0], now);
      SuccessivePicksAreOldest(t', picks[1..], now);
      assert Elements(picks) == {picks[0]} + Elements(picks[1..]);
      forall i | 1 <= i < |picks| ensures picks[i] != picks[0] { assert picks[i] in Elements(picks[1..]); }
      forall a, b | a in Elements(picks) && b in EnqueuedIds(t) - Elements(picks)
        ensures t[a].createdAt <= t[b].createdAt
      {
        assert a == picks[0] || a in Elements(picks[1..]);
        assert b in EnqueuedIds(t') - Elements(picks[1..]);
      }
    }
  }

  /** What n successive single claims take is a legal batch claim of n, and the tables agree. */
  lemma {:induction false} SuccessiveClaimsAreABatch(t: Table, picks: seq<Id>, n: nat, now: real)
    requires Successive(t, picks, now)
    requires |picks| == Min(n, |EnqueuedIds(t)|)
    ensures Distinct(picks) && Oldest(t, Elements(picks), n)
    ensures ClaimEach(t, picks, now) == ClaimRows(t, Elements(picks), now)
  {
    SuccessivePicksAreOldest(t, picks, now);
    DistinctSize(picks);
    ClaimEachIsClaimRows(t, picks, now);
  }

  lemma {:induction false} OldestMember(t: Table, ids: set<Id>) returns (p: Id)
    requires ids != {} && ids <= t.Keys
    ensures p in ids && forall a :: a in ids ==> t[p].createdAt <= t[a].createdAt
  {
    p :| p in ids;
    if ids != {p} {
      var q := OldestMember(t, ids - {p});
      if t[q].createdAt <= t[p].createdAt { p := q; }
    }
  }

  lemma {:induction false} BatchIsSuccessiveClaims(t: Table, ids: set<Id>, n: nat, now: real) returns (picks: seq<Id>)
    requires Oldest(t, ids, n)
    ensures Successive(t, picks, now) && Elements(picks) == ids && |picks| == |ids|
    decreases |ids|
  {
    if ids == {} {
      picks := [];
    } else {
      var p := OldestMember(t, ids);
      var t' := ClaimRows(t, {p}, now);
      ClaimLeavesOthersEnqueued(t, p, now);
      var rest := BatchIsSuccessiveClaims(t', ids - {p}, n - 1, now);
      picks := [p] + rest;
    }
  }

  /**
   A set of rows is a legal claim of n rows if and only if some n successive oldest-first single claims take exactly
   it; SuccessiveClaimsAreABatch adds that the tables agree.
   */
  lemma {:induction false} BatchClaimIffSuccessiveClaims(t: Table, ids: set<Id>, n: nat, now: real)
    ensures Oldest(t, ids, n) <==>
              exists picks :: Successive(t, picks, now) && Elements(picks) == ids && |picks| == Min(n, |EnqueuedIds(t)|)
  {
    if Oldest(t, ids, n) {
      var picks := BatchIsSuccessiveClaims(t, ids, n, now);
    }
    if picks :| Successive(t, picks, now) && Elements(picks) == ids && |picks| == Min(n, |EnqueuedIds(t)|) {
      SuccessiveClaimsAreABatch(t, picks, n, now);
    }
  }
}
