/**
 The transactional inbox handlers (order.confirmed and user.registered) as they run against the database, and when a
 call is a run of the consumer's steps.
 */
module Handler {
  import opened Consumer

  /** Where a call may be cut short. A lost commit reply means that the transaction did commit. */
  datatype Fault = NoFault | EarlyFailure | InsertFailure | CompleteFailure | CommitFailure | CommitReplyLost

  /** What a call leaves in the inbox and in the effect table, and whether it returns nil. */
  datatype Result = Result(inbox: set<InboxKey>, effects: set<InboxKey>, ok: bool)

  function Handled(inbox: set<InboxKey>, effects: set<InboxKey>, k: InboxKey, fault: Fault): Result
  {
    if fault.EarlyFailure? then Result(inbox, effects, false)
    else if k in inbox then Result(inbox, effects, true)
    else if k in effects || fault.InsertFailure? || fault.CompleteFailure? || fault.CommitFailure? then
      Result(inbox, effects, false)
    else Result(inbox + {k}, effects + {k}, !fault.CommitReplyLost?)
  }

  /** One effect row per event in the consumer's own table: an order confirmation or a welcome credit. */
  datatype Effect = OrderConfirmation(orderId: string, quantity: int) | WelcomeCredit(userId: string, amount: int)

  class Database {
    var inbox: map<InboxKey, real>      // completed_at
    var effects: map<InboxKey, Effect>

    method IsProcessed(k: InboxKey) returns (processed: bool)
      ensures processed <==> k in inbox
    {
      processed := k in inbox;
    }

    /** INSERT ... ON CONFLICT DO NOTHING: the first completion time stays. */
    method Complete(k: InboxKey, now: real)
      modifies this`inbox
      ensures inbox == if k in old(inbox) then old(inbox) else old(inbox)[k := now]
    {
      if k !in inbox {
        inbox := inbox[k := now];
      }
    }

    method DeleteOlderThan(olderThan: real, now: real) returns (n: nat)
      modifies this`inbox
      ensures inbox == map k | k in old(inbox) && !(old(inbox)[k] < now - olderThan) :: old(inbox)[k]
      ensures n == |old(inbox).Keys - inbox.Keys|
    {
      var kept := map k | k in inbox && !(inbox[k] < now - olderThan) :: inbox[k];
      n := |inbox.Keys - kept.Keys|;
      inbox := kept;
    }

    /** Begin, check, insert, complete, commit; anything but a commit leaves the tables as they were. */
    method Handle(consumer: string, msg: SQSMessage, effect: Effect, now: real, fault: Fault) returns (ok: bool)
      modifies this
      ensures var r := Handled(old(inbox.Keys), old(effects.Keys), (consumer, msg.eventId), fault);
              inbox.Keys == r.inbox && effects.Keys == r.effects && ok == r.ok
      ensures forall k :: k in old(effects) ==> effects[k] == old(effects)[k]
      ensures forall k :: k in old(inbox) ==> inbox[k] == old(inbox)[k]
      ensures (consumer, msg.eventId) in effects.Keys - old(effects.Keys) ==> effects[(consumer, msg.eventId)] == effect
    {
      var k := (consumer, msg.eventId);
      if fault.EarlyFailure? { return false; }
      var processed := IsProcessed(k);
      if processed { return true; }
      var beganInbox, beganEffects := inbox, effects;
      if fault.InsertFailure? || k in effects { return false; }
      effects := effects[k := effect];
      if !fault.CompleteFailure? {
        Complete(k, now);
      }
      if fault.CompleteFailure? || fault.CommitFailure? {
        inbox, effects := beganInbox, beganEffects;
        return false;
      }
      ok := !fault.CommitReplyLost?;
    }
  }

  // ---------- the call as steps ----------

  function CallSteps(cfg: Config, s: State, d: nat, fault: Fault): seq<Step>
    requires d in s.deliveries
  {
    if fault.EarlyFailure? then [Fail(d)]
    else if Key(cfg, s, d) in s.inbox then [CheckInbox(d)]
    else if fault.InsertFailure? then [CheckInbox(d), Fail(d)]
    else if HasEffect(s, Key(cfg, s, d)) then [CheckInbox(d), InsertEffect(d)]
    else [CheckInbox(d), InsertEffect(d)] + Rest(d, fault)
  }

  function EffectKeys(s: State): (ks: set<InboxKey>)
    ensures forall k :: k in ks <==> HasEffect(s, k)
  {
    set i | 0 <= i < |s.effects| :: s.effects[i].key
  }

  predicate Walks(cfg: Config, s: State, run: seq<Step>)
    decreases |run|
  {
    run == [] || (Enabled(cfg, s, run[0]) && Walks(cfg, Apply(cfg, s, run[0]), run[1..]))
  }

  function End(cfg: Config, s: State, run: seq<Step>): State
    requires Walks(cfg, s, run)
    decreases |run|
  {
    if run == [] then s else End(cfg, Apply(cfg, s, run[0]), run[1..])
  }

  lemma {:induction false} Take(cfg: Config, s: State, step: Step, rest: seq<Step>)
    requires Enabled(cfg, s, step) && Walks(cfg, Apply(cfg, s, step), rest)
    ensures Walks(cfg, s, [step] + rest) && End(cfg, s, [step] + rest) == End(cfg, Apply(cfg, s, step), rest)
  {
    assert ([step] + rest)[1..] == rest;
  }

  lemma {:induction false} TakeLast(cfg: Config, s: State, step: Step)
    requires Enabled(cfg, s, step)
    ensures Walks(cfg, s, [step]) && End(cfg, s, [step]) == Apply(cfg, s, step)
  {
    Take(cfg, s, step, []);
    assert [step] + [] == [step];
  }

  /** What the steps of a call leave is what the call leaves: same inbox, same effect rows, same reply. */
  predicate Ends(d: nat, t: State, r: Result)
  {
    t.inbox == r.inbox && EffectKeys(t) == r.effects && In(t, d, Returned(r.ok))
  }

  /** No other open transaction has inserted a row with the key of delivery `d`. */
  predicate Undisturbed(cfg: Config, s: State, d: nat)
    requires d in s.deliveries
  {
    forall o :: o in s.deliveries && Holds(s, o) ==> Key(cfg, s, o) != Key(cfg, s, d)
  }

  /** The call gets as far as inserting its effect row. */
  predicate Inserts(cfg: Config, s: State, d: nat, fault: Fault)
    requires d in s.deliveries
  {
    && !fault.EarlyFailure? && !fault.InsertFailure?
    && Key(cfg, s, d) !in s.inbox && !HasEffect(s, Key(cfg, s, d))
  }

  lemma {:induction false} CommitLeg(cfg: Config, s: State, d: nat, replied: bool)
    requires In(s, d, Inserted)
    ensures var run := [CompleteInbox(d), Commit(d, replied)];
            && Walks(cfg, s, run)
            && Ends(d, End(cfg, s, run),
                 Result(s.inbox + {Key(cfg, s, d)}, EffectKeys(s) + {Key(cfg, s, d)}, replied))
  {
    var s1 := Apply(cfg, s, CompleteInbox(d));
    var s2 := Apply(cfg, s1, Commit(d, replied));
    TakeLast(cfg, s1, Commit(d, replied));
    Take(cfg, s, CompleteInbox(d), [Commit(d, replied)]);
    forall k ensures k in EffectKeys(s2) <==> k in EffectKeys(s) + {Key(cfg, s, d)} {
      EffectsGrow(cfg, s1, Commit(d, replied), k);
      assert EffectKeys(s1) == EffectKeys(s);
    }
  }

  lemma {:induction false} RollbackLeg(cfg: Config, s: State, d: nat, completed: bool)
    requires In(s, d, Inserted)
    ensures var run := if completed then [CompleteInbox(d), Fail(d)] else [Fail(d)];
            && Walks(cfg, s, run)
            && Ends(d, End(cfg, s, run), Result(s.inbox, EffectKeys(s), false))
  {
    if completed {
      TakeLast(cfg, Apply(cfg, s, CompleteInbox(d)), Fail(d));
      Take(cfg, s, CompleteInbox(d), [Fail(d)]);
    } else {
      TakeLast(cfg, s, Fail(d));
    }
  }

  /** What is left of a call once its effect row is in. */
  function Rest(d: nat, fault: Fault): seq<Step>
  {
    if fault.CompleteFailure? then [Fail(d)]
    else if fault.CommitFailure? then [CompleteInbox(d), Fail(d)]
    else [CompleteInbox(d), Commit(d, !fault.CommitReplyLost?)]
  }

  lemma {:induction false} InsertingCallIsARun(cfg: Config, s: State, d: nat, fault: Fault)
    requires In(s, d, Received) && Undisturbed(cfg, s, d)
    requires Inserts(cfg, s, d, fault)
    ensures Walks(cfg, s, CallSteps(cfg, s, d, fault))
    ensures Ends(d, End(cfg, s, CallSteps(cfg, s, d, fault)),
              Handled(s.inbox, EffectKeys(s), Key(cfg, s, d), fault))
  {
    var s1 := Apply(cfg, s, CheckInbox(d));
    assert Enabled(cfg, s1, InsertEffect(d));
    var s2 := Apply(cfg, s1, InsertEffect(d));
    assert EffectKeys(s2) == EffectKeys(s) && Key(cfg, s2, d) == Key(cfg, s, d);
    if fault.CompleteFailure? || fault.CommitFailure? {
      RollbackLeg(cfg, s2, d, fault.CommitFailure?);
    } else {
      CommitLeg(cfg, s2, d, !fault.CommitReplyLost?);
    }
    Take(cfg, s1, InsertEffect(d), Rest(d, fault));
    Take(cfg, s, CheckInbox(d), [InsertEffect(d)] + Rest(d, fault));
    assert CallSteps(cfg, s, d, fault) == [CheckInbox(d)] + ([InsertEffect(d)] + Rest(d, fault));
  }

  /** A call that ends before it inserts anything. */
  lemma {:induction false} ShortCallIsARun(cfg: Config, s: State, d: nat, fault: Fault)
    requires In(s, d, Received) && !Inserts(cfg, s, d, fault)
    ensures Walks(cfg, s, CallSteps(cfg, s, d, fault))
    ensures Ends(d, End(cfg, s, CallSteps(cfg, s, d, fault)),
              Handled(s.inbox, EffectKeys(s), Key(cfg, s, d), fault))
  {
    if fault.EarlyFailure? {
      TakeLast(cfg, s, Fail(d));
    } else if Key(cfg, s, d) in s.inbox {
      TakeLast(cfg, s, CheckInbox(d));
    } else {
      RejectedCallIsARun(cfg, s, d, fault);
    }
  }

  lemma {:induction false} RejectedCallIsARun(cfg: Config, s: State, d: nat, fault: Fault)
    requires In(s, d, Received) && Key(cfg, s, d) !in s.inbox && !fault.EarlyFailure?
    requires fault.InsertFailure? || HasEffect(s, Key(cfg, s, d))
    ensures Walks(cfg, s, CallSteps(cfg, s, d, fault))
    ensures Ends(d, End(cfg, s, CallSteps(cfg, s, d, fault)), Result(s.inbox, EffectKeys(s), false))
  {
    var s1 := Apply(cfg, s, CheckInbox(d));
    var last := if fault.InsertFailure? then Fail(d) else InsertEffect(d);
    TakeLast(cfg, s1, last);
    Take(cfg, s, CheckInbox(d), [last]);
    assert CallSteps(cfg, s, d, fault) == [CheckInbox(d)] + [last];
  }

  /** A call that has to wait for another open insert cannot go straight through. */
  lemma {:induction false} DisturbedCallWaits(cfg: Config, s: State, d: nat, fault: Fault)
    requires In(s, d, Received) && Inserts(cfg, s, d, fault) && !Undisturbed(cfg, s, d)
    ensures !Walks(cfg, s, CallSteps(cfg, s, d, fault))
  {
    var s1 := Apply(cfg, s, CheckInbox(d));
    var o :| o in s.deliveries && Holds(s, o) && Key(cfg, s, o) == Key(cfg, s, d);
    assert Holds(s1, o) && Key(cfg, s1, o) == Key(cfg, s1, d);
    var run := CallSteps(cfg, s, d, fault);
    assert run[0] == CheckInbox(d) && run[1..][0] == InsertEffect(d);
  }

  /**
   A call, however it is cut short, goes straight through as a run of the step system if and only if it does not have to
   wait for another open insert of its key, and then it has the same outcome.
   */
  lemma {:induction false} CallIsARun(cfg: Config, s: State, d: nat, fault: Fault)
    requires In(s, d, Received)
    ensures Walks(cfg, s, CallSteps(cfg, s, d, fault)) <==> (Inserts(cfg, s, d, fault) ==> Undisturbed(cfg, s, d))
    ensures Walks(cfg, s, CallSteps(cfg, s, d, fault)) ==>
              Ends(d, End(cfg, s, CallSteps(cfg, s, d, fault)),
                Handled(s.inbox, EffectKeys(s), Key(cfg, s, d), fault))
  {
    if !Inserts(cfg, s, d, fault) {
      ShortCallIsARun(cfg, s, d, fault);
    } else if Undisturbed(cfg, s, d) {
      InsertingCallIsARun(cfg, s, d, fault);
    } else {
      DisturbedCallWaits(cfg, s, d, fault);
    }
  }

  /**
   How a wait ends. Once the other delivery commits, the insert collides and the call fails with the event in effect;
   once it rolls back or crashes, the insert goes ahead.
   */
  lemma {:induction false} WaitEnds(cfg: Config, s: State, d: nat, o: nat, step: Step)
    requires OneHolder(cfg, s) && In(s, d, Checked) && !HasEffect(s, Key(cfg, s, d))
    requires Holds(s, o) && Key(cfg, s, o) == Key(cfg, s, d)
    requires Enabled(cfg, s, step) && (step == Fail(o) || step == Crash(o) || (step.Commit? && step.d == o))
    ensures var s' := Apply(cfg, s, step);
            && !Enabled(cfg, s, InsertEffect(d))
            && Enabled(cfg, s', InsertEffect(d))
            && In(Apply(cfg, s', InsertEffect(d)), d, if step.Commit? then Returned(false) else Inserted)
            && (step.Commit? ==> Key(cfg, s, d) in s'.inbox && HasEffect(s', Key(cfg, s, d)))
  {
    var s' := Apply(cfg, s, step);
    EffectsGrow(cfg, s, step, Key(cfg, s, d));
    assert d != o;
    forall x | x in s'.deliveries && Holds(s', x) ensures Key(cfg, s', x) != Key(cfg, s', d) || step.Commit? {
      if !step.Commit? { assert x != o && Holds(s, x); }
    }
  }
}
