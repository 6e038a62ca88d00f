/**
 The consumer side as a step system: an at-least-once queue, concurrent deliveries of the same message, and handlers
 that check the inbox, write their effect and record completion in one transaction.

 A transaction's writes are visible to others only after commit. An insert that collides with a committed row fails;
 one that collides with a row another open transaction has inserted waits, that is, it is not enabled.
 */
module Consumer {
  import opened Prelude
  import opened OutboxTable
  import opened Publisher

  type Uuid = nat
  const NIL_UUID: Uuid := 0

  // ---------- the message on the wire ----------

  datatype Wire = Wire(body: string, attributes: map<AttributeName, string>)

  function OnWire(e: Entry): Wire
  {
    Wire(e.body, e.attributes)
  }

  datatype SQSMessage = SQSMessage(
    body: string, eventType: string, eventId: Uuid, idempotencyKey: string, metadata: string, receiveCount: int)

  function Attribute(w: Wire, name: AttributeName): string
  {
    if name in w.attributes then w.attributes[name] else ""
  }

  /** `parse` is uuid.Parse; an outbox id that does not parse leaves the zero UUID, a missing count leaves 0. */
  function ParseSQSMessage(parse: string -> Option<Uuid>, w: Wire, receiveCount: Option<int>): SQSMessage
  {
    var id := Attribute(w, OutboxIdAttr);
    SQSMessage(
      w.body,
      Attribute(w, EventTypeAttr),
      if id != "" && parse(id).Some? then parse(id).value else NIL_UUID,
      Attribute(w, IdempotencyKeyAttr),
      Attribute(w, MetadataAttr),
      if receiveCount.Some? then receiveCount.value else 0)
  }

  /** What the broker says about how often it has delivered the message; without a word, 0. */
  function BrokerCount(count: Option<int>): int
  {
    match count
    case None => 0
    case Some(n) => n
  }

  /** Publishing then parsing gives back every field and the broker's receive count, on any queue. */
  lemma {:induction false} PublishThenParse(queueURL: string, m: Outbox, parse: string -> Option<Uuid>, rc: Option<int>)
    requires parse(m.id).Some? && m.id != ""
    ensures var msg := ParseSQSMessage(parse, OnWire(BuildEntry(queueURL, m)), rc);
            && msg.eventId == parse(m.id).value
            && msg.body == m.row.payload && msg.eventType == m.row.eventType
            && msg.idempotencyKey == m.row.idempotencyKey && msg.metadata == m.row.metadata
            && msg.receiveCount == BrokerCount(rc)
  {
    if |m.row.metadata| == 0 { assert m.row.metadata == ""; }
  }

  // ---------- state ----------

  datatype Config = Config(parse: string -> Option<Uuid>, consumerOf: string -> string, maxAttempts: int)

  /** PRIMARY KEY (consumer_name, event_id) of the inbox; each consumer's effect table is keyed by event_id. */
  type InboxKey = (string, Uuid)

  function MessageKey(cfg: Config, msg: SQSMessage): InboxKey
  {
    (cfg.consumerOf(msg.eventType), msg.eventId)
  }

  function WireKey(cfg: Config, w: Wire): InboxKey
  {
    MessageKey(cfg, ParseSQSMessage(cfg.parse, w, None))
  }

  /** How far a delivery has got: the open transaction holds its writes until `Returned`. */
  datatype Phase = Received | Checked | Inserted | Completed | Returned(ok: bool)

  /** A delivery with the receive count the broker sent along. */
  datatype Delivery = Delivery(messageId: nat, count: Option<int>, msg: SQSMessage, phase: Phase)

  datatype EffectRow = EffectRow(key: InboxKey, messageId: nat)

  datatype State = State(
    sent: map<nat, Wire>,               // every message the broker has accepted
    queue: set<nat>,                    // messages not deleted yet
    deliveries: map<nat, Delivery>,     // messages being processed
    inbox: set<InboxKey>,
    effects: seq<EffectRow>,            // committed effect rows, in commit order
    handled: set<nat>,                  // messages whose handler returned nil
    dropped: map<nat, Option<int>>,     // messages deleted after failing, with the broker's count of that delivery
    cleaned: bool)                      // old inbox rows have been deleted at some point

  const EMPTY := State(map[], {}, map[], {}, [], {}, map[], false)

  datatype Step =
    | Send(messageId: nat, wire: Wire)
    | Deliver(d: nat, messageId: nat, count: Option<int>)
    | CheckInbox(d: nat)
    | InsertEffect(d: nat)
    | CompleteInbox(d: nat)
    | Commit(d: nat, replied: bool)
    | Fail(d: nat)
    | Acknowledge(d: nat, deleted: bool)
    | Crash(d: nat)
    | CleanInbox(keys: set<InboxKey>)

  function Key(cfg: Config, s: State, d: nat): InboxKey
    requires d in s.deliveries
  {
    MessageKey(cfg, s.deliveries[d].msg)
  }

  predicate HasEffect(s: State, k: InboxKey)
  {
    exists i :: 0 <= i < |s.effects| && s.effects[i].key == k
  }

  /** The delivery's open transaction has inserted its effect row. */
  predicate Holds(s: State, d: nat)
  {
    d in s.deliveries && (s.deliveries[d].phase.Inserted? || s.deliveries[d].phase.Completed?)
  }

  predicate In(s: State, d: nat, p: Phase) { d in s.deliveries && s.deliveries[d].phase == p }

  predicate Enabled(cfg: Config, s: State, step: Step)
  {
    match step
    case Send(m, _) => m !in s.sent
    case Deliver(d, m, _) => m in s.queue && m in s.sent && d !in s.deliveries
    case CheckInbox(d) => In(s, d, Received)
    case InsertEffect(d) =>
      In(s, d, Checked) &&
      (|| HasEffect(s, Key(cfg, s, d))
       || forall o :: o in s.deliveries && Holds(s, o) ==> Key(cfg, s, o) != Key(cfg, s, d))
    case CompleteInbox(d) => In(s, d, Inserted)
    case Commit(d, _) => In(s, d, Completed)
    case Fail(d) => d in s.deliveries && !s.deliveries[d].phase.Returned?
    case Acknowledge(d, _) => d in s.deliveries && s.deliveries[d].phase.Returned?
    case Crash(d) => d in s.deliveries
    case CleanInbox(keys) => keys <= s.inbox
  }

  function Move(s: State, d: nat, p: Phase): State
    requires d in s.deliveries
  {
    s.(deliveries := s.deliveries[d := s.deliveries[d].(phase := p)])
  }

  /** The handler returns nil. */
  function Succeed(s: State, d: nat): State
    requires d in s.deliveries
  {
    Move(s, d, Returned(true)).(handled := s.handled + {s.deliveries[d].messageId})
  }

  function Apply(cfg: Config, s: State, step: Step): State
    requires Enabled(cfg, s, step)
  {
    match step
    case Send(m, wire) => s.(sent := s.sent[m := wire], queue := s.queue + {m})
    case Deliver(d, m, count) =>
      var msg := ParseSQSMessage(cfg.parse, s.sent[m], count);
      s.(deliveries := s.deliveries[d := Delivery(m, count, msg, Received)])
    case CheckInbox(d) => if Key(cfg, s, d) in s.inbox then Succeed(s, d) else Move(s, d, Checked)
    case InsertEffect(d) => if HasEffect(s, Key(cfg, s, d)) then Move(s, d, Returned(false)) else Move(s, d, Inserted)
    case CompleteInbox(d) => Move(s, d, Completed)
    case Commit(d, replied) =>
      var s' := if replied then Succeed(s, d) else Move(s, d, Returned(false));
      s'.(effects := s.effects + [EffectRow(Key(cfg, s, d), s.deliveries[d].messageId)],
          inbox := s.inbox + {Key(cfg, s, d)})
    case Fail(d) => Move(s, d, Returned(false))
    case Acknowledge(d, deleted) =>
      var m, ok := s.deliveries[d].messageId, s.deliveries[d].phase.ok;
      var gone := deleted && (ok || s.deliveries[d].msg.receiveCount >= cfg.maxAttempts);
      s.(deliveries := s.deliveries - {d},
         queue := if gone then s.queue - {m} else s.queue,
         dropped := if gone && !ok then s.dropped[m := s.deliveries[d].count] else s.dropped)
    case Crash(d) => s.(deliveries := s.deliveries - {d})
    case CleanInbox(keys) => s.(inbox := s.inbox - keys, cleaned := true)
  }

  // ---------- invariant ----------

  /** At most one effect row per key, each written for a message with that key. */
  predicate EffectsOk(cfg: Config, s: State)
  {
    && (forall i, j :: 0 <= i < j < |s.effects| ==> s.effects[i].key != s.effects[j].key)
    && (forall i :: 0 <= i < |s.effects| ==>
          s.effects[i].messageId in s.sent && s.effects[i].key == WireKey(cfg, s.sent[s.effects[i].messageId]))
  }

  predicate DeliveryOk(cfg: Config, s: State, d: nat)
    requires d in s.deliveries
  {
    var e := s.deliveries[d];
    && e.messageId in s.sent
    && MessageKey(cfg, e.msg) == WireKey(cfg, s.sent[e.messageId])
    && e.msg.receiveCount == BrokerCount(e.count)
    && (Holds(s, d) ==> !HasEffect(s, Key(cfg, s, d)))
    && (e.phase == Returned(true) ==> e.messageId in s.handled)
  }

  /** The unique index admits only one open insert per key. */
  ghost predicate OneHolder(cfg: Config, s: State)
  {
    forall a, b :: Holds(s, a) && Holds(s, b) && Key(cfg, s, a) == Key(cfg, s, b) ==> a == b
  }

  /** The inbox knows only events that took effect, and all of them unless old rows were deleted. */
  ghost predicate InboxOk(s: State)
  {
    && (forall k :: k in s.inbox ==> HasEffect(s, k))
    && (!s.cleaned ==> forall k :: HasEffect(s, k) ==> k in s.inbox)
  }

  /** The message was deleted after a failed delivery whose receive count, as the broker sent it, was at the limit. */
  predicate Dropped(cfg: Config, s: State, m: nat)
  {
    m in s.dropped && BrokerCount(s.dropped[m]) >= cfg.maxAttempts
  }

  /** An accepted message is in the queue exactly as long as it has been neither handled and deleted nor dropped. */
  predicate QueueOk(cfg: Config, s: State, m: nat)
  {
    && (m in s.sent ==> m in s.queue || m in s.handled || m in s.dropped)
    && (m in s.dropped ==> m in s.sent && m !in s.queue && Dropped(cfg, s, m))
    && (m in s.queue ==> m in s.sent)
  }

  /** Where the message is, and that it was handled only with its effect in place. */
  predicate MessageOk(cfg: Config, s: State, m: nat)
  {
    && QueueOk(cfg, s, m)
    && (m in s.handled ==> m in s.sent && HasEffect(s, WireKey(cfg, s.sent[m])))
  }

  ghost predicate Inv(cfg: Config, s: State)
  {
    && EffectsOk(cfg, s)
    && (forall d :: d in s.deliveries ==> DeliveryOk(cfg, s, d))
    && OneHolder(cfg, s)
    && InboxOk(s)
    && (forall m :: MessageOk(cfg, s, m))
  }

  lemma {:induction false} EffectsGrow(cfg: Config, s: State, step: Step, k: InboxKey)
    requires Enabled(cfg, s, step)
    ensures HasEffect(s, k) ==> HasEffect(Apply(cfg, s, step), k)
    ensures HasEffect(Apply(cfg, s, step), k) ==> HasEffect(s, k) || (step.Commit? && k == Key(cfg, s, step.d))
    ensures step.Commit? ==> HasEffect(Apply(cfg, s, step), Key(cfg, s, step.d))
  {
    var s' := Apply(cfg, s, step);
    if HasEffect(s, k) {
      var i :| 0 <= i < |s.effects| && s.effects[i].key == k;
      assert s'.effects[i].key == k;
    }
    if step.Commit? {
      assert s'.effects[|s.effects|].key == Key(cfg, s, step.d);
    }
  }

  /** Only a commit writes effects. */
  lemma {:induction false} OnlyCommitsWrite(cfg: Config, s: State, step: Step)
    requires Enabled(cfg, s, step) && !step.Commit?
    ensures Apply(cfg, s, step).effects == s.effects
  {
  }

  lemma {:induction false} CommitKeepsEffects(cfg: Config, s: State, step: Step)
    requires EffectsOk(cfg, s) && Enabled(cfg, s, step) && step.Commit? && DeliveryOk(cfg, s, step.d)
    ensures EffectsOk(cfg, Apply(cfg, s, step))
  {
    assert Holds(s, step.d);
    assert forall i :: 0 <= i < |s.effects| ==> s.effects[i].key != Key(cfg, s, step.d);
  }

  lemma {:induction false} SameEffectsOk(cfg: Config, s: State, s': State)
    requires EffectsOk(cfg, s) && s'.effects == s.effects
    requires forall m :: m in s.sent ==> m in s'.sent && s'.sent[m] == s.sent[m]
    ensures EffectsOk(cfg, s')
  {
  }

  lemma {:induction false} StepKeepsEffects(cfg: Config, s: State, step: Step)
    requires Inv(cfg, s) && Enabled(cfg, s, step)
    ensures EffectsOk(cfg, Apply(cfg, s, step))
  {
    if step.Commit? {
      assert DeliveryOk(cfg, s, step.d);
      CommitKeepsEffects(cfg, s, step);
    } else {
      OnlyCommitsWrite(cfg, s, step);
      forall m | m in s.sent ensures m in Apply(cfg, s, step).sent && Apply(cfg, s, step).sent[m] == s.sent[m] {
        SentStays(cfg, s, step, m);
      }
      SameEffectsOk(cfg, s, Apply(cfg, s, step));
    }
  }

  /** Steps name the delivery they move, and move no other. */
  predicate Moves(step: Step, d: nat)
  {
    match step
    case Send(_, _) => false
    case CleanInbox(_) => false
    case Deliver(e, _, _) => e == d
    case CheckInbox(e) => e == d
    case InsertEffect(e) => e == d
    case CompleteInbox(e) => e == d
    case Commit(e, _) => e == d
    case Fail(e) => e == d
    case Acknowledge(e, _) => e == d
    case Crash(e) => e == d
  }

  lemma {:induction false} OthersStay(cfg: Config, s: State, step: Step, d: nat)
    requires Enabled(cfg, s, step) && !Moves(step, d)
    ensures d in Apply(cfg, s, step).deliveries <==> d in s.deliveries
    ensures d in s.deliveries ==> Apply(cfg, s, step).deliveries[d] == s.deliveries[d]
  {
    if step.Acknowledge? || step.Crash? { EndLeavesOthers(cfg, s, step, d); }
  }

  lemma {:induction false} EndLeavesOthers(cfg: Config, s: State, step: Step, d: nat)
    requires Enabled(cfg, s, step) && (step.Acknowledge? || step.Crash?)
    ensures Apply(cfg, s, step).deliveries == s.deliveries - {step.d}
  {
  }

  /** What a step can do to one delivery: its message stays, and only its own insert makes it a holder. */
  lemma {:induction false} DeliveryMoves(cfg: Config, s: State, step: Step, d: nat)
    requires Enabled(cfg, s, step)
    requires d in Apply(cfg, s, step).deliveries
    ensures var s' := Apply(cfg, s, step);
            if d in s.deliveries then
              && s'.deliveries[d].messageId == s.deliveries[d].messageId && s'.deliveries[d].msg == s.deliveries[d].msg
              && s'.deliveries[d].count == s.deliveries[d].count
              && (Holds(s', d) ==> Holds(s, d) || (step == InsertEffect(d) && !HasEffect(s, Key(cfg, s, d))))
              && (step.Commit? && step.d == d ==> !Holds(s', d))
              && (s'.deliveries[d].phase == Returned(true) ==>
                    s.deliveries[d].phase == Returned(true) || s.deliveries[d].messageId in s'.handled)
            else step.Deliver? && step.d == d && !Holds(s', d) && !s'.deliveries[d].phase.Returned?
  {
    if Moves(step, d) { OwnMove(cfg, s, step, d); } else { OthersStay(cfg, s, step, d); }
  }

  lemma {:induction false} OwnMove(cfg: Config, s: State, step: Step, d: nat)
    requires Enabled(cfg, s, step) && Moves(step, d)
    requires d in Apply(cfg, s, step).deliveries
    ensures var s' := Apply(cfg, s, step);
            if step.Deliver? then d !in s.deliveries && s'.deliveries[d].phase.Received?
            else
              && d in s.deliveries && s'.deliveries[d] == s.deliveries[d].(phase := s'.deliveries[d].phase)
              && (Holds(s', d) ==> Holds(s, d) || (step.InsertEffect? && !HasEffect(s, Key(cfg, s, d))))
              && (step.Commit? ==> !Holds(s', d))
              && (s'.deliveries[d].phase == Returned(true) ==> s.deliveries[d].messageId in s'.handled)
  {
  }

  lemma {:induction false} StepKeepsDelivery(cfg: Config, s: State, step: Step, d: nat)
    requires Inv(cfg, s) && Enabled(cfg, s, step)
    requires d in Apply(cfg, s, step).deliveries
    ensures DeliveryOk(cfg, Apply(cfg, s, step), d)
  {
    var s' := Apply(cfg, s, step);
    DeliveryMoves(cfg, s, step, d);
    if d in s.deliveries {
      assert DeliveryOk(cfg, s, d);
      SentStays(cfg, s, step, s.deliveries[d].messageId);
      if Holds(s', d) { HolderHasNoEffect(cfg, s, step, d); }
    }
  }

  lemma {:induction false} SentStays(cfg: Config, s: State, step: Step, m: nat)
    requires Enabled(cfg, s, step)
    ensures m in s.sent ==> m in Apply(cfg, s, step).sent && Apply(cfg, s, step).sent[m] == s.sent[m]
    ensures m in s.handled ==> m in Apply(cfg, s, step).handled
  {
  }

  lemma {:induction false} HolderHasNoEffect(cfg: Config, s: State, step: Step, d: nat)
    requires OneHolder(cfg, s) && Enabled(cfg, s, step) && d in s.deliveries && DeliveryOk(cfg, s, d)
    requires d in Apply(cfg, s, step).deliveries && Holds(Apply(cfg, s, step), d)
    ensures !HasEffect(Apply(cfg, s, step), Key(cfg, Apply(cfg, s, step), d))
  {
    DeliveryMoves(cfg, s, step, d);
    EffectsGrow(cfg, s, step, Key(cfg, s, d));
    if step.Commit? {
      assert Holds(s, step.d) && Holds(s, d);
    }
  }

  lemma {:induction false} StepKeepsOneHolder(cfg: Config, s: State, step: Step)
    requires OneHolder(cfg, s) && Enabled(cfg, s, step)
    ensures OneHolder(cfg, Apply(cfg, s, step))
  {
    var s' := Apply(cfg, s, step);
    forall a, b | Holds(s', a) && Holds(s', b) && Key(cfg, s', a) == Key(cfg, s', b)
      ensures a == b
    {
      DeliveryMoves(cfg, s, step, a);
      DeliveryMoves(cfg, s, step, b);
    }
  }

  lemma {:induction false} StepKeepsInbox(cfg: Config, s: State, step: Step)
    requires Inv(cfg, s) && Enabled(cfg, s, step)
    ensures InboxOk(Apply(cfg, s, step))
  {
    InboxMoves(cfg, s, step);
    forall k ensures HasEffect(s, k) ==> HasEffect(Apply(cfg, s, step), k) { EffectsGrow(cfg, s, step, k); }
    forall k | HasEffect(Apply(cfg, s, step), k) ensures HasEffect(s, k) || (step.Commit? && k == Key(cfg, s, step.d)) {
      EffectsGrow(cfg, s, step, k);
    }
    if step.Commit? { EffectsGrow(cfg, s, step, Key(cfg, s, step.d)); }
  }

  /** The inbox gains only the key of a commit, and loses keys only to the cleaner. */
  lemma {:induction false} InboxMoves(cfg: Config, s: State, step: Step)
    requires Enabled(cfg, s, step)
    ensures var s' := Apply(cfg, s, step);
            && (step.Commit? ==> s'.inbox == s.inbox + {Key(cfg, s, step.d)} && s'.cleaned == s.cleaned)
            && (step.CleanInbox? ==> s'.inbox == s.inbox - step.keys && s'.cleaned)
            && (!step.Commit? && !step.CleanInbox? ==> s'.inbox == s.inbox && s'.cleaned == s.cleaned)
  {
  }

  /** The message's delivery ends in this step and the message is deleted: it was handled, or failed at its limit. */
  predicate Removes(cfg: Config, s: State, step: Step, m: nat)
  {
    && step.Acknowledge? && step.deleted && step.d in s.deliveries && s.deliveries[step.d].messageId == m
    && (|| s.deliveries[step.d].phase == Returned(true)
        || (&& s.deliveries[step.d].phase == Returned(false)
            && BrokerCount(s.deliveries[step.d].count) >= cfg.maxAttempts))
  }

  /** A message leaves the queue if and only if a delivery that was handled, or failed at its limit, gets it deleted. */
  lemma {:induction false} LeavesQueueIff(cfg: Config, s: State, step: Step, m: nat)
    requires Inv(cfg, s) && Enabled(cfg, s, step) && m in s.queue
    ensures m !in Apply(cfg, s, step).queue <==> Removes(cfg, s, step, m)
  {
    if step.Acknowledge? { assert DeliveryOk(cfg, s, step.d); }
  }

  /** A message counts as dropped if and only if a delivery that failed at its limit has got it deleted. */
  lemma {:induction false} DropsIff(cfg: Config, s: State, step: Step, m: nat)
    requires Inv(cfg, s) && Enabled(cfg, s, step)
    ensures m in Apply(cfg, s, step).dropped <==>
              m in s.dropped || (Removes(cfg, s, step, m) && !s.deliveries[step.d].phase.ok)
  {
    if step.Acknowledge? { assert DeliveryOk(cfg, s, step.d); }
  }

  lemma {:induction false} StepKeepsAccepted(cfg: Config, s: State, step: Step, m: nat)
    requires Inv(cfg, s) && Enabled(cfg, s, step)
    ensures QueueOk(cfg, Apply(cfg, s, step), m)
  {
    assert MessageOk(cfg, s, m);
    if step.Acknowledge? {
      assert DeliveryOk(cfg, s, step.d) && MessageOk(cfg, s, s.deliveries[step.d].messageId);
      AcknowledgeKeepsAccepted(cfg, s, step, m);
    }
  }

  lemma {:induction false} AcknowledgeKeepsAccepted(cfg: Config, s: State, step: Step, m: nat)
    requires Enabled(cfg, s, step) && step.Acknowledge? && QueueOk(cfg, s, m) && DeliveryOk(cfg, s, step.d)
    ensures QueueOk(cfg, Apply(cfg, s, step), m)
  {
  }

  /** A handler returns nil only for its own message, on finding the inbox row or on committing. */
  lemma {:induction false} HandledMoves(cfg: Config, s: State, step: Step, m: nat)
    requires Enabled(cfg, s, step) && m in Apply(cfg, s, step).handled && m !in s.handled
    ensures (step.CheckInbox? && Key(cfg, s, step.d) in s.inbox) || step.Commit?
    ensures m == s.deliveries[step.d].messageId
  {
  }

  /** A handler returns nil only for a message whose effect is committed. */
  lemma {:induction false} StepKeepsHandled(cfg: Config, s: State, step: Step, m: nat)
    requires Inv(cfg, s) && Enabled(cfg, s, step)
    ensures var s' := Apply(cfg, s, step);
            m in s'.handled ==> m in s'.sent && HasEffect(s', WireKey(cfg, s'.sent[m]))
  {
    if m in Apply(cfg, s, step).handled {
      assert MessageOk(cfg, s, m);
      if m !in s.handled {
        HandledMoves(cfg, s, step, m);
        assert DeliveryOk(cfg, s, step.d);
      }
      SentStays(cfg, s, step, m);
      EffectsGrow(cfg, s, step, WireKey(cfg, s.sent[m]));
    }
  }

  lemma {:induction false} StepKeepsInv(cfg: Config, s: State, step: Step)
    requires Inv(cfg, s) && Enabled(cfg, s, step)
    ensures Inv(cfg, Apply(cfg, s, step))
  {
    StepKeepsEffects(cfg, s, step);
    StepKeepsOneHolder(cfg, s, step);
    StepKeepsInbox(cfg, s, step);
    forall d | d in Apply(cfg, s, step).deliveries ensures DeliveryOk(cfg, Apply(cfg, s, step), d) {
      StepKeepsDelivery(cfg, s, step, d);
    }
    forall m ensures MessageOk(cfg, Apply(cfg, s, step), m) {
      StepKeepsAccepted(cfg, s, step, m);
      StepKeepsHandled(cfg, s, step, m);
    }
  }
}
