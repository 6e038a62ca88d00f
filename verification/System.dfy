/**
 The whole pipeline: outbox table, dispatcher workers, queue and idempotent consumers in one step system. A publish
 that reaches the broker puts a message on the queue; everything else is a step of one side alone.
 */
module System {
  import opened Prelude
  import opened OutboxTable
  import opened Publisher
  import P = Protocol
  import A = Accounting
  import C = Consumer

  datatype Config = Config(outbox: OutboxTable.Config, consumer: C.Config, queueURL: string)

  datatype State = State(
    outbox: P.State,
    consumer: C.State,
    cargo: map<nat, Id>,      // which event each message was sent for
    carrier: map<Id, nat>)    // the latest message sent for each accepted event

  datatype Step =
    | DispatcherStep(act: P.Step, messageId: nat)
    | ConsumerStep(move: C.Step)
  {
    /** The broker accepts a message in this step. */
    predicate Sends() { DispatcherStep? && act.Publish? && act.sent }
  }

  function Init(now: real): State
  {
    State(P.Init(now), C.EMPTY, map[], map[])
  }

  function Claimed(s: State, key: P.ClaimKey): OutboxTable.Outbox
    requires key in s.outbox.claims
  {
    OutboxTable.Outbox(key.0, s.outbox.claims[key].snapshot)
  }

  /** Every send creates a new message. */
  predicate Enabled(cfg: Config, s: State, step: Step)
  {
    match step
    case DispatcherStep(o, m) =>
      P.Enabled(s.outbox, o) && (step.Sends() ==> m !in s.consumer.sent)
    case ConsumerStep(c) => !c.Send? && C.Enabled(cfg.consumer, s.consumer, c)
  }

  function Apply(cfg: Config, s: State, step: Step): State
    requires Enabled(cfg, s, step)
  {
    match step
    case DispatcherStep(o, m) =>
      var outbox := P.Apply(cfg.outbox, s.outbox, o);
      if step.Sends() then
        var send := C.Send(m, C.OnWire(BuildEntry(cfg.queueURL, Claimed(s, o.key))));
        State(outbox, C.Apply(cfg.consumer, s.consumer, send), s.cargo[m := o.key.0], s.carrier[o.key.0 := m])
      else s.(outbox := outbox)
    case ConsumerStep(c) => s.(consumer := C.Apply(cfg.consumer, s.consumer, c))
  }

  predicate Valid(cfg: Config, s: State, run: seq<Step>)
    decreases |run|
  {
    run == [] || (Enabled(cfg, s, run[0]) && Valid(cfg, Apply(cfg, s, run[0]), run[1..]))
  }

  function Final(cfg: Config, s: State, run: seq<Step>): State
    requires Valid(cfg, s, run)
    decreases |run|
  {
    if run == [] then s else Final(cfg, Apply(cfg, s, run[0]), run[1..])
  }

  // ---------- what links the two sides ----------

  /** The message an event travels as, from what was inserted. */
  function WireFor(cfg: Config, id: Id, p: InsertParams): C.Wire
  {
    C.OnWire(BuildEntry(cfg.queueURL, OutboxTable.Outbox(id, NewRow(p, 0.0))))
  }

  /** Message `m` carries the event `id`, as it was inserted. */
  predicate Bears(cfg: Config, s: State, m: nat, id: Id)
  {
    m in s.consumer.sent && id in s.outbox.committed && s.consumer.sent[m] == WireFor(cfg, id, s.outbox.committed[id])
  }

  /** Every accepted event has a message bearing it. */
  predicate Carried(cfg: Config, s: State)
  {
    s.carrier.Keys == s.outbox.accepted && forall id :: id in s.carrier ==> Bears(cfg, s, s.carrier[id], id)
  }

  /** Every message bears an accepted event. */
  predicate Loaded(cfg: Config, s: State)
  {
    && s.cargo.Keys == s.consumer.sent.Keys
    && forall m :: m in s.cargo ==> s.cargo[m] in s.outbox.accepted && Bears(cfg, s, m, s.cargo[m])
  }

  predicate Linked(cfg: Config, s: State) { Carried(cfg, s) && Loaded(cfg, s) }

  ghost predicate Inv(cfg: Config, s: State)
  {
    A.Inv(s.outbox) && C.Inv(cfg.consumer, s.consumer) && Linked(cfg, s)
  }

  /** Every claim of an event sends the same entry, FIFO ids included, so the same message goes on the wire. */
  lemma {:induction false} SnapshotsTravelAlike(cfg: Config, id: Id, r: Row, p: InsertParams)
    requires A.Carries(r, p)
    ensures BuildEntry(cfg.queueURL, OutboxTable.Outbox(id, r)) ==
            BuildEntry(cfg.queueURL, OutboxTable.Outbox(id, NewRow(p, 0.0)))
    ensures C.OnWire(BuildEntry(cfg.queueURL, OutboxTable.Outbox(id, r))) == WireFor(cfg, id, p)
  {
  }

  /** The broker's record of acceptances changes only in a publish. */
  lemma {:induction false} OnlyPublishAccepts(cfg: OutboxTable.Config, s: P.State, act: P.Step)
    requires P.Enabled(s, act)
    ensures P.Apply(cfg, s, act).accepted ==
              if act.Publish? && act.sent then s.accepted + {act.key.0} else s.accepted
  {
  }

  /** What was committed stays, as it was inserted. */
  lemma {:induction false} CommittedLasts(cfg: OutboxTable.Config, s: P.State, act: P.Step, id: Id)
    requires P.Enabled(s, act) && id in s.committed
    ensures id in P.Apply(cfg, s, act).committed && P.Apply(cfg, s, act).committed[id] == s.committed[id]
  {
  }

  /** Consumers send nothing. */
  lemma {:induction false} ConsumersSendNothing(cfg: C.Config, s: C.State, move: C.Step)
    requires C.Enabled(cfg, s, move) && !move.Send?
    ensures C.Apply(cfg, s, move).sent == s.sent
  {
  }

  lemma {:induction false} BearingLasts(cfg: Config, s: State, step: Step, m: nat, id: Id)
    requires Enabled(cfg, s, step) && Bears(cfg, s, m, id)
    ensures Bears(cfg, Apply(cfg, s, step), m, id)
    ensures id in s.outbox.accepted ==> id in Apply(cfg, s, step).outbox.accepted
  {
    match step
    case ConsumerStep(c) => ConsumersSendNothing(cfg.consumer, s.consumer, c);
    case DispatcherStep(o, _) =>
      CommittedLasts(cfg.outbox, s.outbox, o, id);
      OnlyPublishAccepts(cfg.outbox, s.outbox, o);
  }

  lemma {:induction false} SendBears(cfg: Config, s: State, step: Step)
    requires Enabled(cfg, s, step) && step.Sends() && A.ClaimInv(s.outbox, step.act.key)
    ensures Bears(cfg, Apply(cfg, s, step), step.messageId, step.act.key.0)
    ensures Apply(cfg, s, step).outbox.accepted == s.outbox.accepted + {step.act.key.0}
    ensures Apply(cfg, s, step).consumer.sent.Keys == s.consumer.sent.Keys + {step.messageId}
    ensures Apply(cfg, s, step).cargo == s.cargo[step.messageId := step.act.key.0]
    ensures Apply(cfg, s, step).carrier == s.carrier[step.act.key.0 := step.messageId]
  {
    var k := step.act.key;
    SnapshotsTravelAlike(cfg, k.0, s.outbox.claims[k].snapshot, s.outbox.committed[k.0]);
  }

  lemma {:induction false} QuietSteps(cfg: Config, s: State, step: Step)
    requires Enabled(cfg, s, step) && !step.Sends()
    ensures Apply(cfg, s, step).outbox.accepted == s.outbox.accepted
    ensures Apply(cfg, s, step).consumer.sent.Keys == s.consumer.sent.Keys
    ensures Apply(cfg, s, step).cargo == s.cargo && Apply(cfg, s, step).carrier == s.carrier
  {
    match step
    case ConsumerStep(c) => ConsumersSendNothing(cfg.consumer, s.consumer, c);
    case DispatcherStep(o, _) => OnlyPublishAccepts(cfg.outbox, s.outbox, o);
  }

  lemma {:induction false} StepKeepsCarried(cfg: Config, s: State, step: Step)
    requires Carried(cfg, s) && Enabled(cfg, s, step)
    requires step.Sends() ==> A.ClaimInv(s.outbox, step.act.key)
    ensures Carried(cfg, Apply(cfg, s, step))
  {
    var s' := Apply(cfg, s, step);
    if step.Sends() { SendBears(cfg, s, step); } else { QuietSteps(cfg, s, step); }
    forall id | id in s'.carrier ensures Bears(cfg, s', s'.carrier[id], id) {
      if !(step.Sends() && id == step.act.key.0) { BearingLasts(cfg, s, step, s.carrier[id], id); }
    }
  }

  lemma {:induction false} MessageStaysLoaded(cfg: Config, s: State, step: Step, m: nat)
    requires Loaded(cfg, s) && Enabled(cfg, s, step) && m in s.cargo
    requires step.Sends() ==> m != step.messageId
    ensures Bears(cfg, Apply(cfg, s, step), m, s.cargo[m]) && s.cargo[m] in Apply(cfg, s, step).outbox.accepted
  {
    BearingLasts(cfg, s, step, m, s.cargo[m]);
  }

  lemma {:induction false} StepKeepsLoaded(cfg: Config, s: State, step: Step)
    requires Loaded(cfg, s) && Enabled(cfg, s, step)
    requires step.Sends() ==> A.ClaimInv(s.outbox, step.act.key)
    ensures Loaded(cfg, Apply(cfg, s, step))
  {
    var s' := Apply(cfg, s, step);
    if step.Sends() {
      SendKeepsLoaded(cfg, s, step);
    } else {
      QuietSteps(cfg, s, step);
      forall m | m in s'.cargo ensures s'.cargo[m] in s'.outbox.accepted && Bears(cfg, s', m, s'.cargo[m]) {
        MessageStaysLoaded(cfg, s, step, m);
      }
    }
  }

  lemma {:induction false} SendKeepsLoaded(cfg: Config, s: State, step: Step)
    requires Loaded(cfg, s) && Enabled(cfg, s, step) && step.Sends() && A.ClaimInv(s.outbox, step.act.key)
    ensures Loaded(cfg, Apply(cfg, s, step))
  {
    var s' := Apply(cfg, s, step);
    SendBears(cfg, s, step);
    forall m | m in s'.cargo ensures s'.cargo[m] in s'.outbox.accepted && Bears(cfg, s', m, s'.cargo[m]) {
      if m != step.messageId { MessageStaysLoaded(cfg, s, step, m); }
    }
  }

  lemma {:induction false} StepKeepsInv(cfg: Config, s: State, step: Step)
    requires Inv(cfg, s) && Enabled(cfg, s, step)
    ensures Inv(cfg, Apply(cfg, s, step))
  {
    StepKeepsCarried(cfg, s, step);
    StepKeepsLoaded(cfg, s, step);
    match step
    case DispatcherStep(o, m) =>
      A.StepKeepsInv(cfg.outbox, s.outbox, o);
      if step.Sends() {
        C.StepKeepsInv(cfg.consumer, s.consumer, C.Send(m, C.OnWire(BuildEntry(cfg.queueURL, Claimed(s, o.key)))));
      }
    case ConsumerStep(c) => C.StepKeepsInv(cfg.consumer, s.consumer, c);
  }

  lemma {:induction false} RunKeepsInv(cfg: Config, s: State, run: seq<Step>)
    requires Inv(cfg, s) && Valid(cfg, s, run)
    ensures Inv(cfg, Final(cfg, s, run))
    decreases |run|
  {
    if run == [] {
    } else {
      StepKeepsInv(cfg, s, run[0]);
      RunKeepsInv(cfg, Apply(cfg, s, run[0]), run[1..]);
    }
  }

  // ---------- guarantees of every run ----------

  /** The event's own key in the inbox and in its effect table. */
  function EventKey(cfg: Config, id: Id, p: InsertParams): C.InboxKey
  {
    C.WireKey(cfg.consumer, WireFor(cfg, id, p))
  }

  /** Message `m` is still queued, was handled and its event has taken effect, or was dropped at its receive limit. */
  predicate Accounted(cfg: Config, s: State, m: nat, id: Id)
    requires id in s.outbox.committed
  {
    || m in s.consumer.queue
    || (m in s.consumer.handled && C.HasEffect(s.consumer, EventKey(cfg, id, s.outbox.committed[id])))
    || C.Dropped(cfg.consumer, s.consumer, m)
  }

  /**
   The event is still to be published, was given up as DEAD, or some message bearing it is accounted for; and so is
   every other message bearing it.
   */
  ghost predicate NothingLost(cfg: Config, s: State, id: Id)
    requires id in s.outbox.committed
  {
    && (|| (id in s.outbox.rows && !s.outbox.rows[id].status.Terminal())
        || id in s.outbox.dead
        || (exists m :: Bears(cfg, s, m, id) && Accounted(cfg, s, m, id)))
    && (forall m :: Bears(cfg, s, m, id) ==> Accounted(cfg, s, m, id))
    && (forall m :: Bears(cfg, s, m, id) && m !in s.consumer.handled ==>
          (m in s.consumer.queue <==> !C.Dropped(cfg.consumer, s.consumer, m)))
  }

  lemma {:induction false} StateLosesNothing(cfg: Config, s: State, id: Id)
    requires id in s.outbox.committed && A.Conserved(s.outbox, id) && Linked(cfg, s)
    requires forall m :: C.MessageOk(cfg.consumer, s.consumer, m)
    ensures NothingLost(cfg, s, id)
  {
    forall m | Bears(cfg, s, m, id)
      ensures Accounted(cfg, s, m, id)
      ensures m !in s.consumer.handled ==>
                (m in s.consumer.queue <==> !C.Dropped(cfg.consumer, s.consumer, m))
    {
      assert C.MessageOk(cfg.consumer, s.consumer, m);
    }
    if id in s.outbox.accepted {
      assert Bears(cfg, s, s.carrier[id], id);
    }
  }

  /**
   Nothing committed is ever lost, in any run, with crashes, lost replies, stale workers, redelivery and failed
   deletes.
   */
  lemma {:induction false} EndToEndConservation(cfg: Config, start: real, run: seq<Step>, id: Id)
    requires Valid(cfg, Init(start), run)
    requires id in Final(cfg, Init(start), run).outbox.committed
    ensures NothingLost(cfg, Final(cfg, Init(start), run), id)
  {
    InitIsGood(cfg, start);
    RunKeepsInv(cfg, Init(start), run);
    StateLosesNothing(cfg, Final(cfg, Init(start), run), id);
  }

  lemma {:induction false} InitIsGood(cfg: Config, start: real)
    ensures Inv(cfg, Init(start))
  {
  }

  /** Outbox ids are non-empty UUID texts, and different ids parse to different UUIDs. */
  ghost predicate IdsParse(cfg: Config, s: State)
  {
    && (forall id :: id in s.outbox.committed ==> id != "" && cfg.consumer.parse(id).Some?)
    && (forall a, b :: a in s.outbox.committed && b in s.outbox.committed && a != b ==>
          cfg.consumer.parse(a) != cfg.consumer.parse(b))
  }

  lemma {:induction false} KeyNamesEvent(cfg: Config, id: Id, p: InsertParams)
    requires id != "" && cfg.consumer.parse(id).Some?
    ensures EventKey(cfg, id, p) == (cfg.consumer.consumerOf(p.eventType), cfg.consumer.parse(id).value)
  {
    C.PublishThenParse(cfg.queueURL, OutboxTable.Outbox(id, NewRow(p, 0.0)), cfg.consumer.parse, None);
  }

  lemma {:induction false} SameKeySameEvent(cfg: Config, a: Id, p: InsertParams, b: Id, q: InsertParams)
    requires a != "" && cfg.consumer.parse(a).Some? && b != "" && cfg.consumer.parse(b).Some?
    requires EventKey(cfg, a, p) == EventKey(cfg, b, q)
    ensures cfg.consumer.parse(a) == cfg.consumer.parse(b)
  {
    KeyNamesEvent(cfg, a, p);
    KeyNamesEvent(cfg, b, q);
  }

  /**
   At most one effect row, written through a message bearing the event. Unless old inbox rows were deleted, the effect
   exists exactly when the inbox row does; a handler that returned nil has left the effect behind.
   */
  ghost predicate EffectOnce(cfg: Config, s: State, id: Id)
    requires id in s.outbox.committed
  {
    var k := EventKey(cfg, id, s.outbox.committed[id]);
    && (forall i, j :: 0 <= i < j < |s.consumer.effects| ==>
          !(s.consumer.effects[i].key == k && s.consumer.effects[j].key == k))
    && (!s.consumer.cleaned ==> (C.HasEffect(s.consumer, k) <==> k in s.consumer.inbox))
    && (k in s.consumer.inbox ==> C.HasEffect(s.consumer, k))
    && OwnEffects(cfg, s, id, k)
    && HandledInEffect(cfg, s, id, k)
  }

  /** Effect rows under the key were written through messages bearing the event. */
  predicate OwnEffects(cfg: Config, s: State, id: Id, k: C.InboxKey)
  {
    forall i :: 0 <= i < |s.consumer.effects| && s.consumer.effects[i].key == k ==>
      Bears(cfg, s, s.consumer.effects[i].messageId, id)
  }

  /** A handler that returned nil for a message bearing the event has left the effect behind. */
  predicate HandledInEffect(cfg: Config, s: State, id: Id, k: C.InboxKey)
  {
    forall m :: m in s.consumer.handled && Bears(cfg, s, m, id) ==> C.HasEffect(s.consumer, k)
  }

  /** An effect row under the event's key came from a message bearing that very event. */
  lemma {:induction false} EffectIsOwn(cfg: Config, s: State, id: Id, i: nat)
    requires id in s.outbox.committed && Loaded(cfg, s) && IdsParse(cfg, s) && C.EffectsOk(cfg.consumer, s.consumer)
    requires i < |s.consumer.effects| && s.consumer.effects[i].key == EventKey(cfg, id, s.outbox.committed[id])
    ensures Bears(cfg, s, s.consumer.effects[i].messageId, id)
  {
    var m := s.consumer.effects[i].messageId;
    assert m in s.consumer.sent && m in s.cargo;
    var other := s.cargo[m];
    assert Bears(cfg, s, m, other);
    SameKeySameEvent(cfg, other, s.outbox.committed[other], id, s.outbox.committed[id]);
    assert other == id;
  }

  lemma {:induction false} StateHasEffectOnce(cfg: Config, s: State, id: Id)
    requires id in s.outbox.committed && Linked(cfg, s) && IdsParse(cfg, s)
    requires C.EffectsOk(cfg.consumer, s.consumer) && C.InboxOk(s.consumer)
    requires forall m :: C.MessageOk(cfg.consumer, s.consumer, m)
    ensures EffectOnce(cfg, s, id)
  {
    var k := EventKey(cfg, id, s.outbox.committed[id]);
    KeyOnce(cfg.consumer, s.consumer, k);
    EffectsAreOwn(cfg, s, id, k);
    HandledTookEffect(cfg, s, id, k);
  }

  lemma {:induction false} EffectsAreOwn(cfg: Config, s: State, id: Id, k: C.InboxKey)
    requires id in s.outbox.committed && Loaded(cfg, s) && IdsParse(cfg, s) && C.EffectsOk(cfg.consumer, s.consumer)
    requires k == EventKey(cfg, id, s.outbox.committed[id])
    ensures OwnEffects(cfg, s, id, k)
  {
    forall i | 0 <= i < |s.consumer.effects| && s.consumer.effects[i].key == k
      ensures Bears(cfg, s, s.consumer.effects[i].messageId, id)
    {
      EffectIsOwn(cfg, s, id, i);
    }
  }

  /** On the consumer's side alone: one effect row per key, and the inbox knows it. */
  lemma {:induction false} KeyOnce(cfg: C.Config, s: C.State, k: C.InboxKey)
    requires C.EffectsOk(cfg, s) && C.InboxOk(s)
    ensures forall i, j :: 0 <= i < j < |s.effects| ==> !(s.effects[i].key == k && s.effects[j].key == k)
    ensures !s.cleaned ==> (C.HasEffect(s, k) <==> k in s.inbox)
    ensures k in s.inbox ==> C.HasEffect(s, k)
  {
  }

  lemma {:induction false} HandledTookEffect(cfg: Config, s: State, id: Id, k: C.InboxKey)
    requires id in s.outbox.committed && k == EventKey(cfg, id, s.outbox.committed[id])
    requires forall m :: C.MessageOk(cfg.consumer, s.consumer, m)
    ensures HandledInEffect(cfg, s, id, k)
  {
    forall m | m in s.consumer.handled && Bears(cfg, s, m, id) ensures C.HasEffect(s.consumer, k) {
      assert C.MessageOk(cfg.consumer, s.consumer, m);
    }
  }

  /** Each event takes effect at most once, however often it is republished and redelivered. */
  lemma {:induction false} ExactlyOnceEffect(cfg: Config, start: real, run: seq<Step>, id: Id)
    requires Valid(cfg, Init(start), run)
    requires id in Final(cfg, Init(start), run).outbox.committed
    requires IdsParse(cfg, Final(cfg, Init(start), run))
    ensures EffectOnce(cfg, Final(cfg, Init(start), run), id)
  {
    InitIsGood(cfg, start);
    RunKeepsInv(cfg, Init(start), run);
    StateHasEffectOnce(cfg, Final(cfg, Init(start), run), id);
  }
}
