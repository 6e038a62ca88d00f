/**
 Publishing to SQS: what is sent for a message, and how an arbitrary broker reply becomes one result per message.
 */
module Publisher {
  import opened Prelude
  import opened OutboxTable
  import opened Errors

  const MAX_MESSAGE_SIZE := 262144
  const MAX_BATCH_SIZE := 10

  /** The message attributes event_type, outbox_id, idempotency_key and metadata. */
  datatype AttributeName = EventTypeAttr | OutboxIdAttr | IdempotencyKeyAttr | MetadataAttr

  /** What travels with a message: body, attributes and, on FIFO queues, group and deduplication ids. */
  datatype Entry = Entry(
    id: Id, body: string, attributes: map<AttributeName, string>, groupId: Option<string>, dedupId: Option<string>)

  datatype Sent = Sent(id: string, messageId: string)
  datatype Refusal = Refusal(id: string, code: string, message: string)

  /** A SendMessageBatch call fails as a whole, or lists successes and failures; nothing is assumed of the lists. */
  datatype Reply =
    | CallFailed(error: Error)
    | Listed(successful: seq<Sent>, failed: seq<Refusal>)

  datatype PublishResult = PublishResult(outboxId: Id, messageId: string, success: bool, error: Option<Error>)

  predicate Fits(m: Outbox) { |m.row.payload| <= MAX_MESSAGE_SIZE }

  function OversizeError(): Error
  {
    Permanent(Some(Wrapped("payload size exceeds SQS limit", PayloadTooLarge)))
  }

  predicate IsFifo(queueURL: string) { |queueURL| >= 5 && queueURL[|queueURL| - 5..] == ".fifo" }

  function Attributes(m: Outbox): map<AttributeName, string>
  {
    var attrs := map[
      EventTypeAttr := m.row.eventType, OutboxIdAttr := m.id, IdempotencyKeyAttr := m.row.idempotencyKey];
    if |m.row.metadata| > 0 then attrs[MetadataAttr := m.row.metadata] else attrs
  }

  function BuildEntry(queueURL: string, m: Outbox): Entry
  {
    if IsFifo(queueURL) then
      Entry(m.id, m.row.payload, Attributes(m), Some(m.row.eventType), Some(m.row.idempotencyKey))
    else
      Entry(m.id, m.row.payload, Attributes(m), None, None)
  }

  // ---------- specification: one message at a time ----------

  /** The message id of the last success listed under `id`. */
  function LastSent(successful: seq<Sent>, id: string): Option<string>
  {
    if successful == [] then None
    else
      var last := successful[|successful| - 1];
      if last.id == id then Some(last.messageId) else LastSent(successful[..|successful| - 1], id)
  }

  function RefusalError(f: Refusal): Error
  {
    Plain("sqs batch entry failed: code=" + f.code + ", message=" + f.message)
  }

  function LastRefusal(failed: seq<Refusal>, id: string): Option<Error>
  {
    if failed == [] then None
    else
      var last := failed[|failed| - 1];
      if last.id == id then Some(RefusalError(last)) else LastRefusal(failed[..|failed| - 1], id)
  }

  function Failure(m: Outbox, e: Error): PublishResult
  {
    PublishResult(m.id, "", false, Some(e))
  }

  /** The result a message deserves, from its own size and the reply alone. */
  function Expected(m: Outbox, reply: Reply, callText: string): PublishResult
  {
    if !Fits(m) then Failure(m, OversizeError())
    else match reply
      case CallFailed(e) => Failure(m, Wrapped(callText, e))
      case Listed(successful, failed) =>
        match LastSent(successful, m.id)
        case Some(messageId) => PublishResult(m.id, messageId, true, None)
        case None =>
          match LastRefusal(failed, m.id)
          case Some(e) => Failure(m, e)
          case None => Failure(m, Plain("sqs batch: no result for message " + m.id))
  }

  predicate Mentions(successful: seq<Sent>, id: string)
  {
    exists j :: 0 <= j < |successful| && successful[j].id == id
  }

  lemma {:induction false} LastSentIffMentioned(successful: seq<Sent>, id: string)
    ensures LastSent(successful, id).Some? <==> Mentions(successful, id)
    ensures LastSent(successful, id).Some? ==>
              exists j ::
                && 0 <= j < |successful| && successful[j] == Sent(id, LastSent(successful, id).value)
                && forall k :: j < k < |successful| ==> successful[k].id != id
  {
    if successful == [] {
    } else {
      var n := |successful| - 1;
      LastSentIffMentioned(successful[..n], id);
      if Mentions(successful, id) && successful[n].id != id {
        var j :| 0 <= j < |successful| && successful[j].id == id;
        assert successful[..n][j].id == id;
      }
      if Mentions(successful[..n], id) && successful[n].id != id {
        var j :|
          && 0 <= j < n && successful[..n][j] == Sent(id, LastSent(successful[..n], id).value)
          && forall k :: j < k < n ==> successful[..n][k].id != id;
        assert successful[j] == Sent(id, LastSent(successful, id).value);
        forall k | j < k < |successful| ensures successful[k].id != id {
          if k < n { assert successful[..n][k].id != id; }
        }
      }
    }
  }

  /** The payload is at most 256 KiB. */
  predicate Small(m: Outbox) { |m.row.payload| <= 256 * 1024 }

  /** The broker has taken the message: it was small enough, and an error-free call lists it as successful. */
  predicate Taken(m: Outbox, reply: Reply)
  {
    Small(m) && reply.Listed? && Mentions(reply.successful, m.id)
  }

  /** A message that was not taken may be tried again, unless it is too large or the call's own error forbids it. */
  predicate MayRetry(m: Outbox, reply: Reply)
  {
    Small(m) && (reply.CallFailed? ==> IsRetryable(Some(reply.error)))
  }

  /** The error names the code and the message of some refusal listed for the id. */
  predicate Refuses(failed: seq<Refusal>, id: string, e: Error)
  {
    exists j ::
      && 0 <= j < |failed| && failed[j].id == id
      && e == Plain("sqs batch entry failed: code=" + failed[j].code + ", message=" + failed[j].message)
  }

  /** What callers rely on, for any reply at all. */
  ghost predicate Positional(m: Outbox, reply: Reply, r: PublishResult)
  {
    && r.outboxId == m.id
    && (r.success <==> Taken(m, reply))
    && (r.success ==> r.error.None? && Sent(m.id, r.messageId) in reply.successful)
    && (!r.success ==> r.error.Some? && IsRetryable(r.error) == MayRetry(m, reply))
    && (!Small(m) ==> r.error == Some(OversizeError()))
    && (!r.success && Small(m) && reply.Listed? && (exists f :: f in reply.failed && f.id == m.id) ==>
          Refuses(reply.failed, m.id, r.error.value))
  }

  lemma {:induction false} LastRefusalIsListed(failed: seq<Refusal>, id: string)
    ensures LastRefusal(failed, id).Some? <==> exists j :: 0 <= j < |failed| && failed[j].id == id
    ensures LastRefusal(failed, id).Some? ==> Refuses(failed, id, LastRefusal(failed, id).value)
  {
    if failed == [] {
    } else {
      var n := |failed| - 1;
      LastRefusalIsListed(failed[..n], id);
      if j :| 0 <= j < |failed| && failed[j].id == id && failed[n].id != id {
        assert failed[..n][j].id == id;
      }
      if LastRefusal(failed[..n], id).Some? && failed[n].id != id {
        var j :|
          0 <= j < n && failed[..n][j].id == id && LastRefusal(failed[..n], id).value == RefusalError(failed[..n][j]);
        assert failed[j].id == id && LastRefusal(failed, id).value == RefusalError(failed[j]);
      }
    }
  }

  lemma {:induction false} ExpectedIsPositional(m: Outbox, reply: Reply, callText: string)
    ensures Positional(m, reply, Expected(m, reply, callText))
  {
    if reply.Listed? {
      LastSentIffMentioned(reply.successful, m.id);
      LastRefusalIsListed(reply.failed, m.id);
    } else {
      WrappingKeepsVerdict([Text(callText)], reply.error);
    }
  }

  /** On a FIFO queue messages share a group iff their event types agree, and are duplicates iff their keys do. */
  lemma {:induction false} FifoIds(queueURL: string, a: Outbox, b: Outbox)
    ensures IsFifo(queueURL) <==> exists p: string :: queueURL == p + ".fifo"
    ensures var x, y := BuildEntry(queueURL, a), BuildEntry(queueURL, b);
            && (IsFifo(queueURL) ==>
                  && x.groupId.Some? && x.dedupId.Some?
                  && (x.groupId == y.groupId <==> a.row.eventType == b.row.eventType)
                  && (x.dedupId == y.dedupId <==> a.row.idempotencyKey == b.row.idempotencyKey))
            && (!IsFifo(queueURL) ==> x.groupId.None? && x.dedupId.None?)
  {
    if IsFifo(queueURL) {
      assert queueURL == queueURL[..|queueURL| - 5] + ".fifo";
    }
    if p: string :| queueURL == p + ".fifo" {
      assert queueURL[|p|..] == ".fifo";
    }
  }

  // ---------- the entries of a call ----------

  /** Entries for the messages at these positions that fit, in order. */
  function EntriesAt(queueURL: string, msgs: seq<Outbox>, at: seq<nat>): (es: seq<Entry>)
    requires forall k :: 0 <= k < |at| ==> at[k] < |msgs|
    ensures |es| <= |at|
  {
    if at == [] then []
    else
      var n := |at| - 1;
      var m := msgs[at[n]];
      if Fits(m) then EntriesAt(queueURL, msgs, at[..n]) + [BuildEntry(queueURL, m)]
      else EntriesAt(queueURL, msgs, at[..n])
  }

  /** Positions 0 .. n-1. */
  function Upto(n: nat): (s: seq<nat>)
    ensures |s| == n && forall k :: 0 <= k < n ==> s[k] == k
  {
    seq(n, k => k)
  }

  // ---------- shared loops ----------

  method CollectReply(reply: Reply) returns (sent: map<string, string>, refused: map<string, Error>)
    requires reply.Listed?
    ensures forall id :: id in sent <==> LastSent(reply.successful, id).Some?
    ensures forall id :: id in sent ==> LastSent(reply.successful, id) == Some(sent[id])
    ensures forall id :: id in refused <==> LastRefusal(reply.failed, id).Some?
    ensures forall id :: id in refused ==> LastRefusal(reply.failed, id) == Some(refused[id])
  {
    sent, refused := map[], map[];
    var n := |reply.successful|;
    for i := 0 to n
      invariant forall id :: id in sent <==> LastSent(reply.successful[..i], id).Some?
      invariant forall id :: id in sent ==> LastSent(reply.successful[..i], id) == Some(sent[id])
    {
      var s := reply.successful[i];
      assert reply.successful[..i + 1][..i] == reply.successful[..i];
      sent := sent[s.id := s.messageId];
    }
    assert reply.successful[..n] == reply.successful;
    var k := |reply.failed|;
    for i := 0 to k
      invariant forall id :: id in refused <==> LastRefusal(reply.failed[..i], id).Some?
      invariant forall id :: id in refused ==> LastRefusal(reply.failed[..i], id) == Some(refused[id])
    {
      var f := reply.failed[i];
      assert reply.failed[..i + 1][..i] == reply.failed[..i];
      refused := refused[f.id := RefusalError(f)];
    }
    assert reply.failed[..k] == reply.failed;
  }

  /** A result before anything is known: only the id is filled in. */
  function Blank(m: Outbox): PublishResult
  {
    PublishResult(m.id, "", false, None)
  }

  /** The result after sizes have been checked and before the reply has been read. */
  function Checked(m: Outbox): PublishResult
  {
    if Fits(m) then Blank(m) else Failure(m, OversizeError())
  }

  lemma {:induction false} OneMorePosition(at: seq<nat>, k: nat)
    requires k < |at|
    ensures at[..k + 1][..k] == at[..k]
    ensures forall i :: i in at[..k + 1] <==> i in at[..k] || i == at[k]
  {
    assert at[..k + 1] == at[..k] + [at[k]];
  }

  lemma {:induction false} OneMoreEntry(queueURL: string, msgs: seq<Outbox>, at: seq<nat>, k: nat)
    requires k < |at| && forall j :: 0 <= j < |at| ==> at[j] < |msgs|
    ensures EntriesAt(queueURL, msgs, at[..k + 1]) ==
              if Fits(msgs[at[k]]) then EntriesAt(queueURL, msgs, at[..k]) + [BuildEntry(queueURL, msgs[at[k]])]
              else EntriesAt(queueURL, msgs, at[..k])
  {
    OneMorePosition(at, k);
  }

  /** The positions `done` have had their sizes checked; the other results are as before. */
  ghost predicate SizesChecked(
    msgs: seq<Outbox>, done: set<nat>, before: seq<PublishResult>, results: seq<PublishResult>)
    requires |before| == |msgs|
  {
    && |results| == |msgs|
    && forall i: nat :: i < |msgs| ==> results[i] == if i in done then Checked(msgs[i]) else before[i]
  }

  lemma {:induction false} OneMoreChecked(
    msgs: seq<Outbox>, done: set<nat>, i: nat, before: seq<PublishResult>, results: seq<PublishResult>)
    requires |before| == |msgs| && i < |msgs| && before[i] == Blank(msgs[i])
    requires SizesChecked(msgs, done, before, results)
    ensures if Fits(msgs[i]) then SizesChecked(msgs, done + {i}, before, results)
            else SizesChecked(msgs, done + {i}, before,
                   results[i := results[i].(success := false, error := Some(OversizeError()))])
  {
  }

  lemma {:induction false} OneMoreElement(at: seq<nat>, k: nat)
    requires k < |at|
    ensures Elements(at[..k + 1]) == Elements(at[..k]) + {at[k]}
  {
    OneMorePosition(at, k);
  }

  method ValidateSizes(queueURL: string, msgs: seq<Outbox>, at: seq<nat>, before: seq<PublishResult>)
    returns (results: seq<PublishResult>, entries: seq<Entry>)
    requires |before| == |msgs|
    requires forall k :: 0 <= k < |at| ==> at[k] < |msgs| && before[at[k]] == Blank(msgs[at[k]])
    ensures SizesChecked(msgs, Elements(at), before, results)
    ensures entries == EntriesAt(queueURL, msgs, at)
  {
    results, entries := before, [];
    ghost var done: set<nat> := {};
    for k := 0 to |at|
      invariant done == Elements(at[..k]) && SizesChecked(msgs, done, before, results)
      invariant entries == EntriesAt(queueURL, msgs, at[..k])
    {
      var i := at[k];
      OneMoreEntry(queueURL, msgs, at, k);
      OneMoreElement(at, k);
      OneMoreChecked(msgs, done, i, before, results);
      if Fits(msgs[i]) {
        entries := entries + [BuildEntry(queueURL, msgs[i])];
      } else {
        results := results[i := results[i].(success := false, error := Some(OversizeError()))];
      }
      done := done + {i};
    }
    assert at[..|at|] == at;
  }

  method MapReply(msgs: seq<Outbox>, at: seq<nat>, before: seq<PublishResult>, reply: Reply, callText: string)
    returns (results: seq<PublishResult>)
    requires |before| == |msgs|
    requires forall k :: 0 <= k < |at| ==> at[k] < |msgs| && before[at[k]] == Checked(msgs[at[k]])
    ensures |results| == |msgs|
    ensures forall i :: 0 <= i < |msgs| ==>
              results[i] == if i in at then Expected(msgs[i], reply, callText) else before[i]
  {
    results := before;
    var sent: map<string, string>, refused: map<string, Error> := map[], map[];
    if reply.Listed? {
      sent, refused := CollectReply(reply);
    }
    for k := 0 to |at|
      invariant |results| == |msgs|
      invariant forall i :: 0 <= i < |msgs| ==>
                  results[i] == if i in at[..k] then Expected(msgs[i], reply, callText) else before[i]
    {
      var i := at[k];
      var m := msgs[i];
      OneMorePosition(at, k);
      if results[i].error.Some? {
        // already failed validation: the error is kept
      } else if reply.CallFailed? {
        results := results[i := results[i].(success := false, error := Some(Wrapped(callText, reply.error)))];
      } else if m.id in sent {
        results := results[i := results[i].(success := true, messageId := sent[m.id])];
      } else if m.id in refused {
        results := results[i := results[i].(success := false, error := Some(refused[m.id]))];
      } else {
        results := results[i := results[i].(success := false,
                                            error := Some(Plain("sqs batch: no result for message " + m.id)))];
      }
    }
    assert at[..|at|] == at;
  }

  // ---------- BatchPublisher ----------

  const BATCH_FAILED := "sqs batch publish failed"

  /**
   Results line up with the messages whatever the broker answers, every failure carries an error, and the call is
   made with exactly the messages that fit, in order. `entries == []` means that no call was made.
   */
  method PublishBatch(queueURL: string, msgs: seq<Outbox>, reply: Reply)
    returns (results: seq<PublishResult>, entries: seq<Entry>)
    ensures |results| == |msgs|
    ensures forall i :: 0 <= i < |msgs| ==> results[i] == Expected(msgs[i], reply, BATCH_FAILED)
    ensures forall i :: 0 <= i < |msgs| ==> Positional(msgs[i], reply, results[i])
    ensures entries == EntriesAt(queueURL, msgs, Upto(|msgs|))
  {
    results := seq(|msgs|, i requires 0 <= i < |msgs| => Blank(msgs[i]));
    results, entries := ValidateSizes(queueURL, msgs, Upto(|msgs|), results);
    forall i | 0 <= i < |msgs| ensures i in Upto(|msgs|) { assert Upto(|msgs|)[i] == i; }
    if entries == [] {
      NoEntriesMeansNoneFit(queueURL, msgs, Upto(|msgs|));
    } else {
      results := MapReply(msgs, Upto(|msgs|), results, reply, BATCH_FAILED);
    }
    forall i | 0 <= i < |msgs| ensures Positional(msgs[i], reply, results[i]) {
      assert Upto(|msgs|)[i] == i;
      ExpectedIsPositional(msgs[i], reply, BATCH_FAILED);
    }
  }

  lemma {:induction false} NoEntriesMeansNoneFit(queueURL: string, msgs: seq<Outbox>, at: seq<nat>)
    requires forall k :: 0 <= k < |at| ==> at[k] < |msgs|
    requires EntriesAt(queueURL, msgs, at) == []
    ensures forall k :: 0 <= k < |at| ==> !Fits(msgs[at[k]])
  {
    if at == [] {
    } else {
      var n := |at| - 1;
      NoEntriesMeansNoneFit(queueURL, msgs, at[..n]);
      forall k | 0 <= k < |at| ensures !Fits(msgs[at[k]]) {
        if k < n { assert at[..n][k] == at[k]; }
      }
    }
  }
}
