/**
 Publishing one batch to many queues in parallel. One goroutine per queue checks sizes, calls SQS and writes its
 results, taking the lock twice; the loop below advances any unfinished queue by one of these two sections, so it
 covers every scheduling and every map iteration order.
 */
module MultiQueue {
  import opened Prelude
  import opened OutboxTable
  import opened Errors
  import opened Publisher

  function QueueOf(m: Outbox, route: string -> string): string { route(m.row.eventType) }

  /** Positions below `n` whose message is routed to `queue`, in order. */
  function PositionsFor(msgs: seq<Outbox>, route: string -> string, queue: string, n: nat): (at: seq<nat>)
    requires n <= |msgs|
  {
    if n == 0 then []
    else if QueueOf(msgs[n - 1], route) == queue then PositionsFor(msgs, route, queue, n - 1) + [n - 1]
    else PositionsFor(msgs, route, queue, n - 1)
  }

  /** A queue's positions are ascending and are exactly those routed to it. */
  lemma {:induction false} PositionsMeaning(msgs: seq<Outbox>, route: string -> string, queue: string, n: nat)
    requires n <= |msgs|
    ensures var at := PositionsFor(msgs, route, queue, n);
            && (forall k :: 0 <= k < |at| ==> at[k] < n && QueueOf(msgs[at[k]], route) == queue)
            && (forall j, k :: 0 <= j < k < |at| ==> at[j] < at[k])
            && (forall i :: 0 <= i < n && QueueOf(msgs[i], route) == queue ==> i in at)
            && |at| <= n
  {
    if n == 0 {
    } else {
      PositionsMeaning(msgs, route, queue, n - 1);
      var front, at := PositionsFor(msgs, route, queue, n - 1), PositionsFor(msgs, route, queue, n);
      if QueueOf(msgs[n - 1], route) == queue {
        assert at == front + [n - 1];
        assert at[|front|] == n - 1;
      } else {
        assert at == front;
      }
    }
  }

  /** The entries due to a queue: its messages that fit, in input order. */
  function QueueEntries(msgs: seq<Outbox>, route: string -> string, q: string): seq<Entry>
  {
    PositionsMeaning(msgs, route, q, |msgs|);
    EntriesAt(q, msgs, PositionsFor(msgs, route, q, |msgs|))
  }

  /** A missing map entry reads as nil. */
  function Group(groups: map<string, seq<nat>>, q: string): seq<nat>
  {
    if q in groups then groups[q] else []
  }

  /** The groups after the first `n` messages have been sorted into them. */
  ghost predicate Sorted(msgs: seq<Outbox>, route: string -> string, groups: map<string, seq<nat>>, n: nat)
    requires n <= |msgs|
  {
    && (forall j :: 0 <= j < n ==> QueueOf(msgs[j], route) in groups)
    && forall q :: q in groups ==> groups[q] == PositionsFor(msgs, route, q, n)
  }

  lemma {:induction false} GroupIsPositions(
    msgs: seq<Outbox>, route: string -> string, groups: map<string, seq<nat>>, n: nat, q: string)
    requires n <= |msgs| && Sorted(msgs, route, groups, n)
    ensures Group(groups, q) == PositionsFor(msgs, route, q, n)
  {
    PositionsMeaning(msgs, route, q, n);
    var at := PositionsFor(msgs, route, q, n);
    if at != [] { assert QueueOf(msgs[at[0]], route) == q; }
  }

  lemma {:induction false} OneMoreSorted(
    msgs: seq<Outbox>, route: string -> string, groups: map<string, seq<nat>>, i: nat, groups': map<string, seq<nat>>)
    requires i < |msgs| && Sorted(msgs, route, groups, i)
    requires groups' == groups[QueueOf(msgs[i], route) := Group(groups, QueueOf(msgs[i], route)) + [i]]
    ensures Sorted(msgs, route, groups', i + 1)
  {
    forall q | q in groups' ensures groups'[q] == PositionsFor(msgs, route, q, i + 1) {
      GroupIsPositions(msgs, route, groups, i, q);
    }
  }

  method GroupByQueue(msgs: seq<Outbox>, route: string -> string) returns (groups: map<string, seq<nat>>)
    ensures Sorted(msgs, route, groups, |msgs|)
  {
    groups := map[];
    for i := 0 to |msgs|
      invariant Sorted(msgs, route, groups, i)
    {
      var q := QueueOf(msgs[i], route);
      ghost var before := groups;
      groups := groups[q := Group(groups, q) + [i]];
      OneMoreSorted(msgs, route, before, i, groups);
    }
  }

  /** The groups partition the positions of the batch. */
  ghost predicate Grouped(msgs: seq<Outbox>, route: string -> string, groups: map<string, seq<nat>>)
  {
    && (forall i :: 0 <= i < |msgs| ==> QueueOf(msgs[i], route) in groups && i in groups[QueueOf(msgs[i], route)])
    && (forall q, k :: q in groups && 0 <= k < |groups[q]| ==>
          groups[q][k] < |msgs| && QueueOf(msgs[groups[q][k]], route) == q)
  }

  datatype Progress = Waiting | Calling | Done

  function CallText(queue: string): string { "sqs batch publish to " + queue + " failed" }

  /** What a message's slot holds once its queue has got this far. */
  function SlotAt(m: Outbox, p: Progress, reply: Reply, queue: string): PublishResult
  {
    match p
    case Waiting => Blank(m)
    case Calling => Checked(m)
    case Done => Expected(m, reply, CallText(queue))
  }

  /** The results as they stand while every queue has got as far as `progress` says. */
  ghost predicate Consistent(
    msgs: seq<Outbox>, route: string -> string, replies: string -> Reply,
    progress: map<string, Progress>, results: seq<PublishResult>)
  {
    && |results| == |msgs|
    && forall i :: 0 <= i < |msgs| ==>
         var q := QueueOf(msgs[i], route);
         q in progress && results[i] == SlotAt(msgs[i], progress[q], replies(q), q)
  }

  /** A queue that has got past validation has made its one call, unless none of its messages fit. */
  ghost predicate Called(
    msgs: seq<Outbox>, route: string -> string, progress: map<string, Progress>, calls: map<string, seq<Entry>>,
    q: string)
    requires q in progress
  {
    var entries := QueueEntries(msgs, route, q);
    if progress[q].Waiting? || entries == [] then q !in calls else q in calls && calls[q] == entries
  }

  /** A goroutine that brings just its own slots up to date leaves the results consistent. */
  lemma {:induction false} OwnSlotsOnly(
    msgs: seq<Outbox>, route: string -> string, replies: string -> Reply, groups: map<string, seq<nat>>,
    q: string, next: Progress, before: seq<PublishResult>, results: seq<PublishResult>, progress: map<string, Progress>)
    requires Grouped(msgs, route, groups) && q in groups && q in progress
    requires Consistent(msgs, route, replies, progress, before)
    requires |results| == |msgs|
    requires forall i :: 0 <= i < |msgs| ==>
               results[i] == if i in groups[q] then SlotAt(msgs[i], next, replies(q), q) else before[i]
    ensures Consistent(msgs, route, replies, progress[q := next], results)
  {
    forall i | 0 <= i < |msgs| ensures i in groups[q] <==> QueueOf(msgs[i], route) == q {
      if i in groups[q] { var k :| 0 <= k < |groups[q]| && groups[q][k] == i; }
    }
  }

  /** One goroutine runs its next critical section. */
  method Advance(
    msgs: seq<Outbox>, route: string -> string, replies: string -> Reply, groups: map<string, seq<nat>>,
    q: string, p: Progress, before: seq<PublishResult>, ghost progress: map<string, Progress>)
    returns (results: seq<PublishResult>, next: Progress, call: Option<seq<Entry>>)
    requires Grouped(msgs, route, groups) && q in groups && groups[q] == PositionsFor(msgs, route, q, |msgs|)
    requires q in progress && progress[q] == p && !p.Done?
    requires Consistent(msgs, route, replies, progress, before)
    ensures Consistent(msgs, route, replies, progress[q := next], results)
    ensures !next.Waiting? && (p.Calling? ==> next.Done? && call.None?)
    ensures p.Waiting? ==>
              var entries := QueueEntries(msgs, route, q); call == if entries == [] then None else Some(entries)
  {
    var at := groups[q];
    call := None;
    if p.Waiting? {
      var entries;
      results, entries := ValidateSizes(q, msgs, at, before);
      if entries == [] {
        NoEntriesMeansNoneFit(q, msgs, at);
        AllOversize(msgs, at, replies(q), q);
        next := Done;
      } else {
        call := Some(entries);
        next := Calling;
      }
    } else {
      results := MapReply(msgs, at, before, replies(q), CallText(q));
      next := Done;
    }
    OwnSlotsOnly(msgs, route, replies, groups, q, next, before, results, progress);
  }

  function Unfinished(progress: map<string, Progress>): set<string>
  {
    set q | q in progress && !progress[q].Done?
  }

  function Waiters(progress: map<string, Progress>): set<string>
  {
    set q | q in progress && progress[q].Waiting?
  }

  /**
   Whatever the schedule, the results are those of each message on its own queue, and every queue with a message
   that fits gets exactly one call, with those messages in input order.
   */
  method PublishBatch(msgs: seq<Outbox>, route: string -> string, replies: string -> Reply)
    returns (results: seq<PublishResult>, calls: map<string, seq<Entry>>)
    ensures |results| == |msgs|
    ensures forall i :: 0 <= i < |msgs| ==>
              var q := QueueOf(msgs[i], route); results[i] == Expected(msgs[i], replies(q), CallText(q))
    ensures forall i :: 0 <= i < |msgs| ==> Positional(msgs[i], replies(route(msgs[i].row.eventType)), results[i])
    ensures forall q :: q in calls ==> calls[q] != [] && calls[q] == QueueEntries(msgs, route, q)
    ensures forall i :: 0 <= i < |msgs| && Small(msgs[i]) ==> route(msgs[i].row.eventType) in calls
  {
    results := seq(|msgs|, i requires 0 <= i < |msgs| => Blank(msgs[i]));
    var groups := GroupByQueue(msgs, route);
    GroupsPartition(msgs, route, groups);
    var progress: map<string, Progress> := map q | q in groups :: Waiting;
    calls := map[];
    while Unfinished(progress) != {}
      invariant progress.Keys == groups.Keys && calls.Keys <= groups.Keys
      invariant Consistent(msgs, route, replies, progress, results)
      invariant forall q :: q in progress ==> Called(msgs, route, progress, calls, q)
      decreases |Unfinished(progress)| + |Waiters(progress)|
    {
      var q :| q in Unfinished(progress);
      var next, call;
      results, next, call := Advance(msgs, route, replies, groups, q, progress[q], results, progress);
      AdvanceShrinks(progress, q, next);
      CallIsRecorded(msgs, route, progress, calls, q, next, call);
      if call.Some? {
        calls := calls[q := call.value];
      }
      progress := progress[q := next];
    }
    DoneResults(msgs, route, replies, progress, results);
    DoneCalls(msgs, route, progress, calls);
  }

  lemma {:induction false} GroupsPartition(msgs: seq<Outbox>, route: string -> string, groups: map<string, seq<nat>>)
    requires Sorted(msgs, route, groups, |msgs|)
    ensures Grouped(msgs, route, groups)
    ensures forall q :: q in groups ==> groups[q] == PositionsFor(msgs, route, q, |msgs|)
  {
    forall q | q in groups
      ensures groups[q] == PositionsFor(msgs, route, q, |msgs|)
      ensures forall k :: 0 <= k < |groups[q]| ==> groups[q][k] < |msgs| && QueueOf(msgs[groups[q][k]], route) == q
      ensures forall i :: 0 <= i < |msgs| && QueueOf(msgs[i], route) == q ==> i in groups[q]
    {
      PositionsMeaning(msgs, route, q, |msgs|);
    }
  }

  lemma {:induction false} AdvanceShrinks(progress: map<string, Progress>, q: string, next: Progress)
    requires q in Unfinished(progress)
    requires !next.Waiting? && (progress[q].Calling? ==> next.Done?)
    ensures var progress' := progress[q := next];
            |Unfinished(progress')| + |Waiters(progress')| < |Unfinished(progress)| + |Waiters(progress)|
  {
    var progress' := progress[q := next];
    assert Unfinished(progress') == if next.Done? then Unfinished(progress) - {q} else Unfinished(progress);
    assert Waiters(progress') == Waiters(progress) - {q};
  }

  lemma {:induction false} CallIsRecorded(
    msgs: seq<Outbox>, route: string -> string, progress: map<string, Progress>, calls: map<string, seq<Entry>>,
    q: string, next: Progress, call: Option<seq<Entry>>)
    requires forall o :: o in progress ==> Called(msgs, route, progress, calls, o)
    requires q in progress && !next.Waiting?
    requires if progress[q].Waiting? then
               call == (var entries := QueueEntries(msgs, route, q); if entries == [] then None else Some(entries))
             else call.None?
    ensures var calls' := if call.Some? then calls[q := call.value] else calls;
            forall o :: o in progress ==> Called(msgs, route, progress[q := next], calls', o)
  {
    var calls' := if call.Some? then calls[q := call.value] else calls;
    forall o | o in progress ensures Called(msgs, route, progress[q := next], calls', o) {
      assert Called(msgs, route, progress, calls, o);
    }
  }

  lemma {:induction false} DoneResults(
    msgs: seq<Outbox>, route: string -> string, replies: string -> Reply, progress: map<string, Progress>,
    results: seq<PublishResult>)
    requires Consistent(msgs, route, replies, progress, results) && Unfinished(progress) == {}
    ensures forall i :: 0 <= i < |msgs| ==>
              var q := QueueOf(msgs[i], route); results[i] == Expected(msgs[i], replies(q), CallText(q))
    ensures forall i :: 0 <= i < |msgs| ==> Positional(msgs[i], replies(QueueOf(msgs[i], route)), results[i])
  {
    forall i | 0 <= i < |msgs|
      ensures var q := QueueOf(msgs[i], route);
              results[i] == Expected(msgs[i], replies(q), CallText(q)) && Positional(msgs[i], replies(q), results[i])
    {
      var q := QueueOf(msgs[i], route);
      assert q !in Unfinished(progress);
      ExpectedIsPositional(msgs[i], replies(q), CallText(q));
    }
  }

  lemma {:induction false} DoneCalls(
    msgs: seq<Outbox>, route: string -> string, progress: map<string, Progress>, calls: map<string, seq<Entry>>)
    requires forall i :: 0 <= i < |msgs| ==> QueueOf(msgs[i], route) in progress
    requires calls.Keys <= progress.Keys && Unfinished(progress) == {}
    requires forall q :: q in progress ==> Called(msgs, route, progress, calls, q)
    ensures forall q :: q in calls ==> calls[q] != [] && calls[q] == QueueEntries(msgs, route, q)
    ensures forall i :: 0 <= i < |msgs| && Fits(msgs[i]) ==> QueueOf(msgs[i], route) in calls
  {
    forall q | q in calls ensures calls[q] != [] && calls[q] == QueueEntries(msgs, route, q) {
      assert Called(msgs, route, progress, calls, q);
    }
    forall i | 0 <= i < |msgs| && Fits(msgs[i]) ensures QueueOf(msgs[i], route) in calls {
      var q := QueueOf(msgs[i], route);
      assert q !in Unfinished(progress) && Called(msgs, route, progress, calls, q);
      PositionsMeaning(msgs, route, q, |msgs|);
      if QueueEntries(msgs, route, q) == [] { NoEntriesMeansNoneFit(q, msgs, PositionsFor(msgs, route, q, |msgs|)); }
    }
  }

  lemma {:induction false} AllOversize(msgs: seq<Outbox>, at: seq<nat>, reply: Reply, queue: string)
    requires forall k :: 0 <= k < |at| ==> at[k] < |msgs| && !Fits(msgs[at[k]])
    ensures forall k :: 0 <= k < |at| ==> Expected(msgs[at[k]], reply, CallText(queue)) == Checked(msgs[at[k]])
  {
  }

  // ---------- what a call contains ----------

  lemma {:induction false} EntriesAreMessages(queueURL: string, msgs: seq<Outbox>, at: seq<nat>, j: nat)
    requires forall k :: 0 <= k < |at| ==> at[k] < |msgs|
    requires j < |EntriesAt(queueURL, msgs, at)|
    ensures var entry := EntriesAt(queueURL, msgs, at)[j];
            exists k :: 0 <= k < |at| && Fits(msgs[at[k]]) && entry == BuildEntry(queueURL, msgs[at[k]])
  {
    var n := |at| - 1;
    var front := EntriesAt(queueURL, msgs, at[..n]);
    if j < |front| {
      EntriesAreMessages(queueURL, msgs, at[..n], j);
      var k :| 0 <= k < n && Fits(msgs[at[..n][k]]) && front[j] == BuildEntry(queueURL, msgs[at[..n][k]]);
      assert at[..n][k] == at[k];
    }
  }

  predicate DistinctIds(es: seq<Entry>)
  {
    forall i, j :: 0 <= i < j < |es| ==> es[i].id != es[j].id
  }

  /** Messages with distinct ids give a call with distinct entry ids, as SQS demands. */
  lemma {:induction false} EntriesAreDistinct(queueURL: string, msgs: seq<Outbox>, at: seq<nat>)
    requires forall k :: 0 <= k < |at| ==> at[k] < |msgs|
    requires Distinct(at)
    requires forall i, j :: 0 <= i < j < |msgs| ==> msgs[i].id != msgs[j].id
    ensures DistinctIds(EntriesAt(queueURL, msgs, at))
  {
    if at == [] {
    } else {
      var n := |at| - 1;
      EntriesAreDistinct(queueURL, msgs, at[..n]);
      var front, es := EntriesAt(queueURL, msgs, at[..n]), EntriesAt(queueURL, msgs, at);
      NewEntryIsNew(queueURL, msgs, at, front);
      assert es == front || es == front + [BuildEntry(queueURL, msgs[at[n]])];
    }
  }

  lemma {:induction false} NewEntryIsNew(queueURL: string, msgs: seq<Outbox>, at: seq<nat>, front: seq<Entry>)
    requires at != [] && forall k :: 0 <= k < |at| ==> at[k] < |msgs|
    requires Distinct(at)
    requires forall i, j :: 0 <= i < j < |msgs| ==> msgs[i].id != msgs[j].id
    requires front == EntriesAt(queueURL, msgs, at[..|at| - 1])
    ensures forall j :: 0 <= j < |front| ==> front[j].id != msgs[at[|at| - 1]].id
  {
    var n := |at| - 1;
    forall j | 0 <= j < |front| ensures front[j].id != msgs[at[n]].id {
      EntriesAreMessages(queueURL, msgs, at[..n], j);
      var k :| 0 <= k < n && Fits(msgs[at[..n][k]]) && front[j] == BuildEntry(queueURL, msgs[at[..n][k]]);
      assert at[..n][k] == at[k] && at[k] != at[n];
    }
  }

  /** A batch size within the publisher's maximum and, if it is set, the option. */
  predicate Allowed(configured: nat, publisherMax: nat, k: nat)
  {
    1 <= k <= publisherMax && (configured == 0 || k <= configured)
  }

  /** The batch size NewBatchDispatcher settles on: the largest the publisher and, if it is set, the option allow. */
  function EffectiveBatchSize(configured: nat, publisherMax: nat): (n: nat)
    requires publisherMax >= 1
    ensures Allowed(configured, publisherMax, n)
    ensures forall k: nat :: Allowed(configured, publisherMax, k) ==> k <= n
  {
    if configured == 0 || configured > publisherMax then publisherMax else configured
  }

  /** With a batch of at most the effective size, every queue's call is within SQS's limit and has distinct entries. */
  lemma {:induction false} CallsAreWithinLimits(
    configured: nat, msgs: seq<Outbox>, route: string -> string, queue: string)
    requires |msgs| <= EffectiveBatchSize(configured, MAX_BATCH_SIZE)
    requires forall i, j :: 0 <= i < j < |msgs| ==> msgs[i].id != msgs[j].id
    ensures |QueueEntries(msgs, route, queue)| <= 10 && DistinctIds(QueueEntries(msgs, route, queue))
    ensures configured == 0 || configured > 10 ==> EffectiveBatchSize(configured, MAX_BATCH_SIZE) == 10
  {
    PositionsMeaning(msgs, route, queue, |msgs|);
    EntriesAreDistinct(queue, msgs, PositionsFor(msgs, route, queue, |msgs|));
  }
}
