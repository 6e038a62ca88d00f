/** Routing event types to queues: exact matches first, then the longest registered prefix, then the default. */
module Router {
  datatype Route = Route(prefix: string, queueURL: string)

  /** Longer prefixes come first, and no prefix comes twice. */
  predicate Ordered(rs: seq<Route>)
  {
    forall i, j :: 0 <= i < j < |rs| ==> |rs[i].prefix| >= |rs[j].prefix| && rs[i].prefix != rs[j].prefix
  }

  /** The slice holds exactly the registered prefixes with their queues. */
  ghost predicate Lists(rs: seq<Route>, table: map<string, string>)
  {
    forall p, u :: Route(p, u) in rs <==> p in table && table[p] == u
  }

  /** `p` is the longest registered prefix of `eventType`. */
  ghost predicate Best(table: map<string, string>, eventType: string, p: string)
  {
    p in table && p <= eventType && forall q :: q in table && q <= eventType ==> |q| <= |p|
  }

  /** The documented priority: exact match > longest prefix match > default queue. */
  ghost predicate RoutesTo(
    exact: map<string, string>, table: map<string, string>, defaultQueue: string, eventType: string, url: string)
  {
    if eventType in exact then url == exact[eventType]
    else if exists p :: Best(table, eventType, p) then exists p :: Best(table, eventType, p) && url == table[p]
    else url == defaultQueue && forall p :: p in table ==> !(p <= eventType)
  }

  /** The priority rule leaves no choice: a string has only one prefix of each length. */
  lemma {:induction false} RouteIsUnique(
    exact: map<string, string>, table: map<string, string>, defaultQueue: string, eventType: string, u: string,
    v: string)
    requires RoutesTo(exact, table, defaultQueue, eventType, u)
    requires RoutesTo(exact, table, defaultQueue, eventType, v)
    ensures u == v
  {
    forall p, q | Best(table, eventType, p) && Best(table, eventType, q) ensures p == q {
      assert p == eventType[..|p|] && q == eventType[..|q|];
    }
  }

  /** Drops the registration of `prefix`, if there is one. */
  method RemovePrefix(rs: seq<Route>, ghost table: map<string, string>, prefix: string) returns (rest: seq<Route>)
    requires Ordered(rs) && Lists(rs, table)
    ensures Ordered(rest) && Lists(rest, table - {prefix})
  {
    var i := 0;
    while i < |rs| && rs[i].prefix != prefix
      invariant 0 <= i <= |rs|
      invariant forall j :: 0 <= j < i ==> rs[j].prefix != prefix
    {
      i := i + 1;
    }
    rest := if i < |rs| then rs[..i] + rs[i + 1..] else rs;
    RemoveKeepsOrder(rs, i, rest);
    RemoveKeepsListing(rs, table, i, prefix, rest);
  }

  /** Inserts a route before the first shorter prefix. */
  method InsertRoute(rs: seq<Route>, ghost table: map<string, string>, r: Route) returns (rs': seq<Route>)
    requires Ordered(rs) && Lists(rs, table) && r.prefix !in table
    ensures Ordered(rs') && Lists(rs', table[r.prefix := r.queueURL])
  {
    var k := 0;
    while k < |rs| && |r.prefix| <= |rs[k].prefix|
      invariant 0 <= k <= |rs|
      invariant forall j :: 0 <= j < k ==> |r.prefix| <= |rs[j].prefix|
    {
      k := k + 1;
    }
    rs' := rs[..k] + [r] + rs[k..];
    InsertKeepsOrder(rs, table, k, r, rs');
    InsertKeepsListing(rs, table, k, r, rs');
  }

  class EventTypeQueueMap {
    var exact: map<string, string>
    var prefixes: seq<Route>
    var defaultQueue: string
    ghost var table: map<string, string>

    ghost predicate Valid()
      reads this
    {
      Ordered(prefixes) && Lists(prefixes, table)
    }

    constructor (defaultQueue: string)
      ensures Valid() && exact == map[] && table == map[] && this.defaultQueue == defaultQueue
    {
      exact, prefixes, table := map[], [], map[];
      this.defaultQueue := defaultQueue;
    }

    method Register(eventType: string, queueURL: string)
      requires Valid()
      modifies this`exact
      ensures Valid() && exact == old(exact)[eventType := queueURL]
    {
      exact := exact[eventType := queueURL];
    }

    method RegisterPrefix(prefix: string, queueURL: string)
      requires Valid()
      modifies this`prefixes, this`table
      ensures Valid() && table == old(table)[prefix := queueURL]
    {
      var rest := RemovePrefix(prefixes, table, prefix);
      prefixes := InsertRoute(rest, table - {prefix}, Route(prefix, queueURL));
      assert (table - {prefix})[prefix := queueURL] == table[prefix := queueURL];
      table := table[prefix := queueURL];
    }

    method QueueURL(eventType: string) returns (url: string)
      requires Valid()
      ensures RoutesTo(exact, table, defaultQueue, eventType, url)
    {
      if eventType in exact {
        return exact[eventType];
      }
      var i := 0;
      while i < |prefixes|
        invariant 0 <= i <= |prefixes|
        invariant forall j :: 0 <= j < i ==> !(prefixes[j].prefix <= eventType)
      {
        if |eventType| >= |prefixes[i].prefix| && eventType[..|prefixes[i].prefix|] == prefixes[i].prefix {
          FirstMatchIsBest(prefixes, table, eventType, i);
          return prefixes[i].queueURL;
        }
        i := i + 1;
      }
      forall p | p in table ensures !(p <= eventType) { assert Route(p, table[p]) in prefixes; }
      return defaultQueue;
    }
  }

  lemma {:induction false} RemoveKeepsOrder(rs: seq<Route>, i: nat, rest: seq<Route>)
    requires Ordered(rs) && i <= |rs|
    requires rest == if i < |rs| then rs[..i] + rs[i + 1..] else rs
    ensures Ordered(rest)
  {
    forall a, b | 0 <= a < b < |rest|
      ensures |rest[a].prefix| >= |rest[b].prefix| && rest[a].prefix != rest[b].prefix
    {
      var a' := if i < |rs| && a >= i then a + 1 else a;
      var b' := if i < |rs| && b >= i then b + 1 else b;
      assert rest[a] == rs[a'] && rest[b] == rs[b'];
    }
  }

  lemma {:induction false} RemoveKeepsListing(
    rs: seq<Route>, table: map<string, string>, i: nat, prefix: string, rest: seq<Route>)
    requires Ordered(rs) && Lists(rs, table)
    requires i <= |rs| && (forall j :: 0 <= j < i ==> rs[j].prefix != prefix) && (i < |rs| ==> rs[i].prefix == prefix)
    requires rest == if i < |rs| then rs[..i] + rs[i + 1..] else rs
    ensures Lists(rest, table - {prefix})
  {
    assert i < |rs| ==> rs == rs[..i] + [rs[i]] + rs[i + 1..];
    forall p, u ensures Route(p, u) in rest <==> Route(p, u) in rs && p != prefix {
      if Route(p, u) in rest && i < |rs| {
        assert forall j :: i < j < |rs| ==> rs[j].prefix != rs[i].prefix;
      }
    }
  }

  lemma {:induction false} InsertKeepsOrder(
    rs: seq<Route>, table: map<string, string>, k: nat, r: Route, rs': seq<Route>)
    requires Ordered(rs) && Lists(rs, table) && r.prefix !in table
    requires k <= |rs| && rs' == rs[..k] + [r] + rs[k..]
    requires forall j :: 0 <= j < k ==> |r.prefix| <= |rs[j].prefix|
    requires k < |rs| ==> |r.prefix| > |rs[k].prefix|
    ensures Ordered(rs')
  {
    forall j | 0 <= j < |rs| ensures rs[j].prefix != r.prefix && (j >= k ==> |r.prefix| > |rs[j].prefix|) {
      assert Route(rs[j].prefix, rs[j].queueURL) in rs;
    }
    forall a, b | 0 <= a < b < |rs'|
      ensures |rs'[a].prefix| >= |rs'[b].prefix| && rs'[a].prefix != rs'[b].prefix
    {
      if a != k && b != k {
        assert rs'[a] == rs[if a < k then a else a - 1] && rs'[b] == rs[if b < k then b else b - 1];
      }
    }
  }

  lemma {:induction false} InsertKeepsListing(
    rs: seq<Route>, table: map<string, string>, k: nat, r: Route, rs': seq<Route>)
    requires Lists(rs, table) && r.prefix !in table
    requires k <= |rs| && rs' == rs[..k] + [r] + rs[k..]
    ensures Lists(rs', table[r.prefix := r.queueURL])
  {
    assert rs == rs[..k] + rs[k..];
    forall p, u ensures Route(p, u) in rs' <==> Route(p, u) in rs || Route(p, u) == r { }
  }

  lemma {:induction false} FirstMatchIsBest(rs: seq<Route>, table: map<string, string>, eventType: string, i: nat)
    requires Ordered(rs) && Lists(rs, table)
    requires i < |rs| && rs[i].prefix <= eventType && forall j :: 0 <= j < i ==> !(rs[j].prefix <= eventType)
    ensures Best(table, eventType, rs[i].prefix) && table[rs[i].prefix] == rs[i].queueURL
  {
    assert Route(rs[i].prefix, rs[i].queueURL) in rs;
    forall q | q in table && q <= eventType ensures |q| <= |rs[i].prefix| {
      assert Route(q, table[q]) in rs;
      var j :| 0 <= j < |rs| && rs[j] == Route(q, table[q]);
    }
  }

  // ---------- sequences of registrations ----------

  datatype Registration = Exact(eventType: string, queueURL: string) | Prefix(prefix: string, queueURL: string)

  function ExactTable(regs: seq<Registration>): map<string, string>
  {
    if regs == [] then map[]
    else
      var (front, last) := (ExactTable(regs[..|regs| - 1]), regs[|regs| - 1]);
      if last.Exact? then front[last.eventType := last.queueURL] else front
  }

  function PrefixTable(regs: seq<Registration>): map<string, string>
  {
    if regs == [] then map[]
    else
      var (front, last) := (PrefixTable(regs[..|regs| - 1]), regs[|regs| - 1]);
      if last.Prefix? then front[last.prefix := last.queueURL] else front
  }

  /** After any sequence of registrations the router answers by the documented priority over what was registered. */
  method Configure(defaultQueue: string, regs: seq<Registration>) returns (m: EventTypeQueueMap)
    ensures fresh(m) && m.Valid() && m.defaultQueue == defaultQueue
    ensures m.exact == ExactTable(regs) && m.table == PrefixTable(regs)
  {
    m := new EventTypeQueueMap(defaultQueue);
    for i := 0 to |regs|
      invariant fresh(m) && m.Valid() && m.defaultQueue == defaultQueue
      invariant m.exact == ExactTable(regs[..i]) && m.table == PrefixTable(regs[..i])
    {
      assert regs[..i + 1][..i] == regs[..i];
      match regs[i]
      case Exact(eventType, url) => m.Register(eventType, url);
      case Prefix(prefix, url) => m.RegisterPrefix(prefix, url);
    }
    assert regs[..|regs|] == regs;
  }

  /** No event type and no prefix is registered twice. */
  predicate NoRepeats(regs: seq<Registration>)
  {
    forall i, j :: 0 <= i < j < |regs| ==>
      && (regs[i].Exact? && regs[j].Exact? ==> regs[i].eventType != regs[j].eventType)
      && (regs[i].Prefix? && regs[j].Prefix? ==> regs[i].prefix != regs[j].prefix)
  }

  lemma {:induction false} TablesListRegistrations(regs: seq<Registration>, key: string, url: string)
    requires NoRepeats(regs)
    ensures (key in ExactTable(regs) && ExactTable(regs)[key] == url) <==> Exact(key, url) in regs
    ensures (key in PrefixTable(regs) && PrefixTable(regs)[key] == url) <==> Prefix(key, url) in regs
  {
    if regs == [] {
    } else {
      var n := |regs| - 1;
      TablesListRegistrations(regs[..n], key, url);
      assert regs == regs[..n] + [regs[n]];
      if Exact(key, url) in regs[..n] {
        var i :| 0 <= i < n && regs[i] == Exact(key, url);
      }
      if Prefix(key, url) in regs[..n] {
        var i :| 0 <= i < n && regs[i] == Prefix(key, url);
      }
    }
  }

  /** The same registrations without repeats, in any order, give the same lookups. */
  lemma {:induction false} OrderDoesNotMatter(a: seq<Registration>, b: seq<Registration>)
    requires NoRepeats(a) && NoRepeats(b)
    requires multiset(a) == multiset(b)
    ensures ExactTable(a) == ExactTable(b) && PrefixTable(a) == PrefixTable(b)
    ensures forall d, e, u :: RoutesTo(ExactTable(a), PrefixTable(a), d, e, u) <==>
                              RoutesTo(ExactTable(b), PrefixTable(b), d, e, u)
  {
    SameTables(a, b);
    SameTables(b, a);
    assert ExactTable(a) == ExactTable(b) && PrefixTable(a) == PrefixTable(b);
  }

  lemma {:induction false} SameTables(a: seq<Registration>, b: seq<Registration>)
    requires NoRepeats(a) && NoRepeats(b)
    requires multiset(a) == multiset(b)
    ensures forall k :: k in ExactTable(a) ==> k in ExactTable(b) && ExactTable(b)[k] == ExactTable(a)[k]
    ensures forall k :: k in PrefixTable(a) ==> k in PrefixTable(b) && PrefixTable(b)[k] == PrefixTable(a)[k]
  {
    forall r | r in a ensures r in b { assert r in multiset(b); }
    forall k | k in ExactTable(a) ensures k in ExactTable(b) && ExactTable(b)[k] == ExactTable(a)[k] {
      TablesListRegistrations(a, k, ExactTable(a)[k]);
      TablesListRegistrations(b, k, ExactTable(a)[k]);
    }
    forall k | k in PrefixTable(a) ensures k in PrefixTable(b) && PrefixTable(b)[k] == PrefixTable(a)[k] {
      TablesListRegistrations(a, k, PrefixTable(a)[k]);
      TablesListRegistrations(b, k, PrefixTable(a)[k]);
    }
  }
}
