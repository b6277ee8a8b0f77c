/** Every interleaving of discovery, polls, reads and expiry on the table of remote
    components (fabric/network.py) keeps its invariants. */
module FabricRuns {
  import opened FabricNetwork

  datatype Work = Discover | Poll(token: Token) | Read(token: Token)

  /** An outstanding request, by the origin it counts against and what it does. */
  datatype Task = Task(origin: string, work: Work)

  datatype System = System(table: Table, tasks: map<Purpose, Task>)

  datatype Event =
    | Updated(local: map<string, Endpoint>, origins: map<string, Endpoint>)
    | Ingested(origin: string, rows: seq<Row>, now: real)
    | StartDiscovery(origin: string)
    | StartPoll(instance: string, binding: Binding, now: real)
    | StartRead(instance: string, binding: Binding, now: real)
    | PollResult(instance: string, sample: Sample, size: nat, now: real, interval: real)
    | ReadResult(instance: string, text: string)
    | Finished(key: Purpose)
    | Expiry(instance: string, now: real)

  predicate Legal(s: System, ev: Event) {
    match ev
    case StartDiscovery(origin) => origin in s.table.origins
    case StartPoll(instance, b, now) =>
      instance in s.table.nodes && b in s.table.nodes[instance].routes && Usable(s.table, b, now)
    case StartRead(instance, b, now) =>
      instance in s.table.nodes && b in s.table.nodes[instance].routes && Usable(s.table, b, now)
    case PollResult(instance, _, _, _, _) => Component(instance) in s.tasks && s.tasks[Component(instance)].work.Poll?
    case ReadResult(instance, _) => Component(instance) in s.tasks && s.tasks[Component(instance)].work.Read?
    case Finished(key) => key in s.tasks
    case _ => true
  }

  function Started(s: System, key: Purpose, task: Task): System {
    System(Reserve(s.table, key, task.origin),
           if Free(s.table, key, task.origin) then s.tasks[key := task] else s.tasks)
  }

  ghost function Next(s: System, ev: Event): System
    requires Legal(s, ev)
  {
    match ev
    case Updated(local, origins) => s.(table := Update(s.table, local, origins))
    case Ingested(origin, rows, now) => s.(table := Ingest(s.table, origin, rows, now))
    case StartDiscovery(origin) => Started(s, Discovery(origin), Task(origin, Discover))
    case StartPoll(instance, b, _) => Started(s, Component(instance), Task(b.token.origin, Poll(b.token)))
    case StartRead(instance, b, _) => Started(s, Component(instance), Task(b.token.origin, Read(b.token)))
    case PollResult(instance, sample, size, now, interval) =>
      s.(table := FinishPoll(s.table, instance, s.tasks[Component(instance)].work.token, sample, size, now, interval))
    case ReadResult(_, _) => s
    case Finished(key) => System(Release(s.table, key, s.tasks[key].origin), s.tasks - {key})
    case Expiry(instance, now) => s.(table := Expire(s.table, instance, now))
  }

  /** What the reader is told when the answer is there. */
  function Told(s: System, ev: Event): Reply
    requires Legal(s, ev) && ev.ReadResult?
  {
    ReadReply(s.table, ev.instance, s.tasks[Component(ev.instance)].work.token, ev.text)
  }

  ghost predicate Runs(s: System, events: seq<Event>)
    decreases |events|
  {
    events != [] ==> Legal(s, events[0]) && Runs(Next(s, events[0]), events[1..])
  }

  ghost function Final(s: System, events: seq<Event>): System
    requires Runs(s, events)
    decreases |events|
  {
    if events == [] then s else Final(Next(s, events[0]), events[1..])
  }

  // ---------------------------------------------------------------- the invariant

  predicate DistinctTokens(routes: seq<Binding>) {
    forall i, j :: 0 <= i < j < |routes| ==> routes[i].token != routes[j].token
  }

  /** Every path belongs to one component at most, and each has eight at most. */
  ghost predicate Exclusive(nodes: map<string, Node>) {
    && (forall i :: i in nodes ==> DistinctTokens(nodes[i].routes) && |nodes[i].routes| <= ROUTES_PER_NODE)
    && (forall i, j, x :: i in nodes && j in nodes && Binds(nodes[i].routes, x) && Binds(nodes[j].routes, x) ==> i == j)
  }

  ghost predicate Counted(t: Table, tasks: map<Purpose, Task>) {
    && t.active == tasks.Keys && |tasks| <= REQUESTS
    && (forall o :: Running(t.originActive, o) == |Of(tasks, o)| <= REQUESTS_PER_ORIGIN)
    && (forall o :: o in t.originActive ==> t.originActive[o] > 0)
  }

  /** The outstanding requests of an origin. */
  function Of(tasks: map<Purpose, Task>, origin: string): set<Purpose> {
    set k | k in tasks && tasks[k].origin == origin
  }

  ghost predicate Remote(t: Table) {
    forall i :: i in t.nodes ==> i !in AllLocal(t.localInstances)
  }

  ghost predicate Inv(s: System) {
    && Exclusive(s.table.nodes) && Remote(s.table) && Counted(s.table, s.tasks)
    && |s.table.nodes| <= s.table.limit && SumOf(Sizes(s.table.nodes)) <= CACHE_LIMIT
  }

  // ---------------------------------------------------------------- routes

  lemma {:induction false} UnboundIs(routes: seq<Binding>, token: Token)
    ensures forall x :: Binds(Unbound(routes, token), x) <==> Binds(routes, x) && x != token
    ensures |Unbound(routes, token)| <= |routes|
    ensures Binds(routes, token) ==> |Unbound(routes, token)| < |routes|
    ensures DistinctTokens(routes) ==> DistinctTokens(Unbound(routes, token))
  {
    if routes != [] {
      var last := |routes| - 1;
      var front := routes[..last];
      UnboundIs(front, token);
      var u := Unbound(front, token);
      assert routes == front + [routes[last]];
      forall x ensures Binds(routes, x) <==> Binds(front, x) || x == routes[last].token {
        BindsAppend(front, routes[last], x);
      }
      if routes[last].token != token {
        forall x ensures Binds(Unbound(routes, token), x) <==> Binds(u, x) || x == routes[last].token {
          BindsAppend(u, routes[last], x);
        }
      } else {
        assert Unbound(routes, token) == u;
      }
      if DistinctTokens(routes) {
        assert DistinctTokens(front);
        assert !Binds(front, routes[last].token);
        if routes[last].token != token { DistinctAppend(u, routes[last]); }
      }
    }
  }

  lemma BindsAppend(routes: seq<Binding>, b: Binding, x: Token)
    ensures Binds(routes + [b], x) <==> Binds(routes, x) || x == b.token
  {
    var all := routes + [b];
    if Binds(routes, x) {
      var i :| 0 <= i < |routes| && routes[i].token == x;
      assert all[i].token == x;
    }
    assert all[|routes|] == b;
  }

  lemma DistinctAppend(routes: seq<Binding>, b: Binding)
    requires DistinctTokens(routes) && !Binds(routes, b.token)
    ensures DistinctTokens(routes + [b])
  {
  }

  lemma BoundIs(routes: seq<Binding>, b: Binding)
    requires DistinctTokens(routes) && |routes| <= ROUTES_PER_NODE
    ensures var r := Bound(routes, b);
            && DistinctTokens(r) && |r| <= ROUTES_PER_NODE
            && forall x :: Binds(r, x) ==> Binds(routes, x) || x == b.token
  {
    var r := Bound(routes, b);
    if !Binds(routes, b.token) && |routes| < ROUTES_PER_NODE {
      DistinctAppend(routes, b);
      forall x ensures Binds(r, x) <==> Binds(routes, x) || x == b.token { BindsAppend(routes, b, x); }
    } else if Binds(routes, b.token) {
      forall x | Binds(r, x) ensures Binds(routes, x) || x == b.token {
        var i :| 0 <= i < |r| && r[i].token == x;
        assert routes[i].token == x || x == b.token;
      }
    }
  }

  lemma {:induction false} OnlyIs(routes: seq<Binding>, token: Token)
    ensures |Only(routes, token)| <= 1 && (Only(routes, token) == [] <==> !Binds(routes, token))
    ensures Only(routes, token) != [] ==> Only(routes, token)[0].token == token
  {
    if routes != [] && routes[0].token != token {
      OnlyIs(routes[1..], token);
      if Binds(routes, token) {
        var i :| 0 <= i < |routes| && routes[i].token == token;
        assert routes[1..][i - 1].token == token;
      }
      if Binds(routes[1..], token) {
        var i :| 0 <= i < |routes[1..]| && routes[1..][i].token == token;
        assert routes[i + 1].token == token;
      }
    }
  }

  /** Rotation keeps the set of paths. */
  lemma RotatedIs(routes: seq<Binding>, token: Token)
    requires DistinctTokens(routes) && |routes| <= ROUTES_PER_NODE
    ensures var r := Rotated(routes, token);
            DistinctTokens(r) && |r| <= ROUTES_PER_NODE && forall x :: Binds(r, x) <==> Binds(routes, x)
  {
    UnboundIs(routes, token);
    OnlyIs(routes, token);
    var u, only := Unbound(routes, token), Only(routes, token);
    if only == [] {
      assert Rotated(routes, token) == u;
    } else {
      assert only == [only[0]];
      DistinctAppend(u, only[0]);
      forall x ensures Binds(Rotated(routes, token), x) <==> Binds(u, x) || x == token { BindsAppend(u, only[0], x); }
    }
  }

  // ---------------------------------------------------------------- discovery keeps the invariant

  lemma AnnouncedExclusive(nodes: map<string, Node>, row: Row, token: Token, now: real)
    requires Exclusive(nodes)
    ensures Exclusive(Announced(nodes, row, token, now))
  {
    hide Bound, Unbound, Binds, DistinctTokens;
    var after := Announced(nodes, row, token, now);
    var node := if row.instance in nodes then nodes[row.instance] else NEW_NODE;
    assert DistinctTokens(node.routes) && |node.routes| <= ROUTES_PER_NODE by { NewRoutes(); }
    BoundIs(node.routes, Binding(token, now));
    forall i | i in nodes && i != row.instance
      ensures DistinctTokens(after[i].routes) && |after[i].routes| <= ROUTES_PER_NODE
      ensures forall x :: Binds(after[i].routes, x) ==> Binds(nodes[i].routes, x) && x != token
    {
      UnboundIs(nodes[i].routes, token);
    }
    forall i, j, x | i in after && j in after && Binds(after[i].routes, x) && Binds(after[j].routes, x) ensures i == j {
      NewRoutes();
    }
  }

  lemma NewRoutes()
    ensures DistinctTokens(NEW_NODE.routes) && |NEW_NODE.routes| <= ROUTES_PER_NODE
            && forall x :: !Binds(NEW_NODE.routes, x)
  {
  }

  lemma AnnouncedSums(nodes: map<string, Node>, row: Row, token: Token, now: real)
    ensures SumOf(Sizes(Announced(nodes, row, token, now))) == SumOf(Sizes(nodes))
    ensures Announced(nodes, row, token, now).Keys == nodes.Keys + {row.instance}
  {
    hide Bound, Unbound;
    var after := Sizes(Announced(nodes, row, token, now));
    if row.instance in nodes {
      assert after == Sizes(nodes);
    } else {
      SumWithout(after, row.instance);
      assert after - {row.instance} == Sizes(nodes);
    }
  }

  ghost predicate TableOk(t: Table, local: set<string>) {
    && Exclusive(t.nodes) && (forall i :: i in t.nodes ==> i !in local)
    && |t.nodes| <= t.limit && SumOf(Sizes(t.nodes)) <= CACHE_LIMIT
  }

  lemma AnnouncedOk(t: Table, after: Table, local: set<string>, row: Row, token: Token, now: real)
    requires TableOk(t, local) && row.instance !in local && (row.instance in t.nodes || |t.nodes| < t.limit)
    requires after == t.(nodes := Announced(t.nodes, row, token, now))
    ensures TableOk(after, local)
  {
    hide Announced, Exclusive, SumOf, Sizes;
    AnnouncedExclusive(t.nodes, row, token, now);
    AnnouncedSums(t.nodes, row, token, now);
    KeysGrow(t.nodes, after.nodes, row.instance);
    forall i | i in after.nodes ensures i !in local {
      assert i in t.nodes.Keys + {row.instance};
    }
  }

  lemma RowKeeps(t: Table, local: set<string>, origin: string, row: Row, now: real)
    requires TableOk(t, local)
    ensures TableOk(IngestRow(t, local, origin, row, now), local)
  {
    hide Announced, TableOk;
    var token := Token(origin, row.route);
    if row.instance in local || row.route == [] {
    } else if row.instance in t.nodes || |t.nodes| < t.limit {
      AnnouncedOk(t, t.(nodes := Announced(t.nodes, row, token, now)), local, row, token, now);
    } else {
      TruncatedOk(t, local);
    }
  }

  lemma TruncatedOk(t: Table, local: set<string>)
    requires TableOk(t, local)
    ensures TableOk(t.(truncated := true), local)
  {
    hide Exclusive;
  }

  /** Nothing but the nodes and the mark of truncation changes. */
  lemma {:induction false} RowsKeep(t: Table, local: set<string>, origin: string, rows: seq<Row>, now: real)
    requires TableOk(t, local)
    ensures var after := IngestRows(t, local, origin, rows, now);
            TableOk(after, local) && after == t.(nodes := after.nodes, truncated := after.truncated)
  {
    hide TableOk, Announced;
    if rows != [] {
      RowsKeep(t, local, origin, rows[..|rows| - 1], now);
      RowKeeps(IngestRows(t, local, origin, rows[..|rows| - 1], now), local, origin, rows[|rows| - 1], now);
    }
  }

  lemma LessNodes(nodes: map<string, Node>, gone: set<string>)
    requires Exclusive(nodes)
    ensures Exclusive(nodes - gone) && SumOf(Sizes(nodes - gone)) <= SumOf(Sizes(nodes)) && |nodes - gone| <= |nodes|
  {
    hide Binds, DistinctTokens;
    SumOfPart(Sizes(nodes), Sizes(nodes - gone));
    assert (nodes - gone).Keys <= nodes.Keys;
    Fewer((nodes - gone).Keys, nodes.Keys);
  }

  lemma {:induction false} Fewer<T>(a: set<T>, b: set<T>)
    requires a <= b
    ensures |a| <= |b|
  {
    if a != {} {
      var x :| x in a;
      Fewer(a - {x}, b - {x});
    }
  }

  lemma IngestKeeps(s: System, origin: string, rows: seq<Row>, now: real)
    requires Inv(s)
    ensures Inv(s.(table := Ingest(s.table, origin, rows, now)))
  {
    hide Exclusive, IngestRows, LocalIds, Counted, SumOf, Sizes;
    var t := s.table;
    if origin in t.origins {
      var localInstances := t.localInstances[origin := LocalIds(t, t.origins[origin], rows)];
      var local := AllLocal(localInstances);
      var base := t.(localInstances := localInstances, nodes := t.nodes - local);
      LessNodes(t.nodes, local);
      assert TableOk(base, local);
      RowsKeep(base, local, origin, rows, now);
      SameCounts(t, Ingest(t, origin, rows, now), s.tasks);
    }
  }

  lemma SameCounts(t: Table, u: Table, tasks: map<Purpose, Task>)
    requires Counted(t, tasks) && t.active == u.active && t.originActive == u.originActive
    ensures Counted(u, tasks)
  {
  }

  lemma UpdateKeeps(s: System, local: map<string, Endpoint>, origins: map<string, Endpoint>)
    requires Inv(s)
    ensures Inv(s.(table := Update(s.table, local, origins)))
  {
    hide Exclusive;
  }

  // ---------------------------------------------------------------- requests keep the invariant

  lemma StartCounts(t: Table, tasks: map<Purpose, Task>, key: Purpose, task: Task)
    requires Counted(t, tasks) && Free(t, key, task.origin)
    ensures Counted(Reserve(t, key, task.origin), tasks[key := task])
  {
    hide Of;
    var after := tasks[key := task];
    KeysGrow(tasks, after, key);
    forall o ensures |Of(after, o)| == |Of(tasks, o)| + (if o == task.origin then 1 else 0) {
      OfStarted(tasks, key, task, o);
    }
  }

  lemma OfStarted(tasks: map<Purpose, Task>, key: Purpose, task: Task, o: string)
    requires key !in tasks
    ensures |Of(tasks[key := task], o)| == |Of(tasks, o)| + (if o == task.origin then 1 else 0)
  {
    var after := tasks[key := task];
    if o == task.origin {
      assert Of(after, o) == Of(tasks, o) + {key};
    } else {
      assert Of(after, o) == Of(tasks, o);
    }
  }

  lemma KeysGrow<K, V>(m: map<K, V>, after: map<K, V>, k: K)
    requires after.Keys == m.Keys + {k}
    ensures |after| == |m| + (if k in m then 0 else 1)
  {
    assert |after| == |after.Keys| && |m| == |m.Keys|;
    if k in m { assert after.Keys == m.Keys; }
  }

  lemma StartKeeps(s: System, key: Purpose, task: Task)
    requires Inv(s)
    ensures Inv(Started(s, key, task))
  {
    hide Exclusive, Remote, SumOf, Sizes, Counted;
    if Free(s.table, key, task.origin) {
      StartCounts(s.table, s.tasks, key, task);
      SameRemote(s.table, Reserve(s.table, key, task.origin));
    }
  }

  lemma SameRemote(t: Table, u: Table)
    requires Remote(t) && u.nodes == t.nodes && u.localInstances == t.localInstances
    ensures Remote(u)
  {
  }

  lemma FinishKeeps(s: System, key: Purpose)
    requires Inv(s) && key in s.tasks
    ensures Inv(System(Release(s.table, key, s.tasks[key].origin), s.tasks - {key}))
  {
    hide Exclusive, Remote, SumOf, Sizes;
    var tasks, origin := s.tasks - {key}, s.tasks[key].origin;
    assert key in Of(s.tasks, origin);
    assert Running(s.table.originActive, origin) == |Of(s.tasks, origin)| > 0;
    forall o ensures |Of(tasks, o)| == |Of(s.tasks, o)| - (if o == origin then 1 else 0) {
      if o == origin {
        assert Of(tasks, o) == Of(s.tasks, o) - {key};
      } else {
        assert Of(tasks, o) == Of(s.tasks, o);
      }
    }
    assert tasks.Keys == s.tasks.Keys - {key};
    var after := Release(s.table, key, origin);
    assert Counted(after, tasks) by {
      assert |tasks| == |tasks.Keys| && |s.tasks| == |s.tasks.Keys|;
    }
    SameRemote(s.table, after);
  }

  lemma RecordedRoutes(node: Node, token: Token, sample: Sample, size: nat, now: real, interval: real)
    requires DistinctTokens(node.routes) && |node.routes| <= ROUTES_PER_NODE
    ensures var after := Recorded(node, token, sample, size, now, interval);
            && after.size == size && DistinctTokens(after.routes) && |after.routes| <= ROUTES_PER_NODE
            && forall x :: Binds(after.routes, x) <==> Binds(node.routes, x)
  {
    hide Rotated, Binds, DistinctTokens, Power2;
    RotatedIs(node.routes, token);
  }

  lemma RecordedNodes(nodes: map<string, Node>, instance: string, node: Node)
    requires Exclusive(nodes) && instance in nodes
    requires DistinctTokens(node.routes) && |node.routes| <= ROUTES_PER_NODE
    requires forall x :: Binds(node.routes, x) <==> Binds(nodes[instance].routes, x)
    ensures var after := nodes[instance := node];
            Exclusive(after) && after.Keys == nodes.Keys
                && SumOf(Sizes(after)) == SumOf(Sizes(nodes - {instance})) + node.size
  {
    hide Binds, DistinctTokens;
    var after := nodes[instance := node];
    SumWithout(Sizes(after), instance);
    assert Sizes(after) - {instance} == Sizes(nodes - {instance});
  }

  lemma PollKeeps(s: System, instance: string, token: Token, sample: Sample, size: nat, now: real, interval: real)
    requires Inv(s)
    ensures Inv(s.(table := FinishPoll(s.table, instance, token, sample, size, now, interval)))
  {
    hide Binds, DistinctTokens, Recorded, Counted, Remote, SumOf, Sizes;
    var t := s.table;
    if instance in t.nodes && Binds(t.nodes[instance].routes, token) {
      var fits := size <= SAMPLE_LIMIT && SumOf(Sizes(t.nodes - {instance})) + size <= CACHE_LIMIT;
      var node := Recorded(t.nodes[instance], token, if fits then sample else Unavailable, if fits then size else 0,
                           now, interval);
      var after := t.(nodes := t.nodes[instance := node]);
      RecordedRoutes(t.nodes[instance], token, if fits then sample else Unavailable, if fits then size else 0, now,
                     interval);
      assert Exclusive(after.nodes) && after.nodes.Keys == t.nodes.Keys && SumOf(Sizes(after.nodes)) <= CACHE_LIMIT by {
        RecordedNodes(t.nodes, instance, node);
        LessNodes(t.nodes, {instance});
      }
      assert |after.nodes| == |after.nodes.Keys| && |t.nodes| == |t.nodes.Keys|;
      SameCounts(t, after, s.tasks);
      SameLocals(t, after);
      PollIs(s, after, instance, token, sample, size, now, interval);
    }
  }

  lemma PollIs(s: System, after: Table, instance: string, token: Token, sample: Sample, size: nat, now: real,
               interval: real)
    requires var t := s.table;
             && instance in t.nodes && Binds(t.nodes[instance].routes, token)
             && var fits := size <= SAMPLE_LIMIT && SumOf(Sizes(t.nodes - {instance})) + size <= CACHE_LIMIT;
                var taken, kept := if fits then sample else Unavailable, if fits then size else 0;
                var node := Recorded(t.nodes[instance], token, taken, kept, now, interval);
                after == t.(nodes := t.nodes[instance := node])
    ensures FinishPoll(s.table, instance, token, sample, size, now, interval) == after
  {
    hide Binds, Recorded, SumOf, Sizes;
  }

  lemma SameLocals(t: Table, u: Table)
    requires Remote(t) && u.nodes.Keys == t.nodes.Keys && u.localInstances == t.localInstances
    ensures Remote(u)
  {
  }

  lemma ExpireKeeps(s: System, instance: string, now: real)
    requires Inv(s)
    ensures Inv(s.(table := Expire(s.table, instance, now)))
  {
    hide Exclusive, Counted, SumOf, Sizes;
    LessNodes(s.table.nodes, {instance});
    SameCounts(s.table, Expire(s.table, instance, now), s.tasks);
  }

  lemma EventKeeps(s: System, ev: Event)
    requires Inv(s) && Legal(s, ev)
    ensures Inv(Next(s, ev))
  {
    hide Inv, Ingest, Update, Reserve, Release, FinishPoll, Expire, Started;
    match ev {
      case Updated(local, origins) => UpdateKeeps(s, local, origins);
      case Ingested(origin, rows, now) => IngestKeeps(s, origin, rows, now);
      case StartDiscovery(origin) => StartKeeps(s, Discovery(origin), Task(origin, Discover));
      case StartPoll(instance, b, _) => StartKeeps(s, Component(instance), Task(b.token.origin, Poll(b.token)));
      case StartRead(instance, b, _) => StartKeeps(s, Component(instance), Task(b.token.origin, Read(b.token)));
      case PollResult(instance, sample, size, now, interval) =>
        PollKeeps(s, instance, s.tasks[Component(instance)].work.token, sample, size, now, interval);
      case ReadResult(_, _) =>
      case Finished(key) => FinishKeeps(s, key);
      case Expiry(instance, now) => ExpireKeeps(s, instance, now);
    }
  }

  function Empty(limit: nat): System {
    System(Table(map[], map[], map[], map[], {}, map[], limit, false), map[])
  }

  lemma {:induction false} RunKeeps(s: System, events: seq<Event>)
    requires Inv(s) && Runs(s, events)
    ensures Inv(Final(s, events))
    decreases |events|
  {
    hide Inv, Next;
    if events != [] {
      EventKeeps(s, events[0]);
      RunKeeps(Next(s, events[0]), events[1..]);
    }
  }

  /** In every interleaving: paths belong to one component each, nothing local is listed as
      remote, the counters are those of the outstanding requests, the cache is bounded. */
  lemma EveryInterleavingKeeps(limit: nat, events: seq<Event>)
    requires Runs(Empty(limit), events)
    ensures Inv(Final(Empty(limit), events))
  {
    hide Next, Legal;
    var s := Empty(limit);
    assert Inv(s) by { EmptyInv(limit); }
    RunKeeps(s, events);
  }

  lemma EmptyInv(limit: nat)
    ensures Inv(Empty(limit))
  {
    forall o ensures Of(map[], o) == {} { }
  }
}
