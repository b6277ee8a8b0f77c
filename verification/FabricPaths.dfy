/** What happens to the path of an outstanding request (fabric/network.py): a result whose
    path has been announced for another component in the meantime is discarded, and no
    result is discarded without cause. */
module FabricPaths {
  import opened FabricNetwork
  import opened FabricRuns

  ghost predicate Holds(t: Table, instance: string, token: Token) {
    instance in t.nodes && Binds(t.nodes[instance].routes, token)
  }

  /** Only an announcement for the component itself gives it a path. */
  lemma RowBinds(t: Table, local: set<string>, origin: string, row: Row, now: real, instance: string, token: Token)
    requires Holds(IngestRow(t, local, origin, row, now), instance, token) && !Holds(t, instance, token)
    ensures row.instance == instance && Token(origin, row.route) == token
  {
    hide Bound, Unbound, Binds;
    var mine := Token(origin, row.route);
    if instance == row.instance {
      var node := if row.instance in t.nodes then t.nodes[row.instance] else NEW_NODE;
      NewRoutes();
      BindsBound(node.routes, Binding(mine, now), token);
    } else {
      UnboundIs(t.nodes[instance].routes, mine);
    }
  }

  lemma BindsBound(routes: seq<Binding>, b: Binding, x: Token)
    requires Binds(Bound(routes, b), x)
    ensures Binds(routes, x) || x == b.token
  {
    var r := Bound(routes, b);
    var i :| 0 <= i < |r| && r[i].token == x;
    if i < |routes| { assert routes[i].token == x || x == b.token; }
  }

  lemma {:induction false} RowsBind(t: Table, local: set<string>, origin: string, rows: seq<Row>, now: real,
                                    instance: string, token: Token)
    requires Holds(IngestRows(t, local, origin, rows, now), instance, token) && !Holds(t, instance, token)
    ensures token.origin == origin && Row(instance, token.route) in rows
  {
    hide IngestRow, Holds;
    if rows != [] {
      var last := |rows| - 1;
      var front := IngestRows(t, local, origin, rows[..last], now);
      if Holds(front, instance, token) {
        RowsBind(t, local, origin, rows[..last], now, instance, token);
      } else {
        RowBinds(front, local, origin, rows[last], now, instance, token);
        assert rows[last] == Row(instance, token.route);
      }
    }
  }

  /** Rows only add components. */
  lemma {:induction false} RowsList(t: Table, local: set<string>, origin: string, rows: seq<Row>, now: real)
    ensures var after := IngestRows(t, local, origin, rows, now);
            t.nodes.Keys <= after.nodes.Keys && after.limit == t.limit && |t.nodes| <= |after.nodes|
  {
    hide Bound, Unbound;
    if rows != [] { RowsList(t, local, origin, rows[..|rows| - 1], now); }
    Fewer(t.nodes.Keys, IngestRows(t, local, origin, rows, now).nodes.Keys);
  }

  lemma {:induction false} RowsSplit(t: Table, local: set<string>, origin: string, rows: seq<Row>, more: seq<Row>,
                                     now: real)
    ensures IngestRows(t, local, origin, rows + more, now)
            == IngestRows(IngestRows(t, local, origin, rows, now), local, origin, more, now)
  {
    hide IngestRow;
    if more == [] {
      assert rows + more == rows;
    } else {
      var last := |more| - 1;
      assert (rows + more)[..|rows + more| - 1] == rows + more[..last];
      RowsSplit(t, local, origin, rows, more[..last], now);
    }
  }

  /** A row adds its component or none, and one that is refused meets a full table. */
  lemma RowLists(t: Table, local: set<string>, origin: string, row: Row, now: real)
    ensures var after := IngestRow(t, local, origin, row, now);
            && (forall i :: i in after.nodes && i !in t.nodes ==> i == row.instance && |t.nodes| < t.limit)
            && (row.instance !in local && row.route != [] && row.instance !in after.nodes ==>
                |after.nodes| >= after.limit)
  {
    hide Bound, Unbound;
  }

  /** A component that a row names and that is listed in the end was taken up with that row:
      the table does not become less full. */
  lemma {:induction false} ListedAtOnce(t: Table, local: set<string>, origin: string, row: Row, rows: seq<Row>,
                                        now: real)
    requires row.instance !in local && row.route != []
    requires row.instance in IngestRows(IngestRow(t, local, origin, row, now), local, origin, rows, now).nodes
    ensures row.instance in IngestRow(t, local, origin, row, now).nodes
  {
    hide IngestRow;
    var first := IngestRow(t, local, origin, row, now);
    RowLists(t, local, origin, row, now);
    if row.instance !in first.nodes && rows != [] {
      var last := |rows| - 1;
      RowLists(IngestRows(first, local, origin, rows[..last], now), local, origin, rows[last], now);
      var front := IngestRows(first, local, origin, rows[..last], now);
      RowsList(first, local, origin, rows[..last], now);
      if row.instance in front.nodes { ListedAtOnce(t, local, origin, row, rows[..last], now); }
    }
  }

  /** A row for another component takes the path away. */
  lemma RowTakes(t: Table, local: set<string>, origin: string, row: Row, now: real, instance: string)
    requires row.instance != instance && row.instance !in local && row.route != []
    requires row.instance in IngestRow(t, local, origin, row, now).nodes
    ensures !Holds(IngestRow(t, local, origin, row, now), instance, Token(origin, row.route))
  {
    hide Bound, Unbound, Binds;
    if instance in t.nodes { UnboundIs(t.nodes[instance].routes, Token(origin, row.route)); }
  }

  /** The last word of an ingested text on a path decides: after a row that names another
      component, which is listed in the end, this one has lost the path, unless a later row
      gives it back. */
  lemma RebindingRowDecides(t: Table, local: set<string>, origin: string, rows: seq<Row>, i: nat, now: real,
                            instance: string)
    requires i < |rows| && rows[i].instance != instance && rows[i].route != [] && rows[i].instance !in local
    requires rows[i].instance in IngestRows(t, local, origin, rows, now).nodes
    requires Row(instance, rows[i].route) !in rows[i + 1..]
    ensures !Holds(IngestRows(t, local, origin, rows, now), instance, Token(origin, rows[i].route))
  {
    hide IngestRows, IngestRow, Holds;
    var rest := rows[i + 1..];
    var front := IngestRows(t, local, origin, rows[..i], now);
    var there := IngestRow(front, local, origin, rows[i], now);
    assert IngestRows(t, local, origin, rows, now) == IngestRows(there, local, origin, rest, now) by {
      LastRow(t, local, origin, rows[..i + 1], now);
      assert rows[..i + 1][..i] == rows[..i] && rows == rows[..i + 1] + rest;
      RowsSplit(t, local, origin, rows[..i + 1], rest, now);
    }
    ListedAtOnce(front, local, origin, rows[i], rest, now);
    RowTakes(front, local, origin, rows[i], now, instance);
    if Holds(IngestRows(there, local, origin, rest, now), instance, Token(origin, rows[i].route)) {
      RowsBind(there, local, origin, rest, now, instance, Token(origin, rows[i].route));
    }
  }

  lemma LastRow(t: Table, local: set<string>, origin: string, rows: seq<Row>, now: real)
    requires rows != []
    ensures IngestRows(t, local, origin, rows, now)
            == IngestRow(IngestRows(t, local, origin, rows[..|rows| - 1], now), local, origin, rows[|rows| - 1], now)
  {
  }

  ghost predicate Announces(ev: Event, instance: string, token: Token) {
    ev.Ingested? && ev.origin == token.origin && Row(instance, token.route) in ev.rows
  }

  lemma EventBinds(s: System, ev: Event, instance: string, token: Token)
    requires Inv(s) && Legal(s, ev) && !Holds(s.table, instance, token) && !Announces(ev, instance, token)
    ensures !Holds(Next(s, ev).table, instance, token)
  {
    hide Bound, Binds, IngestRows, Recorded, Counted, Remote, SumOf, Sizes, LocalIds;
    match ev {
      case Ingested(origin, rows, now) =>
        if origin in s.table.origins { IngestBinds(s.table, origin, rows, now, instance, token); }
      case PollResult(i, sample, size, now, interval) =>
        PollBinds(s, i, s.tasks[Component(i)].work.token, sample, size, now, interval, instance, token);
      case _ =>
    }
  }

  lemma IngestBinds(t: Table, origin: string, rows: seq<Row>, now: real, instance: string, token: Token)
    requires origin in t.origins && !Holds(t, instance, token)
             && !(origin == token.origin && Row(instance, token.route) in rows)
    ensures !Holds(Ingest(t, origin, rows, now), instance, token)
  {
    hide Binds, IngestRows, LocalIds;
    var localInstances := t.localInstances[origin := LocalIds(t, t.origins[origin], rows)];
    var local := AllLocal(localInstances);
    var base := t.(localInstances := localInstances, nodes := t.nodes - local);
    if Holds(IngestRows(base, local, origin, rows, now), instance, token) {
      RowsBind(base, local, origin, rows, now, instance, token);
    }
  }

  lemma PollBinds(s: System, i: string, via: Token, sample: Sample, size: nat, now: real, interval: real,
                  instance: string, token: Token)
    requires Inv(s) && !Holds(s.table, instance, token)
    ensures !Holds(FinishPoll(s.table, i, via, sample, size, now, interval), instance, token)
  {
    hide Binds, DistinctTokens, Recorded, Counted, Remote, SumOf, Sizes;
    var t := s.table;
    if i in t.nodes && Binds(t.nodes[i].routes, via) {
      var fits := size <= SAMPLE_LIMIT && SumOf(Sizes(t.nodes - {i})) + size <= CACHE_LIMIT;
      RecordedRoutes(t.nodes[i], via, if fits then sample else Unavailable, if fits then size else 0, now, interval);
    }
  }

  lemma {:induction false} LostStaysLost(s: System, events: seq<Event>, instance: string, token: Token)
    requires Inv(s) && Runs(s, events) && !Holds(s.table, instance, token)
    requires forall ev :: ev in events ==> !Announces(ev, instance, token)
    ensures !Holds(Final(s, events).table, instance, token) && Inv(Final(s, events))
    decreases |events|
  {
    hide Inv, Next, Holds, Announces;
    if events != [] {
      EventBinds(s, events[0], instance, token);
      EventKeeps(s, events[0]);
      LostStaysLost(Next(s, events[0]), events[1..], instance, token);
    }
  }

  /** The event announces the path for another component that gets listed, and does not
      give it back afterwards. */
  ghost predicate Rebinds(s: System, ev: Event, instance: string, token: Token)
    requires Legal(s, ev)
  {
    && ev.Ingested? && ev.origin == token.origin && ev.origin in s.table.origins
    && exists i :: 0 <= i < |ev.rows| && TakesAt(ev.rows, i, instance, token)
                   && ev.rows[i].instance in Next(s, ev).table.nodes
  }

  ghost predicate TakesAt(rows: seq<Row>, i: nat, instance: string, token: Token)
    requires i < |rows|
  {
    rows[i].route == token.route && rows[i].instance != instance && Row(instance, token.route) !in rows[i + 1..]
  }

  lemma RebindingTakes(s: System, ev: Event, instance: string, token: Token)
    requires Inv(s) && Legal(s, ev) && Rebinds(s, ev, instance, token)
    ensures !Holds(Next(s, ev).table, instance, token)
  {
    hide IngestRows, LocalIds, Counted, Exclusive, SumOf, Sizes, Holds;
    var t, origin, rows := s.table, ev.origin, ev.rows;
    var i :| 0 <= i < |rows| && TakesAt(rows, i, instance, token) && rows[i].instance in Next(s, ev).table.nodes;
    var entry := t.origins[origin];
    var localInstances := t.localInstances[origin := LocalIds(t, entry, rows)];
    var local := AllLocal(localInstances);
    var base := t.(localInstances := localInstances, nodes := t.nodes - local);
    assert Inv(Next(s, ev)) by { EventKeeps(s, ev); }
    LocalsStay(t, origin, rows, ev.now);
    EmptyRouteIsLocal(t, entry, rows, i, localInstances, origin);
    RebindingRowDecides(base, local, origin, rows, i, ev.now, instance);
  }

  lemma LocalsStay(t: Table, origin: string, rows: seq<Row>, now: real)
    requires origin in t.origins
    ensures Ingest(t, origin, rows, now).localInstances
            == t.localInstances[origin := LocalIds(t, t.origins[origin], rows)]
  {
    hide LocalIds;
    var localInstances := t.localInstances[origin := LocalIds(t, t.origins[origin], rows)];
    var local := AllLocal(localInstances);
    SameTable(t.(localInstances := localInstances, nodes := t.nodes - local), local, origin, rows, now);
  }

  lemma {:induction false} SameTable(t: Table, local: set<string>, origin: string, rows: seq<Row>, now: real)
    ensures IngestRows(t, local, origin, rows, now).localInstances == t.localInstances
  {
    hide Announced;
    if rows != [] { SameTable(t, local, origin, rows[..|rows| - 1], now); }
  }

  lemma EmptyRouteIsLocal(t: Table, entry: Endpoint, rows: seq<Row>, i: nat, locals: map<string, set<string>>,
                          o: string)
    requires i < |rows| && o in locals && locals[o] == LocalIds(t, entry, rows)
    ensures rows[i].route == [] ==> rows[i].instance in AllLocal(locals)
  {
    assert rows[i] in rows;
    assert IsLocal(t, entry, rows[i]) ==> rows[i].instance in LocalIds(t, entry, rows);
  }

  /** An outstanding request stays what it is until it ends. */
  lemma {:induction false} TaskStays(s: System, events: seq<Event>, key: Purpose)
    requires Inv(s) && Runs(s, events) && key in s.tasks && Finished(key) !in events
    ensures key in Final(s, events).tasks && Final(s, events).tasks[key] == s.tasks[key]
    decreases |events|
  {
    hide Exclusive, Remote, SumOf, Sizes, Ingest, FinishPoll, Expire;
    if events != [] {
      EventKeeps(s, events[0]);
      assert events[0] in events && key in s.table.active;
      TaskStays(Next(s, events[0]), events[1..], key);
    }
  }

  /** A result that comes for a path rebound in the meantime is discarded. While a request
      is outstanding, a discovery announces its path for another component; whatever happens
      then, short of announcing the path for this component again, the result of a poll
      changes nothing, and a reader is told that the path has changed. */
  lemma ReboundResultIsDiscarded(s: System, ev: Event, events: seq<Event>, result: Event)
    requires Inv(s) && Legal(s, ev) && Runs(Next(s, ev), events) && Legal(Final(Next(s, ev), events), result)
    requires result.PollResult? || result.ReadResult?
    requires var key := Component(result.instance);
             && key in s.tasks && !s.tasks[key].work.Discover? && Finished(key) !in events
             && Rebinds(s, ev, result.instance, s.tasks[key].work.token)
             && forall e :: e in events ==> !Announces(e, result.instance, s.tasks[key].work.token)
    ensures var at := Final(Next(s, ev), events);
            && Next(at, result) == at
            && (result.ReadResult? ==> Told(at, result) == PathChanged)
  {
    hide Inv, Announces, Rebinds, Runs, Final, Holds;
    var key := Component(result.instance);
    var token := s.tasks[key].work.token;
    var there := Next(s, ev);
    RebindingTakes(s, ev, result.instance, token);
    EventKeeps(s, ev);
    assert there.tasks == s.tasks by { IngestLeavesTasks(s, ev, result.instance, token); }
    TaskStays(there, events, key);
    LostStaysLost(there, events, result.instance, token);
    Discards(Final(there, events), result);
  }

  lemma IngestLeavesTasks(s: System, ev: Event, instance: string, token: Token)
    requires Legal(s, ev) && Rebinds(s, ev, instance, token)
    ensures Next(s, ev).tasks == s.tasks
  {
  }

  lemma Discards(s: System, ev: Event)
    requires (ev.PollResult? || ev.ReadResult?) && Legal(s, ev)
    requires !Holds(s.table, ev.instance, s.tasks[Component(ev.instance)].work.token)
    ensures Next(s, ev) == s && (ev.ReadResult? ==> Told(s, ev) == PathChanged)
  {
  }

  // ---------------------------------------------------------------- paths that are kept

  /** The event names another component on the path, or finds this one to be local. */
  ghost predicate Contests(s: System, ev: Event, instance: string, token: Token)
    requires Legal(s, ev)
  {
    && ev.Ingested?
    && (|| (ev.origin == token.origin
            && exists row :: row in ev.rows && row.route == token.route && row.instance != instance)
        || instance in AllLocal(Next(s, ev).table.localInstances))
  }

  lemma BoundKeeps(routes: seq<Binding>, b: Binding, x: Token)
    requires Binds(routes, x)
    ensures Binds(Bound(routes, b), x)
  {
    var i :| 0 <= i < |routes| && routes[i].token == x;
    assert Bound(routes, b)[i].token == x;
  }

  lemma RowHolds(t: Table, local: set<string>, origin: string, row: Row, now: real, instance: string, token: Token)
    requires Holds(t, instance, token) && (Token(origin, row.route) == token ==> row.instance == instance)
    ensures Holds(IngestRow(t, local, origin, row, now), instance, token)
  {
    hide Bound, Unbound, Binds;
    if row.instance == instance {
      BoundKeeps(t.nodes[instance].routes, Binding(Token(origin, row.route), now), token);
    } else {
      UnboundIs(t.nodes[instance].routes, Token(origin, row.route));
    }
  }

  lemma {:induction false} RowsHold(t: Table, local: set<string>, origin: string, rows: seq<Row>, now: real,
                                    instance: string, token: Token)
    requires Holds(t, instance, token)
    requires forall row :: row in rows && Token(origin, row.route) == token ==> row.instance == instance
    ensures Holds(IngestRows(t, local, origin, rows, now), instance, token)
  {
    hide IngestRow, Holds;
    if rows != [] {
      var last := |rows| - 1;
      RowsHold(t, local, origin, rows[..last], now, instance, token);
      assert rows[last] in rows;
      RowHolds(IngestRows(t, local, origin, rows[..last], now), local, origin, rows[last], now, instance, token);
    }
  }

  /** While a request is outstanding, nothing else takes its path. */
  lemma EventHolds(s: System, ev: Event, instance: string, token: Token)
    requires Inv(s) && Legal(s, ev) && Holds(s.table, instance, token) && Component(instance) in s.tasks
    requires !Contests(s, ev, instance, token)
    ensures Holds(Next(s, ev).table, instance, token)
  {
    hide Binds, IngestRows, Recorded, Remote, Exclusive, SumOf, Sizes, LocalIds;
    match ev {
      case Ingested(origin, rows, now) =>
        if origin in s.table.origins {
          var t := s.table;
          var localInstances := t.localInstances[origin := LocalIds(t, t.origins[origin], rows)];
          var local := AllLocal(localInstances);
          LocalsStay(t, origin, rows, now);
          RowsHold(t.(localInstances := localInstances, nodes := t.nodes - local), local, origin, rows, now, instance,
                   token);
        }
      case PollResult(i, sample, size, now, interval) =>
        PollHolds(s, i, s.tasks[Component(i)].work.token, sample, size, now, interval, instance, token);
      case Expiry(i, now) => assert Component(instance) in s.table.active;
      case _ =>
    }
  }

  lemma PollHolds(s: System, i: string, via: Token, sample: Sample, size: nat, now: real, interval: real,
                  instance: string, token: Token)
    requires Inv(s) && Holds(s.table, instance, token)
    ensures Holds(FinishPoll(s.table, i, via, sample, size, now, interval), instance, token)
  {
    hide Binds, DistinctTokens, Recorded, Counted, Remote, SumOf, Sizes;
    var t := s.table;
    if i in t.nodes && Binds(t.nodes[i].routes, via) {
      var fits := size <= SAMPLE_LIMIT && SumOf(Sizes(t.nodes - {i})) + size <= CACHE_LIMIT;
      RecordedRoutes(t.nodes[i], via, if fits then sample else Unavailable, if fits then size else 0, now, interval);
    }
  }

  ghost predicate Uncontested(s: System, events: seq<Event>, instance: string, token: Token)
    requires Runs(s, events)
    decreases |events|
  {
    events != [] ==>
      && !Contests(s, events[0], instance, token)
      && Uncontested(Next(s, events[0]), events[1..], instance, token)
  }

  lemma {:induction false} HeldStaysHeld(s: System, events: seq<Event>, instance: string, token: Token)
    requires Inv(s) && Runs(s, events) && Holds(s.table, instance, token) && Component(instance) in s.tasks
    requires Finished(Component(instance)) !in events && Uncontested(s, events, instance, token)
    ensures Holds(Final(s, events).table, instance, token)
    decreases |events|
  {
    hide Inv, Next, Holds, Contests;
    if events != [] {
      EventHolds(s, events[0], instance, token);
      EventKeeps(s, events[0]);
      assert events[0] in events;
      TaskStays(s, [events[0]], Component(instance));
      assert [events[0]][1..] == [];
      HeldStaysHeld(Next(s, events[0]), events[1..], instance, token);
    }
  }

  /** And no result is discarded without cause: unless a discovery names another component
      on the path, or finds this one local, a reader gets the answer. */
  lemma UncontestedReadIsAnswered(s: System, events: seq<Event>, result: Event)
    requires Inv(s) && Runs(s, events) && result.ReadResult? && Legal(Final(s, events), result)
    requires var key := Component(result.instance);
             && key in s.tasks && s.tasks[key].work.Read? && Finished(key) !in events
             && Holds(s.table, result.instance, s.tasks[key].work.token)
             && Uncontested(s, events, result.instance, s.tasks[key].work.token)
    ensures Told(Final(s, events), result) == Answer(result.text)
  {
    hide Inv, Runs, Final, Uncontested;
    var key := Component(result.instance);
    HeldStaysHeld(s, events, result.instance, s.tasks[key].work.token);
    TaskStays(s, events, key);
  }
}
