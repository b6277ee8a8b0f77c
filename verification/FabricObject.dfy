/** The table of remote components as the object it is (fabric/network.py): dictionaries
    that the locked sections change in place, proved against `FabricNetwork`. */
module FabricObject {
  import opened Bytes
  import opened ControlRoute
  import N = FabricNetwork

  /** The usable paths, in order. */
  function UsableOf(t: N.Table, routes: seq<N.Binding>, now: real): seq<N.Binding> {
    if routes == [] then []
    else
      UsableOf(t, routes[..|routes| - 1], now)
      + (if N.Usable(t, routes[|routes| - 1], now) then [routes[|routes| - 1]] else [])
  }

  lemma {:induction false} UsableIs(t: N.Table, routes: seq<N.Binding>, now: real)
    ensures forall b :: b in UsableOf(t, routes, now) <==> b in routes && N.Usable(t, b, now)
  {
    if routes != [] {
      UsableIs(t, routes[..|routes| - 1], now);
      assert routes == routes[..|routes| - 1] + [routes[|routes| - 1]];
    }
  }

  class Network {
    var local: map<string, N.Endpoint>
    var origins: map<string, N.Endpoint>
    var localInstances: map<string, set<string>>
    var nodes: map<string, N.Node>
    var active: set<N.Purpose>
    var originActive: map<string, int>
    const limit: nat
    var truncated: bool

    ghost function State(): N.Table
      reads this
    {
      N.Table(local, origins, localInstances, nodes, active, originActive, limit, truncated)
    }

    constructor (limit: nat)
      ensures State() == N.Table(map[], map[], map[], map[], {}, map[], limit, false)
    {
      this.limit := limit;
      local, origins, localInstances, nodes, active, originActive, truncated := map[], map[], map[], map[], {}, map[],
          false;
    }

    /** `update`. */
    method Update(local: map<string, N.Endpoint>, origins: map<string, N.Endpoint>)
      modifies this
      ensures State() == N.Update(old(State()), local, origins)
    {
      this.local, this.origins := local, origins;
      localInstances := map o | o in localInstances && o in origins :: localInstances[o];
    }

    /** What a discovery text says is local. */
    method Locals(entry: N.Endpoint, rows: seq<N.Row>) returns (ids: set<string>)
      ensures ids == N.LocalIds(State(), entry, rows)
    {
      ids := {};
      for i := 0 to |rows|
        invariant ids == N.LocalIds(State(), entry, rows[..i])
      {
        var row := rows[i];
        var isLocal := row.route == [];
        if !isLocal && entry.kind == "switch" && |row.route| == 1 && row.route[0].kind.PortHop? {
          var matches := set e | e in local && N.Attached(local[e], entry, row.route[0].value);
          isLocal := |matches| == 1;
        }
        assert isLocal == N.IsLocal(State(), entry, row);
        assert rows[..i + 1] == rows[..i] + [row];
        if isLocal { ids := ids + {row.instance}; }
      }
      assert rows[..|rows|] == rows;
    }

    /** `ingest`: rows of one origin's discovery. */
    method Ingest(origin: string, rows: seq<N.Row>, now: real)
      modifies this
      ensures State() == N.Ingest(old(State()), origin, rows, now)
    {
      hide N.LocalIds, N.IngestRow;
      if origin !in origins { return; }
      var ids := Locals(origins[origin], rows);
      localInstances := localInstances[origin := ids];
      var all := N.AllLocal(localInstances);
      nodes := nodes - all;
      ghost var base := State();
      for i := 0 to |rows|
        invariant State() == N.IngestRows(base, all, origin, rows[..i], now)
      {
        IngestRow(all, origin, rows[i], now);
        assert rows[..i + 1][..i] == rows[..i] && rows[..i + 1][i] == rows[i];
      }
      assert rows[..|rows|] == rows;
    }

    method IngestRow(all: set<string>, origin: string, row: N.Row, now: real)
      modifies this
      ensures State() == N.IngestRow(old(State()), all, origin, row, now)
    {
      hide N.Announced;
      if row.instance in all || row.route == [] { return; }
      if row.instance !in nodes && |nodes| >= limit {
        truncated := true;
        return;
      }
      Announce(row, N.Token(origin, row.route), now);
    }

    /** Binds a path to a component, and to no other. */
    method Announce(row: N.Row, token: N.Token, now: real)
      modifies `nodes
      ensures nodes == N.Announced(old(nodes), row, token, now)
    {
      hide N.Unbound, N.Bound;
      var node := if row.instance in nodes then nodes[row.instance] else N.NEW_NODE;
      Unbind(row.instance, token);
      nodes := nodes[row.instance := node.(seen := now, routes := N.Bound(node.routes, N.Binding(token, now)))];
    }

    /** Takes a path from every other component. */
    method Unbind(instance: string, token: N.Token)
      modifies `nodes
      ensures nodes.Keys == old(nodes).Keys
      ensures forall i :: i in nodes ==>
                nodes[i] == if i == instance then old(nodes)[i]
                    else old(nodes)[i].(routes := N.Unbound(old(nodes)[i].routes, token))
    {
      hide N.Unbound;
      ghost var before := nodes;
      var todo := nodes.Keys;
      while todo != {}
        invariant todo <= nodes.Keys == before.Keys
        invariant forall i :: i in nodes ==>
                    nodes[i] == if i == instance || i in todo then before[i]
                        else before[i].(routes := N.Unbound(before[i].routes, token))
        decreases |todo|
      {
        var i :| i in todo;
        if i != instance { nodes := nodes[i := nodes[i].(routes := N.Unbound(nodes[i].routes, token))]; }
        todo := todo - {i};
      }
    }

    /** `_reserve`. */
    method Reserve(key: N.Purpose, origin: string) returns (ok: bool)
      modifies this
      ensures State() == N.Reserve(old(State()), key, origin) && ok == N.Free(old(State()), key, origin)
    {
      var count := if origin in originActive then originActive[origin] else 0;
      if key in active || |active| >= N.REQUESTS || count >= N.REQUESTS_PER_ORIGIN { return false; }
      active := active + {key};
      originActive := originActive[origin := count + 1];
      return true;
    }

    /** `_release`. */
    method Release(key: N.Purpose, origin: string)
      modifies this
      ensures State() == N.Release(old(State()), key, origin)
    {
      active := active - {key};
      var count := (if origin in originActive then originActive[origin] else 1) - 1;
      if count != 0 { originActive := originActive[origin := count]; } else { originActive := originActive - {origin}; }
    }

    /** `_routes` and the order of preference: the preferred path if it is usable, else the
        first that is. */
    method Choose(instance: string, now: real) returns (choice: Option<N.Binding>)
      requires instance in nodes
      ensures var usable := UsableOf(State(), nodes[instance].routes, now);
              && (choice.None? <==> usable == [])
              && (choice.Some? ==> choice.value in usable)
              && (choice.Some? && nodes[instance].preferred != Some(choice.value.token) ==>
                    choice.value == usable[0] && forall b :: b in usable ==> nodes[instance].preferred != Some(b.token))
    {
      var routes, preferred := nodes[instance].routes, nodes[instance].preferred;
      choice := None;
      for i := 0 to |routes|
        invariant var usable := UsableOf(State(), routes[..i], now);
                  && (choice.None? <==> usable == [])
                  && (choice.Some? ==> choice.value in usable)
                  && (choice.Some? && preferred != Some(choice.value.token) ==>
                        choice.value == usable[0] && forall b :: b in usable ==> preferred != Some(b.token))
      {
        assert routes[..i + 1][..i] == routes[..i] && routes[..i + 1][i] == routes[i];
        if routes[i].token.origin in origins && now - routes[i].seen < N.EXPIRY {
          if choice.None? || (preferred == Some(routes[i].token) && preferred != Some(choice.value.token)) {
            choice := Some(routes[i]);
          }
        }
      }
      assert routes[..|routes|] == routes;
    }

    /** The first half of `read`: refusals in order, then a path and a reservation. */
    method BeginRead(instance: string, operation: string, now: real)
      returns (refusal: Option<N.Reply>, path: Option<N.Binding>)
      modifies this
      ensures refusal
              == if operation !in N.READS then Some(N.Forbidden)
                 else if instance !in old(nodes) then Some(N.Unlisted)
                 else if UsableOf(old(State()), old(nodes)[instance].routes, now) == [] then Some(N.NoPath)
                 else if path.None? || !N.Free(old(State()), N.Component(instance), path.value.token.origin)
                   then Some(N.Busy)
                 else None
      ensures refusal.None? ==>
                && path.Some? && instance in old(nodes) && path.value in old(nodes)[instance].routes
                && N.Usable(old(State()), path.value, now)
                && State() == N.Reserve(old(State()), N.Component(instance), path.value.token.origin)
      ensures refusal == Some(N.Busy) ==> path.Some?
      ensures refusal.Some? ==> State() == old(State())
    {
      path := None;
      if operation !in N.READS { return Some(N.Forbidden), path; }
      if instance !in nodes { return Some(N.Unlisted), path; }
      path := Choose(instance, now);
      UsableIs(State(), nodes[instance].routes, now);
      if path.None? { return Some(N.NoPath), path; }
      var ok := Reserve(N.Component(instance), path.value.token.origin);
      return if ok then None else Some(N.Busy), path;
    }

    /** The second half: the answer, if the path still belongs to the component. */
    method FinishRead(instance: string, token: N.Token, text: string) returns (reply: N.Reply)
      ensures reply == N.ReadReply(State(), instance, token, text)
    {
      if instance !in nodes { return N.PathChanged; }
      var routes := nodes[instance].routes;
      for i := 0 to |routes|
        invariant !N.Binds(routes[..i], token)
      {
        if routes[i].token == token { return N.Answer(text); }
        assert routes[..i + 1] == routes[..i] + [routes[i]];
      }
      assert routes[..|routes|] == routes;
      return N.PathChanged;
    }

    /** The cached bytes of all components. */
    method CachedBytes() returns (sum: nat)
      ensures sum == N.SumOf(N.Sizes(nodes))
    {
      sum := 0;
      var todo := nodes.Keys;
      ghost var left := N.Sizes(nodes);
      while todo != {}
        invariant todo <= nodes.Keys && left.Keys == todo
        invariant forall i :: i in left ==> left[i] == nodes[i].size
        invariant sum + N.SumOf(left) == N.SumOf(N.Sizes(nodes))
        decreases |todo|
      {
        var i :| i in todo;
        N.SumWithout(left, i);
        sum := sum + nodes[i].size;
        todo, left := todo - {i}, left - {i};
      }
      assert left == map[];
    }

    /** The locked half of `_poll_node`. */
    method FinishPoll(instance: string, token: N.Token, sample: N.Sample, size: nat, now: real, interval: real)
      modifies `nodes
      ensures State() == N.FinishPoll(old(State()), instance, token, sample, size, now, interval)
    {
      hide N.Recorded;
      if instance !in nodes || !N.Binds(nodes[instance].routes, token) { return; }
      var node := nodes[instance];
      var all := CachedBytes();
      N.SumWithout(N.Sizes(nodes), instance);
      assert N.Sizes(nodes) - {instance} == N.Sizes(nodes - {instance});
      var taken, kept := sample, size;
      if size > N.SAMPLE_LIMIT || all - node.size + size > N.CACHE_LIMIT { taken, kept := N.Unavailable, 0; }
      nodes := nodes[instance := N.Recorded(node, token, taken, kept, now, interval)];
    }

    /** The scheduler forgets a component that has long been silent. */
    method Expire(instance: string, now: real)
      modifies `nodes
      ensures State() == N.Expire(old(State()), instance, now)
    {
      if instance !in nodes { return; }
      var node := nodes[instance];
      var last := if node.seen >= node.success then node.seen else node.success;
      if now - last > N.EXPIRY && N.Component(instance) !in active { nodes := nodes - {instance}; }
    }
  }
}
