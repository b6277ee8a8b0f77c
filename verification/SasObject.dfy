/** `apply_network` as the procedure it is (fabric/sas_install.py), proved against
    `SasInstall`. */
module SasObject {
  import opened Bytes
  import opened SasInstall
  import opened SasRuns

  lemma {:induction false} MinusPrefix<T>(a: seq<T>, b: seq<T>, i: nat)
    requires i <= |a|
    ensures Minus(a[..i], b) <= Minus(a, b)
    decreases |a|
  {
    if i == |a| {
      assert a[..i] == a;
    } else {
      assert a[..|a| - 1][..i] == a[..i];
      MinusPrefix(a[..|a| - 1], b, i);
    }
  }

  /** The next element that differs, in place. */
  lemma NextStale<T>(a: seq<T>, b: seq<T>, i: nat)
    requires i < |a|
    ensures Minus(a[..i + 1], b) == Minus(a[..i], b) + (if a[i] in b then [] else [a[i]])
    ensures a[i] !in b ==> |Minus(a[..i], b)| < |Minus(a, b)| && Minus(a, b)[|Minus(a[..i], b)|] == a[i]
  {
    assert a[..i + 1][..i] == a[..i] && a[..i + 1][i] == a[i];
    MinusPrefix(a, b, i + 1);
  }

  /** The host, as commands change it. `left` is how many more commands take effect
      before a failure, a timeout or the end of the process; a command that fails after
      taking effect is one that the next one follows. */
  class Machine {
    var addresses: set<string>
    var routes: map<RouteKey, Hop>
    var ledger: Option<Spec>
    var left: nat

    ghost function State(): Host
      reads this
    {
      Host(addresses, routes, ledger)
    }

    method Run(dev: string, c: Command) returns (ok: bool)
      modifies this
      ensures ok <==> old(left) > 0
      ensures State() == if ok then Apply(old(State()), dev, c) else old(State())
      ensures left == if ok then old(left) - 1 else 0
    {
      if left == 0 { return false; }
      left := left - 1;
      match c {
        case Record(spec) => ledger := Some(spec);
        case DelRoute(r) =>
          if KeyOf(r) in routes && routes[KeyOf(r)].dev == dev && (r.via.Some? ==> routes[KeyOf(r)].via == r.via) {
            routes := routes - {KeyOf(r)};
          }
        case DelAddress(a) => addresses := addresses - {a};
        case AddAddress(a) => addresses := addresses + {a};
        case SetRoute(r) => routes := routes[KeyOf(r) := Hop(dev, r.via)];
      }
      return true;
    }

    /** The routes in the way, destination by destination. */
    method Check(dev: string, previous: Spec, desired: Spec) returns (clear: bool)
      ensures clear == Clear(State(), dev, previous, desired)
    {
      for i := 0 to |desired.routes|
        invariant Clear(State(), dev, previous, Spec(desired.addresses, desired.routes[..i]))
      {
        var r := desired.routes[i];
        var rows := set k | k in routes && k.dest == r.dest;
        while rows != {}
          invariant forall k :: k in rows ==> k in routes && k.dest == r.dest
          invariant forall k :: k in routes && k.dest == r.dest && k !in rows ==> Passes(dev, previous, r, k)
          decreases |rows|
        {
          var k :| k in rows;
          if !Passes(dev, previous, r, k) {
            assert desired.routes[i] in desired.routes;
            return false;
          }
          rows := rows - {k};
        }
        assert desired.routes[..i + 1] == desired.routes[..i] + [r];
      }
      assert desired.routes[..|desired.routes|] == desired.routes;
      return true;
    }

    predicate Passes(dev: string, previous: Spec, r: Route, k: RouteKey)
      requires k in routes
      reads this
    {
      && routes[k].dev == dev
      && (Route(k.dest, k.metric, routes[k].via) in previous.routes || Route(k.dest, k.metric, routes[k].via) == r)
    }

    /** One more command of the plan. */
    method Advance(dev: string, c: Command, ghost h: Host, ghost plan: seq<Command>, ghost done: nat) returns (ok: bool)
      requires done < |plan| && plan[done] == c && State() == Exec(h, dev, plan[..done])
      modifies this
      ensures ok <==> old(left) > 0
      ensures left == if ok then old(left) - 1 else 0
      ensures State() == Exec(h, dev, plan[..if ok then done + 1 else done])
    {
      assert plan[..done + 1][..done] == plan[..done] && plan[..done + 1][done] == c;
      ok := Run(dev, c);
    }

    /** `apply_network`: checks, records, deletes, adds, records. */
    method ApplyNetwork(dev: string, fallback: Spec, desired: Spec) returns (ok: bool)
      modifies this
      ensures State() == Outcome(old(State()), dev, fallback, Attempt(desired, old(left)))
      ensures ok <==> Clear(old(State()), dev, Previous(old(State()), fallback), desired)
                      && old(left) >= |Plan(Previous(old(State()), fallback), desired)|
    {
      hide Exec, Clear, Plan;
      var previous := if ledger.Some? then ledger.value else fallback;
      var clear := Check(dev, previous, desired);
      if !clear { return false; }
      ok := Perform(dev, previous, desired);
    }

    method Perform(dev: string, previous: Spec, desired: Spec) returns (ok: bool)
      modifies this
      ensures var plan := Plan(previous, desired);
              && State() == Exec(old(State()), dev, plan[..if old(left) < |plan| then old(left) else |plan|])
              && (ok <==> old(left) >= |plan|)
    {
      hide Exec, Minus, Tracked, Plan;
      ghost var h, plan, all := State(), Plan(previous, desired), left;
      ExecNone(h, dev, plan);
      PlanEnds(previous, desired);
      ok := Advance(dev, Record(Tracked(previous, desired)), h, plan, 0);
      if !ok { return; }
      ghost var done;
      ok, done := DeleteRoutes(dev, previous, desired, h, plan, all);
      if !ok { return; }
      ok, done := DeleteAddresses(dev, previous, desired, h, plan, all, done);
      if !ok { return; }
      ok, done := AddAddresses(dev, previous, desired, h, plan, all, done);
      if !ok { return; }
      ok, done := SetRoutes(dev, previous, desired, h, plan, all, done);
      if !ok { return; }
      ok := Advance(dev, Record(desired), h, plan, done);
    }

    method AddAddresses(dev: string, previous: Spec, desired: Spec, ghost h: Host, ghost plan: seq<Command>,
                        ghost all: nat, ghost from: nat)
      returns (ok: bool, ghost done: nat)
      requires plan == Plan(previous, desired) && from + |desired.addresses| + |desired.routes| + 1 == |plan|
      requires left + from == all && State() == Exec(h, dev, plan[..from])
      modifies this
      ensures left + done == all && done <= |plan| && State() == Exec(h, dev, plan[..done])
      ensures if ok then done == from + |desired.addresses| else left == 0 && done < |plan|
    {
      hide Exec, Minus, Tracked, Plan;
      done, ok := from, true;
      for i := 0 to |desired.addresses|
        invariant ok && done == from + i && left + done == all && State() == Exec(h, dev, plan[..done])
      {
        AdditionAt(previous, desired, i);
        ok := Advance(dev, AddAddress(desired.addresses[i]), h, plan, done);
        if !ok { return; }
        done := done + 1;
      }
    }

    method SetRoutes(dev: string, previous: Spec, desired: Spec, ghost h: Host, ghost plan: seq<Command>,
                     ghost all: nat, ghost from: nat)
      returns (ok: bool, ghost done: nat)
      requires plan == Plan(previous, desired) && from + |desired.routes| + 1 == |plan|
      requires left + from == all && State() == Exec(h, dev, plan[..from])
      modifies this
      ensures left + done == all && done <= |plan| && State() == Exec(h, dev, plan[..done])
      ensures if ok then done == from + |desired.routes| else left == 0 && done < |plan|
    {
      hide Exec, Minus, Tracked, Plan;
      done, ok := from, true;
      for i := 0 to |desired.routes|
        invariant ok && done == from + i && left + done == all && State() == Exec(h, dev, plan[..done])
      {
        SettingAt(previous, desired, i);
        ok := Advance(dev, SetRoute(desired.routes[i]), h, plan, done);
        if !ok { return; }
        done := done + 1;
      }
    }

    method DeleteRoutes(dev: string, previous: Spec, desired: Spec, ghost h: Host, ghost plan: seq<Command>,
                        ghost all: nat)
      returns (ok: bool, ghost done: nat)
      requires plan == Plan(previous, desired) && left + 1 == all && State() == Exec(h, dev, plan[..1])
      modifies this
      ensures left + done == all && done <= |plan| && State() == Exec(h, dev, plan[..done])
      ensures if ok then done == 1 + |Minus(previous.routes, desired.routes)| else left == 0 && done < |plan|
    {
      hide Exec, Minus, Tracked;
      done, ok := 1, true;
      EmptyMinus(previous.routes, desired.routes);
      for i := 0 to |previous.routes|
        invariant ok && done == 1 + |Minus(previous.routes[..i], desired.routes)| <= |plan|
        invariant left + done == all && State() == Exec(h, dev, plan[..done])
      {
        NextStale(previous.routes, desired.routes, i);
        if previous.routes[i] !in desired.routes {
          ok := Advance(dev, DelRoute(previous.routes[i]), h, plan, done);
          if !ok { return; }
          done := done + 1;
        }
      }
      assert previous.routes[..|previous.routes|] == previous.routes;
    }

    method DeleteAddresses(dev: string, previous: Spec, desired: Spec, ghost h: Host, ghost plan: seq<Command>,
                           ghost all: nat, ghost from: nat)
      returns (ok: bool, ghost done: nat)
      requires plan == Plan(previous, desired) && from == 1 + |Minus(previous.routes, desired.routes)| <= |plan|
      requires left + from == all && State() == Exec(h, dev, plan[..from])
      modifies this
      ensures left + done == all && done <= |plan| && State() == Exec(h, dev, plan[..done])
      ensures if ok then done == from + |Minus(previous.addresses, desired.addresses)| else left == 0 && done < |plan|
    {
      hide Exec, Minus, Tracked;
      done, ok := from, true;
      EmptyMinus(previous.addresses, desired.addresses);
      for i := 0 to |previous.addresses|
        invariant ok && done == from + |Minus(previous.addresses[..i], desired.addresses)| <= |plan|
        invariant left + done == all && State() == Exec(h, dev, plan[..done])
      {
        NextStale(previous.addresses, desired.addresses, i);
        if previous.addresses[i] !in desired.addresses {
          ok := Advance(dev, DelAddress(previous.addresses[i]), h, plan, done);
          if !ok { return; }
          done := done + 1;
        }
      }
      assert previous.addresses[..|previous.addresses|] == previous.addresses;
    }
  }

  lemma EmptyMinus<T>(a: seq<T>, b: seq<T>)
    ensures Minus(a[..0], b) == []
  {
  }

  lemma ExecNone(h: Host, dev: string, plan: seq<Command>)
    ensures Exec(h, dev, plan[..0]) == h
  {
  }

  lemma PlanEnds(previous: Spec, desired: Spec)
    ensures var plan := Plan(previous, desired);
            && |plan| == 2 + |Minus(previous.routes, desired.routes)| + |Minus(previous.addresses, desired.addresses)|
                         + |desired.addresses| + |desired.routes|
            && plan[0] == Record(Tracked(previous, desired)) && plan[|plan| - 1] == Record(desired)
  {
  }

  lemma AdditionAt(previous: Spec, desired: Spec, i: nat)
    requires i < |desired.addresses|
    ensures var plan := Plan(previous, desired);
            var at := |plan| - 1 - |desired.routes| - |desired.addresses| + i;
            0 <= at < |plan| && plan[at] == AddAddress(desired.addresses[i])
  {
  }

  lemma SettingAt(previous: Spec, desired: Spec, i: nat)
    requires i < |desired.routes|
    ensures var plan := Plan(previous, desired);
            var at := |plan| - 1 - |desired.routes| + i;
            0 <= at < |plan| && plan[at] == SetRoute(desired.routes[i])
  {
  }
}
