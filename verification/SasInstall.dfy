/** Reconciling a tunnel interface with a desired set of addresses and routes
    (fabric/sas_install.py, `apply_network`): one pass, interrupted anywhere. */
module SasInstall {
  import opened Bytes

  /** A route of a specification; `via` is optional. */
  datatype Route = Route(dest: string, metric: nat, via: Option<string>)

  datatype Spec = Spec(addresses: seq<string>, routes: seq<Route>)

  /** The kernel holds one route per destination and metric. */
  datatype RouteKey = RouteKey(dest: string, metric: nat)
  datatype Hop = Hop(dev: string, via: Option<string>)

  /** `ledger` is the record next to the installation, absent at first. */
  datatype Host = Host(addresses: set<string>, routes: map<RouteKey, Hop>, ledger: Option<Spec>)

  datatype Command =
    | Record(spec: Spec)
    | DelRoute(route: Route)
    | DelAddress(address: string)
    | AddAddress(address: string)
    | SetRoute(route: Route)

  function KeyOf(r: Route): RouteKey { RouteKey(r.dest, r.metric) }

  /** Deleting matches the device and, if one is given, the gateway. */
  predicate Deletes(h: Host, dev: string, r: Route) {
    && KeyOf(r) in h.routes && h.routes[KeyOf(r)].dev == dev
    && (r.via.Some? ==> h.routes[KeyOf(r)].via == r.via)
  }

  function Apply(h: Host, dev: string, c: Command): Host {
    match c
    case Record(spec) => h.(ledger := Some(spec))
    case DelRoute(r) => if Deletes(h, dev, r) then h.(routes := h.routes - {KeyOf(r)}) else h
    case DelAddress(a) => h.(addresses := h.addresses - {a})
    case AddAddress(a) => h.(addresses := h.addresses + {a})
    case SetRoute(r) => h.(routes := h.routes[KeyOf(r) := Hop(dev, r.via)])
  }

  function Exec(h: Host, dev: string, plan: seq<Command>): Host {
    if plan == [] then h else Apply(Exec(h, dev, plan[..|plan| - 1]), dev, plan[|plan| - 1])
  }

  function Previous(h: Host, fallback: Spec): Spec {
    if h.ledger.Some? then h.ledger.value else fallback
  }

  /** The elements of `a` that are not in `b`, in order. */
  function Minus<T(==)>(a: seq<T>, b: seq<T>): seq<T> {
    if a == [] then [] else Minus(a[..|a| - 1], b) + (if a[|a| - 1] in b then [] else [a[|a| - 1]])
  }

  lemma {:induction false} MinusIs<T>(a: seq<T>, b: seq<T>)
    ensures forall x :: x in Minus(a, b) <==> x in a && x !in b
  {
    if a != [] {
      MinusIs(a[..|a| - 1], b);
      assert a == a[..|a| - 1] + [a[|a| - 1]];
    }
  }

  /** Everything recorded or desired. */
  function Tracked(previous: Spec, desired: Spec): Spec {
    Spec(previous.addresses + Minus(desired.addresses, previous.addresses),
         previous.routes + Minus(desired.routes, previous.routes))
  }

  function RouteDeletions(routes: seq<Route>): seq<Command> {
    seq(|routes|, i requires 0 <= i < |routes| => DelRoute(routes[i]))
  }
  function AddressDeletions(a: seq<string>): seq<Command> { seq(|a|, i requires 0 <= i < |a| => DelAddress(a[i])) }
  function AddressAdditions(a: seq<string>): seq<Command> { seq(|a|, i requires 0 <= i < |a| => AddAddress(a[i])) }
  function RouteAdditions(routes: seq<Route>): seq<Command> {
    seq(|routes|, i requires 0 <= i < |routes| => SetRoute(routes[i]))
  }

  /** The mutations: deletions first. */
  function Changes(previous: Spec, desired: Spec): seq<Command> {
    RouteDeletions(Minus(previous.routes, desired.routes))
        + AddressDeletions(Minus(previous.addresses, desired.addresses))
    + AddressAdditions(desired.addresses) + RouteAdditions(desired.routes)
  }

  function Plan(previous: Spec, desired: Spec): seq<Command> {
    [Record(Tracked(previous, desired))] + Changes(previous, desired) + [Record(desired)]
  }

  /** The checks before anything is touched: what is in the way of a desired route must be
      on this interface and recorded, or be that route itself. */
  predicate Clear(h: Host, dev: string, previous: Spec, desired: Spec) {
    forall r, k :: r in desired.routes && k in h.routes && k.dest == r.dest ==>
      && h.routes[k].dev == dev
      && (Route(k.dest, k.metric, h.routes[k].via) in previous.routes || Route(k.dest, k.metric, h.routes[k].via) == r)
  }

  // ---------------------------------------------------------------- entries

  predicate Installed(h: Host, k: RouteKey, hop: Hop) { k in h.routes && h.routes[k] == hop }

  predicate Listed(spec: Spec, dev: string, k: RouteKey, hop: Hop) {
    hop.dev == dev && Route(k.dest, k.metric, hop.via) in spec.routes
  }

  /** A route under `k` that is neither recorded nor desired. */
  predicate Foreign(h: Host, dev: string, previous: Spec, desired: Spec, k: RouteKey) {
    k in h.routes && !Listed(previous, dev, k, h.routes[k]) && !Listed(desired, dev, k, h.routes[k])
  }

  lemma TrackedLists(previous: Spec, desired: Spec)
    ensures forall r :: r in Tracked(previous, desired).routes <==> r in previous.routes || r in desired.routes
    ensures forall a :: a in Tracked(previous, desired).addresses <==> a in previous.addresses || a in desired.addresses
  {
    MinusIs(desired.addresses, previous.addresses);
    MinusIs(desired.routes, previous.routes);
  }

  /** An unrecorded, undesired route that a recorded, no longer desired one without a
      gateway would take away with it. */
  ghost predicate Collides(h: Host, dev: string, previous: Spec, desired: Spec) {
    exists r :: r in previous.routes && r !in desired.routes && Takes(h, dev, previous, desired, r)
  }

  predicate Takes(h: Host, dev: string, previous: Spec, desired: Spec, r: Route) {
    r.via.None? && Deletes(h, dev, r) && Foreign(h, dev, previous, desired, KeyOf(r))
  }

  // ---------------------------------------------------------------- what single commands can do

  /** The commands of `Changes`. */
  predicate Fits(previous: Spec, desired: Spec, c: Command) {
    match c
    case Record(_) => false
    case DelRoute(r) => r in previous.routes && r !in desired.routes
    case DelAddress(a) => a in previous.addresses && a !in desired.addresses
    case AddAddress(a) => a in desired.addresses
    case SetRoute(r) => r in desired.routes
  }

  lemma ChangesFit(previous: Spec, desired: Spec)
    ensures forall c :: c in Changes(previous, desired) ==> Fits(previous, desired, c)
  {
    MinusIs(previous.routes, desired.routes);
    MinusIs(previous.addresses, desired.addresses);
  }

  /** What holds throughout the mutations. */
  ghost predicate Within(h0: Host, h: Host, dev: string, previous: Spec, desired: Spec) {
    && h.ledger == Some(Tracked(previous, desired))
    && (forall a :: a in h.addresses ==> a in h0.addresses || a in desired.addresses)
    && (forall a :: a in h0.addresses && a !in previous.addresses ==> a in h.addresses)
    && (forall k :: k in h.routes ==> Installed(h0, k, h.routes[k]) || Listed(desired, dev, k, h.routes[k]))
    && (!Collides(h0, dev, previous, desired) ==> forall k :: Foreign(h0, dev, previous, desired, k) ==>
        Installed(h, k, h0.routes[k]))
  }

  lemma StepWithin(h0: Host, h: Host, dev: string, previous: Spec, desired: Spec, c: Command)
    requires Clear(h0, dev, previous, desired) && Within(h0, h, dev, previous, desired) && Fits(previous, desired, c)
    ensures Within(h0, Apply(h, dev, c), dev, previous, desired)
  {
    hide Tracked;
    if c.SetRoute? {
      SetWithin(h0, h, dev, previous, desired, c.route);
    } else if c.DelRoute? {
      DelWithin(h0, h, dev, previous, desired, c.route);
    }
  }

  lemma SetWithin(h0: Host, h: Host, dev: string, previous: Spec, desired: Spec, r: Route)
    requires Clear(h0, dev, previous, desired) && Within(h0, h, dev, previous, desired) && r in desired.routes
    ensures Within(h0, Apply(h, dev, SetRoute(r)), dev, previous, desired)
  {
    hide Tracked, Collides;
    assert Listed(desired, dev, KeyOf(r), Hop(dev, r.via));
  }

  lemma DelWithin(h0: Host, h: Host, dev: string, previous: Spec, desired: Spec, r: Route)
    requires Within(h0, h, dev, previous, desired) && r in previous.routes && r !in desired.routes
    ensures Within(h0, Apply(h, dev, DelRoute(r)), dev, previous, desired)
  {
    hide Tracked;
    var after := Apply(h, dev, DelRoute(r));
    if !Collides(h0, dev, previous, desired) {
      assert !Takes(h0, dev, previous, desired, r);
    }
  }

  lemma {:induction false} ExecWithin(h0: Host, h: Host, dev: string, previous: Spec, desired: Spec, plan: seq<Command>)
    requires Clear(h0, dev, previous, desired) && Within(h0, h, dev, previous, desired)
    requires forall c :: c in plan ==> Fits(previous, desired, c)
    ensures Within(h0, Exec(h, dev, plan), dev, previous, desired)
  {
    hide Within, Clear;
    if plan != [] {
      var last := |plan| - 1;
      ExecWithin(h0, h, dev, previous, desired, plan[..last]);
      StepWithin(h0, Exec(h, dev, plan[..last]), dev, previous, desired, plan[last]);
    }
  }

  lemma {:induction false} ExecConcat(h: Host, dev: string, a: seq<Command>, b: seq<Command>)
    ensures Exec(h, dev, a + b) == Exec(Exec(h, dev, a), dev, b)
  {
    if b == [] {
      assert a + b == a;
    } else {
      var last := |b| - 1;
      assert (a + b)[..|a + b| - 1] == a + b[..last];
      ExecConcat(h, dev, a, b[..last]);
    }
  }

  /** After the first record, and before the last, `Within` holds. */
  lemma MidwayWithin(h: Host, dev: string, previous: Spec, desired: Spec, n: nat)
    requires Clear(h, dev, previous, desired) && 1 <= n < |Plan(previous, desired)|
    ensures Within(h, Exec(h, dev, Plan(previous, desired)[..n]), dev, previous, desired)
  {
    hide Changes;
    var changes := Changes(previous, desired);
    var first := [Record(Tracked(previous, desired))];
    assert Plan(previous, desired)[..n] == first + changes[..n - 1];
    ExecConcat(h, dev, first, changes[..n - 1]);
    ExecOne(h, dev, first[0]);
    ChangesFit(previous, desired);
    assert Within(h, Exec(h, dev, first), dev, previous, desired) by { RecordWithin(h, dev, previous, desired); }
    ExecWithin(h, Exec(h, dev, first), dev, previous, desired, changes[..n - 1]);
  }

  lemma RecordWithin(h: Host, dev: string, previous: Spec, desired: Spec)
    ensures Within(h, Apply(h, dev, Record(Tracked(previous, desired))), dev, previous, desired)
  {
    hide Tracked;
  }

  lemma ExecOne(h: Host, dev: string, c: Command)
    ensures Exec(h, dev, [c]) == Apply(h, dev, c)
  {
    assert [c][..0] == [];
  }

  // ---------------------------------------------------------------- a whole pass

  lemma AbsentStays(h: Host, dev: string, previous: Spec, desired: Spec, k: RouteKey, hop: Hop, c: Command)
    requires !Installed(h, k, hop) && !Listed(desired, dev, k, hop) && Fits(previous, desired, c)
    ensures !Installed(Apply(h, dev, c), k, hop)
  {
  }

  lemma {:induction false} AbsentStaysOn(h: Host, dev: string, previous: Spec, desired: Spec, k: RouteKey, hop: Hop,
                                         plan: seq<Command>)
    requires !Installed(h, k, hop) && !Listed(desired, dev, k, hop) && forall c :: c in plan ==>
               Fits(previous, desired, c)
    ensures !Installed(Exec(h, dev, plan), k, hop)
  {
    if plan != [] {
      var last := |plan| - 1;
      AbsentStaysOn(h, dev, previous, desired, k, hop, plan[..last]);
      AbsentStays(Exec(h, dev, plan[..last]), dev, previous, desired, k, hop, plan[last]);
    }
  }

  /** A recorded route that is not desired any more is gone after the pass. */
  lemma StaleGone(h: Host, dev: string, previous: Spec, desired: Spec, k: RouteKey, hop: Hop)
    requires Listed(previous, dev, k, hop) && !Listed(desired, dev, k, hop)
    ensures !Installed(Exec(h, dev, Changes(previous, desired)), k, hop)
  {
    var changes := Changes(previous, desired);
    ChangesFit(previous, desired);
    MinusIs(previous.routes, desired.routes);
    var r := Route(k.dest, k.metric, hop.via);
    var stale := Minus(previous.routes, desired.routes);
    var i :| 0 <= i < |stale| && stale[i] == r;
    assert changes[i] == DelRoute(r);
    assert changes == changes[..i] + [DelRoute(r)] + changes[i + 1..];
    ExecConcat(h, dev, changes[..i] + [DelRoute(r)], changes[i + 1..]);
    ExecConcat(h, dev, changes[..i], [DelRoute(r)]);
    ExecOne(Exec(h, dev, changes[..i]), dev, DelRoute(r));
    AbsentStaysOn(Exec(h, dev, changes[..i] + [DelRoute(r)]), dev, previous, desired, k, hop, changes[i + 1..]);
  }

  /** No two different routes of one key. */
  ghost predicate OnePerKey(routes: seq<Route>) {
    forall r, q :: r in routes && q in routes && KeyOf(r) == KeyOf(q) ==> r == q
  }

  /** Setting routes in order leaves, under each key, the last one set. */
  lemma {:induction false} SetAll(h: Host, dev: string, routes: seq<Route>, i: nat)
    requires i < |routes| && forall j :: i < j < |routes| ==> KeyOf(routes[j]) != KeyOf(routes[i])
    ensures Installed(Exec(h, dev, RouteAdditions(routes)), KeyOf(routes[i]), Hop(dev, routes[i].via))
  {
    var last := |routes| - 1;
    assert RouteAdditions(routes)[..last] == RouteAdditions(routes[..last]);
    if i < last { SetAll(h, dev, routes[..last], i); }
  }

  lemma {:induction false} AddAll(h: Host, dev: string, a: seq<string>)
    ensures Exec(h, dev, AddressAdditions(a)).addresses == h.addresses + (set x | x in a)
  {
    if a != [] {
      var last := |a| - 1;
      assert AddressAdditions(a)[..last] == AddressAdditions(a[..last]);
      AddAll(h, dev, a[..last]);
      assert a == a[..last] + [a[last]];
    }
  }

  lemma {:induction false} DelAll(h: Host, dev: string, a: seq<string>)
    ensures Exec(h, dev, AddressDeletions(a)).addresses == h.addresses - (set x | x in a)
  {
    if a != [] {
      var last := |a| - 1;
      assert AddressDeletions(a)[..last] == AddressDeletions(a[..last]);
      DelAll(h, dev, a[..last]);
      assert a == a[..last] + [a[last]];
    }
  }

  lemma {:induction false} RoutesOnly(h: Host, dev: string, plan: seq<Command>)
    requires forall c :: c in plan ==> c.DelRoute? || c.SetRoute?
    ensures Exec(h, dev, plan).addresses == h.addresses
  {
    if plan != [] { RoutesOnly(h, dev, plan[..|plan| - 1]); }
  }

  /** The addresses after the mutations, exactly. */
  lemma AddressesAre(h: Host, dev: string, previous: Spec, desired: Spec)
    ensures forall a :: a in Exec(h, dev, Changes(previous, desired)).addresses
                        <==> (a in h.addresses && a !in previous.addresses) || a in desired.addresses
  {
    var one := RouteDeletions(Minus(previous.routes, desired.routes));
    var two := AddressDeletions(Minus(previous.addresses, desired.addresses));
    var three, four := AddressAdditions(desired.addresses), RouteAdditions(desired.routes);
    ExecConcat(h, dev, one + two + three, four);
    ExecConcat(h, dev, one + two, three);
    ExecConcat(h, dev, one, two);
    RoutesOnly(h, dev, one);
    DelAll(Exec(h, dev, one), dev, Minus(previous.addresses, desired.addresses));
    AddAll(Exec(h, dev, one + two), dev, desired.addresses);
    RoutesOnly(Exec(h, dev, one + two + three), dev, four);
    MinusIs(previous.addresses, desired.addresses);
  }

  /** Every desired route is installed after the pass exactly if no two differ in the gateway alone. */
  lemma DesiredInstalled(h: Host, dev: string, previous: Spec, desired: Spec)
    ensures (forall r :: r in desired.routes ==>
             Installed(Exec(h, dev, Changes(previous, desired)), KeyOf(r), Hop(dev, r.via)))
            <==> OnePerKey(desired.routes)
  {
    var rest := RouteDeletions(Minus(previous.routes, desired.routes))
                + AddressDeletions(Minus(previous.addresses, desired.addresses)) + AddressAdditions(desired.addresses);
    ExecConcat(h, dev, rest, RouteAdditions(desired.routes));
    if OnePerKey(desired.routes) {
      forall r | r in desired.routes
        ensures Installed(Exec(h, dev, Changes(previous, desired)), KeyOf(r), Hop(dev, r.via))
      {
        var i := LastWithKey(desired.routes, KeyOf(r));
        SetAll(Exec(h, dev, rest), dev, desired.routes, i);
      }
    }
  }

  lemma {:induction false} LastWithKey(routes: seq<Route>, k: RouteKey) returns (i: nat)
    requires exists r :: r in routes && KeyOf(r) == k
    ensures i < |routes| && KeyOf(routes[i]) == k && forall j :: i < j < |routes| ==> KeyOf(routes[j]) != k
    decreases |routes|
  {
    i := |routes| - 1;
    if KeyOf(routes[i]) != k {
      assert routes == routes[..i] + [routes[i]];
      i := LastWithKey(routes[..i], k);
    }
  }

  /** A case where one is not: the gateways differ, and the later route displaces the earlier. */
  lemma SecondRouteDisplacesFirst(h: Host, dev: string, dest: string, one: string, two: string)
    requires one != two
    ensures var first, second := Route(dest, 100, Some(one)), Route(dest, 100, Some(two));
            var end := Exec(h, dev, Changes(Spec([], []), Spec([], [first, second])));
            !Installed(end, KeyOf(first), Hop(dev, first.via)) && Installed(end, KeyOf(second), Hop(dev, second.via))
  {
    var routes := [Route(dest, 100, Some(one)), Route(dest, 100, Some(two))];
    var changes := Changes(Spec([], []), Spec([], routes));
    assert changes == RouteAdditions(routes);
    SetAll(h, dev, routes, 1);
  }

  /** What a completed pass leaves: the desired routes and what was never recorded. */
  ghost predicate LeavesExactly(h: Host, end: Host, dev: string, previous: Spec, desired: Spec) {
    forall k, hop :: Installed(end, k, hop)
                     <==> (Installed(h, k, hop) && !Listed(previous, dev, k, hop)) || Listed(desired, dev, k, hop)
  }

  ghost predicate LeavesNoMore(h: Host, end: Host, dev: string, previous: Spec, desired: Spec) {
    forall k, hop :: Installed(end, k, hop) ==>
      (Installed(h, k, hop) && !Listed(previous, dev, k, hop)) || Listed(desired, dev, k, hop)
  }

  ghost predicate LeavesForeign(h: Host, end: Host, dev: string, previous: Spec, desired: Spec) {
    forall k, hop :: Installed(h, k, hop) && !Listed(previous, dev, k, hop) && !Listed(desired, dev, k, hop) ==>
      Installed(end, k, hop)
  }

  lemma PassEnds(h: Host, dev: string, previous: Spec, desired: Spec)
    ensures var plan := Plan(previous, desired);
            var middle := Exec(h, dev, plan[..|plan| - 1]);
            && middle == Exec(Apply(h, dev, Record(Tracked(previous, desired))), dev, Changes(previous, desired))
            && Exec(h, dev, plan) == Apply(middle, dev, Record(desired))
  {
    hide Changes;
    var plan, first := Plan(previous, desired), Record(Tracked(previous, desired));
    assert plan[..|plan| - 1] == [first] + Changes(previous, desired);
    ExecConcat(h, dev, [first], Changes(previous, desired));
    ExecOne(h, dev, first);
  }

  /** A completed pass leaves nothing but desired entries and what was never recorded, and
      all of these exactly if no two desired routes differ in the gateway alone. */
  lemma CompletedPass(h: Host, dev: string, previous: Spec, desired: Spec)
    requires Clear(h, dev, previous, desired) && !Collides(h, dev, previous, desired)
    ensures var end := Exec(h, dev, Plan(previous, desired));
            && end.ledger == Some(desired)
            && (forall a :: a in end.addresses
                            <==> (a in h.addresses && a !in previous.addresses) || a in desired.addresses)
            && LeavesNoMore(h, end, dev, previous, desired) && LeavesForeign(h, end, dev, previous, desired)
            && (LeavesExactly(h, end, dev, previous, desired) <==> OnePerKey(desired.routes))
  {
    hide Changes, Collides, Clear, LeavesExactly, LeavesNoMore, LeavesForeign, OnePerKey;
    var plan := Plan(previous, desired);
    var n := |plan| - 1;
    MidwayWithin(h, dev, previous, desired, n);
    var middle := Exec(h, dev, plan[..n]);
    var recorded := Apply(h, dev, Record(Tracked(previous, desired)));
    PassEnds(h, dev, previous, desired);
    AddressesAre(recorded, dev, previous, desired);
    RouteOutcomes(h, recorded, middle, Exec(h, dev, plan), dev, previous, desired);
  }

  lemma RouteOutcomes(h: Host, recorded: Host, middle: Host, end: Host, dev: string, previous: Spec, desired: Spec)
    requires !Collides(h, dev, previous, desired) && end.routes == middle.routes
    requires Within(h, middle, dev, previous, desired) && middle == Exec(recorded, dev, Changes(previous, desired))
    ensures LeavesNoMore(h, end, dev, previous, desired) && LeavesForeign(h, end, dev, previous, desired)
    ensures LeavesExactly(h, end, dev, previous, desired) <==> OnePerKey(desired.routes)
  {
    hide Changes, Collides, Tracked, OnePerKey, Exec;
    assert LeavesNoMore(h, end, dev, previous, desired) by {
      forall k, hop | Installed(end, k, hop)
        ensures (Installed(h, k, hop) && !Listed(previous, dev, k, hop)) || Listed(desired, dev, k, hop)
      {
        if Listed(previous, dev, k, hop) && !Listed(desired, dev, k, hop) {
          StaleGone(recorded, dev, previous, desired, k, hop);
        }
      }
    }
    assert LeavesForeign(h, end, dev, previous, desired);
    DesiredInstalled(recorded, dev, previous, desired);
    ExactlyIff(h, end, dev, previous, desired);
  }

  lemma ExactlyIff(h: Host, end: Host, dev: string, previous: Spec, desired: Spec)
    requires LeavesNoMore(h, end, dev, previous, desired) && LeavesForeign(h, end, dev, previous, desired)
    ensures LeavesExactly(h, end, dev, previous, desired)
            <==> forall r :: r in desired.routes ==> Installed(end, KeyOf(r), Hop(dev, r.via))
  {
    hide Installed;
    if LeavesExactly(h, end, dev, previous, desired) {
      forall r | r in desired.routes ensures Installed(end, KeyOf(r), Hop(dev, r.via)) {
        assert Listed(desired, dev, KeyOf(r), Hop(dev, r.via));
      }
    }
    if forall r :: r in desired.routes ==> Installed(end, KeyOf(r), Hop(dev, r.via)) {
      forall k, hop | Listed(desired, dev, k, hop) ensures Installed(end, k, hop) {
        var r := Route(k.dest, k.metric, hop.via);
        assert KeyOf(r) == k && Hop(dev, r.via) == hop;
      }
    }
  }

  // ---------------------------------------------------------------- interruptions

  /** At every point where a pass can break off: whatever is installed is recorded or was
      there before, and the record names everything it did before. */
  lemma EveryAbortIsRecorded(h: Host, dev: string, previous: Spec, desired: Spec, n: nat)
    requires Clear(h, dev, previous, desired) && 1 <= n < |Plan(previous, desired)|
    ensures var at := Exec(h, dev, Plan(previous, desired)[..n]);
            && at.ledger.Some?
            && (forall k :: k in at.routes ==>
                Listed(at.ledger.value, dev, k, at.routes[k]) || Installed(h, k, at.routes[k]))
            && (forall a :: a in at.addresses ==> a in at.ledger.value.addresses || a in h.addresses)
            && (forall r :: r in previous.routes || r in desired.routes <==> r in at.ledger.value.routes)
            && (forall a :: a in previous.addresses || a in desired.addresses <==> a in at.ledger.value.addresses)
  {
    hide Changes, Tracked, Collides;
    MidwayWithin(h, dev, previous, desired, n);
    TrackedLists(previous, desired);
  }

  /** Routes that are neither recorded nor desired are never deleted, at any point of a
      pass, exactly if none of them collides with a recorded route without a gateway. */
  lemma ForeignRoutesSurviveIff(h: Host, dev: string, previous: Spec, desired: Spec)
    requires Clear(h, dev, previous, desired)
    ensures !Collides(h, dev, previous, desired)
            <==> forall n, k | 0 <= n <= |Plan(previous, desired)| && Foreign(h, dev, previous, desired, k) ::
                   Installed(Exec(h, dev, Plan(previous, desired)[..n]), k, h.routes[k])
  {
    if Collides(h, dev, previous, desired) {
      CollisionDeletes(h, dev, previous, desired);
    } else {
      forall n, k | 0 <= n <= |Plan(previous, desired)| && Foreign(h, dev, previous, desired, k)
        ensures Installed(Exec(h, dev, Plan(previous, desired)[..n]), k, h.routes[k])
      {
        Survives(h, dev, previous, desired, n, k);
      }
    }
  }

  /** A case where one is: the recorded route has no gateway, the installed one does. */
  lemma UnrecordedRouteCanBeLost(dev: string, dest: string, gateway: string)
    ensures var k := RouteKey(dest, 100);
            var h := Host({}, map[k := Hop(dev, Some(gateway))], None);
            var previous, desired := Spec([], [Route(dest, 100, None)]), Spec([], []);
            && Clear(h, dev, previous, desired) && Foreign(h, dev, previous, desired, k)
            && exists n ::
                 0 <= n <= |Plan(previous, desired)| && k !in Exec(h, dev, Plan(previous, desired)[..n]).routes
  {
    var k := RouteKey(dest, 100);
    var h := Host({}, map[k := Hop(dev, Some(gateway))], None);
    var previous, desired := Spec([], [Route(dest, 100, None)]), Spec([], []);
    assert Takes(h, dev, previous, desired, Route(dest, 100, None));
    CollisionDeletes(h, dev, previous, desired);
    var n, q :| 0 <= n <= |Plan(previous, desired)| && Foreign(h, dev, previous, desired, q)
      && !Installed(Exec(h, dev, Plan(previous, desired)[..n]), q, h.routes[q]);
    assert q == k;
    NoNewRoutes(h, dev, previous, n, k);
  }

  lemma {:induction false} NoNewRoutes(h: Host, dev: string, previous: Spec, n: nat, k: RouteKey)
    requires n <= |Plan(previous, Spec([], []))|
    ensures var at := Exec(h, dev, Plan(previous, Spec([], []))[..n]);
            k in at.routes ==> k in h.routes && at.routes[k] == h.routes[k]
  {
    var plan := Plan(previous, Spec([], []));
    if n > 0 {
      NoNewRoutes(h, dev, previous, n - 1, k);
      assert plan[..n][..n - 1] == plan[..n - 1] && plan[..n][n - 1] == plan[n - 1];
    } else {
      assert plan[..0] == [];
    }
  }

  lemma Survives(h: Host, dev: string, previous: Spec, desired: Spec, n: nat, k: RouteKey)
    requires Clear(h, dev, previous, desired) && !Collides(h, dev, previous, desired) && n <= |Plan(previous, desired)|
    requires Foreign(h, dev, previous, desired, k)
    ensures Installed(Exec(h, dev, Plan(previous, desired)[..n]), k, h.routes[k])
  {
    hide Changes, Tracked, Collides, Clear;
    var plan := Plan(previous, desired);
    if n == 0 {
      assert plan[..0] == [];
    } else if n < |plan| {
      MidwayWithin(h, dev, previous, desired, n);
    } else {
      MidwayWithin(h, dev, previous, desired, n - 1);
      assert plan[..n][..n - 1] == plan[..n - 1];
    }
  }

  lemma CollisionDeletes(h: Host, dev: string, previous: Spec, desired: Spec)
    requires Clear(h, dev, previous, desired) && Collides(h, dev, previous, desired)
    ensures exists n, k :: 0 <= n <= |Plan(previous, desired)| && Foreign(h, dev, previous, desired, k)
              && !Installed(Exec(h, dev, Plan(previous, desired)[..n]), k, h.routes[k])
  {
    hide Clear, Tracked;
    var r :| r in previous.routes && r !in desired.routes && Takes(h, dev, previous, desired, r);
    var plan, stale := Plan(previous, desired), Minus(previous.routes, desired.routes);
    MinusIs(previous.routes, desired.routes);
    var i :| 0 <= i < |stale| && stale[i] == r;
    assert plan[i + 1] == DelRoute(r);
    var k := KeyOf(r);
    MidwayWithin(h, dev, previous, desired, i + 1);
    var before := Exec(h, dev, plan[..i + 1]);
    assert plan[..i + 2][..i + 1] == plan[..i + 1] && plan[..i + 2][i + 1] == DelRoute(r);
    assert !Installed(Apply(before, dev, DelRoute(r)), k, h.routes[k]);
    assert Exec(h, dev, plan[..i + 2]) == Apply(before, dev, DelRoute(r));
  }
}
