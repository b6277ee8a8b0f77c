/** The reach of an unauthenticated discovery flood (src/control_router.hpp): if nothing
    of it is lost, refused or expires, then once none of its frames is in flight every
    router connected to the origin, over any number of links, has recorded it. */
module FloodCoverage {
  import opened Bytes
  import opened ControlRoute
  import opened ControlRouter
  import opened RouterFacts
  import opened DiscoveryRuns
  import opened RouterNetwork
  import A = ControlAuth

  // ---------------------------------------------------------------- one arrival

  predicate SameShape(a: Router, b: Router) {
    && a.allowed == b.allowed && a.required == b.required && a.instance == b.instance && |a.edges| == |b.edges|
    && forall i :: 0 <= i < |a.edges| ==> a.edges[i].name == b.edges[i].name && a.edges[i].peer == b.edges[i].peer
  }

  /** What an arrival can do to the memory of floods: nothing beyond the frame's own. */
  ghost predicate OnlyConcerns(r: Router, f: Frame, e: Effect, now: nat) {
    && SameShape(r, e.router)
    && (forall o :: o in e.outs ==> KeyOf(o.frame) == KeyOf(f) && (o.frame.kind.Discover? ==> f.kind.Discover?))
    && (forall k :: k in e.router.seen ==> k in r.seen || (f.kind.Discover? && k == KeyOf(f)))
    && (forall k :: k in r.seen && now < r.seen[k] ==> k in e.router.seen)
  }

  lemma RouteConcerns(r: Router, base: Router, f: Frame, g: Frame, cause: Cause, up: set<bytes>, now: nat)
    requires SameShape(r, base) && (base.seen == r.seen || base.seen == Tick(r, now).seen)
    requires KeyOf(g) == KeyOf(f) && (g.kind.Discover? ==> f.kind.Discover?)
    ensures OnlyConcerns(r, f, Route(base, g, cause, up), now)
  {
    hide Route, Encodable;
    RouteFacts(base, g, cause, up);
  }

  lemma FloodConcerns(r: Router, base: Router, f: Frame, g: Frame, ingress: bytes, session: Option<Key>, env: Env)
    requires SameShape(r, base) && base.seen == Tick(r, env.now).seen
    requires KeyOf(g) == KeyOf(f) && f.kind.Discover?
    ensures OnlyConcerns(r, f, Flood(base, g, ingress, session, env), env.now)
  {
    hide Flood;
    FloodFacts(base, g, ingress, session, env);
    FloodShape(base, g, ingress, session, env);
  }

  lemma FloodShape(r: Router, f: Frame, ingress: bytes, session: Option<Key>, env: Env)
    ensures SameShape(r, Flood(r, f, ingress, session, env).router)
  {
    hide AnswerTo, Route, Reject, FanOut, Text, Quota, SelfDescription, RoutedOut, SpreadOut, SameParked;
    var key := KeyOf(f);
    if key in r.seen {
      AnswerShape(r.(alternatives := r.alternatives[key := Quota(r, key, env.now)]), f, AltPath, session, env);
    } else if |r.seen| >= SEEN_LIMIT {
      RejectFacts(r, f, Text("discovery_busy"), env.up);
    } else {
      var claimed := r.(seen := r.seen[key := env.now + SEEN_LIFE]);
      AnswerShape(claimed, f, Found, session, env);
      var a := AnswerTo(claimed, f, Found, session, env);
      var answered := Route(a.0, a.1, Cause.Answer, env.up);
      FanOutFacts(answered.router, f, ingress, answered.router.edges, env.up);
    }
  }

  lemma AnswerShape(r: Router, f: Frame, kind: Kind, session: Option<Key>, env: Env)
    ensures var a := AnswerTo(r, f, kind, session, env);
            SameShape(r, a.0) && SameShape(r, Route(a.0, a.1, Cause.Answer, env.up).router)
  {
    hide AnswerTo, Route, SelfDescription, RoutedOut, SameParked;
    AnswerToFacts(r, f, kind, session, env);
    var a := AnswerTo(r, f, kind, session, env);
    RouteFacts(a.0, a.1, Cause.Answer, env.up);
  }

  lemma DemandConcerns(r: Router, base: Router, f: Frame, g: Frame, ingress: bytes, env: Env)
    requires SameShape(r, base) && base.seen == Tick(r, env.now).seen && KeyOf(g) == KeyOf(f)
    ensures OnlyConcerns(r, f, DemandProof(base, g, ingress, env), env.now)
  {
    hide Park, OnlyConcerns;
    var paced := Paced(base, env.now);
    IdleConcerns(r, f, paced, env.now);
    ParkConcerns(r, paced.(challenges := paced.challenges + 1), f, g, ingress, env);
  }

  lemma IdleConcerns(r: Router, f: Frame, base: Router, now: nat)
    requires SameShape(r, base) && (base.seen == r.seen || base.seen == Tick(r, now).seen)
    ensures OnlyConcerns(r, f, Effect(base, [], true), now) && OnlyConcerns(r, f, Effect(base, [], false), now)
  {
  }

  lemma ParkConcerns(r: Router, base: Router, f: Frame, g: Frame, ingress: bytes, env: Env)
    requires SameShape(r, base) && base.seen == Tick(r, env.now).seen && KeyOf(g) == KeyOf(f)
    ensures OnlyConcerns(r, f, Park(base, g, ingress, env), env.now)
  {
    hide Route, A.IssueChallenge, A.DecodeChallenge, OnlyConcerns;
    IdleConcerns(r, f, base, env.now);
    var issued := A.IssueChallenge(env.crypto, A.Initial(base.authConfig, g.origin), g.request, READ_CAPABILITY,
                                   env.now, env.entropy);
    var c := A.DecodeChallenge(issued.1);
    if c.Some? {
      var parked := base.(parkedIn := base.parkedIn[c.value.n := Parked(issued.0, g, ingress, env.now + SEEN_LIFE)]);
      RouteConcerns(r, parked, f, Response(g, Kind.Challenge, issued.1), Demand, env.up, env.now);
    }
  }

  lemma ProveConcerns(r: Router, base: Router, f: Frame, g: Frame, env: Env)
    requires SameShape(r, base) && base.seen == Tick(r, env.now).seen && KeyOf(g) == KeyOf(f) && f.kind.Discover?
    ensures OnlyConcerns(r, f, Prove(base, g, env), env.now)
  {
    hide Flood, Canonical, A.Verify, OnlyConcerns;
    IdleConcerns(r, f, base, env.now);
    var n := Addressed(base, g);
    if n.Some? && Canonical(g).Some? {
      var checked := Checked(base, g, n.value, Canonical(g).value, env);
      IdleConcerns(r, f, checked.0, env.now);
      FloodConcerns(r, checked.0, f, base.parkedIn[n.value].request, base.parkedIn[n.value].ingress, n, env);
    }
  }

  lemma HandledShape(r: Router, ingress: bytes, f: Frame, env: Env)
    requires IndexOf(r.edges, ingress) < |r.edges|
    ensures var h := Handled(r, ingress, f, env);
            SameShape(r, h.0) && h.0.seen == Tick(r, env.now).seen && KeyOf(h.1) == KeyOf(f) && h.1.kind == f.kind
            && h.1.destination == f.destination && h.1.auth == f.auth && h.0.dropped == r.dropped
  {
  }

  lemma ArrivalConcerns(r: Router, ingress: bytes, f: Frame, env: Env)
    ensures OnlyConcerns(r, f, Receive(r, ingress, f, env), env.now)
  {
    hide Route, Reject, Text, OnlyConcerns, Flood, Prove, DemandProof, SameShape;
    if !Admitted(r, ingress, f) {
      RefusedConcerns(r, ingress, f, env);
    } else {
      var h := Handled(r, ingress, f, env);
      HandledShape(r, ingress, f, env);
      if !(f.kind.Discover? && f.destination == []) {
        RouteConcerns(r, h.0, f, h.1, Relay, env.up, env.now);
      } else if f.auth != [] {
        ProveConcerns(r, h.0, f, h.1, env);
      } else if h.0.required {
        DemandConcerns(r, h.0, f, h.1, ingress, env);
      } else {
        FloodConcerns(r, h.0, f, h.1, ingress, None, env);
      }
    }
  }

  lemma RefusedConcerns(r: Router, ingress: bytes, f: Frame, env: Env)
    requires !Admitted(r, ingress, f)
    ensures OnlyConcerns(r, f, Receive(r, ingress, f, env), env.now)
  {
    hide Route, Reject, Text, DiscoverRemote, Tick;
    RejectFacts(r, f, Text("reply_path_limit"), env.up);
  }

  // ---------------------------------------------------------------- the invariant

  predicate IsFlood(p: Packet, k: FloodKey) {
    p.frame.kind.Discover? && KeyOf(p.frame) == k
  }

  predicate Knows(net: Net, n: Node, k: FloodKey) {
    n in net.routers && k in net.routers[n].seen
  }

  ghost predicate Underway(net: Net, x: End, k: FloodKey) {
    exists p :: p in net.flight && p.at == x && IsFlood(p, k)
  }

  ghost predicate HasEdge(r: Router, name: bytes) {
    exists i :: 0 <= i < |r.edges| && r.edges[i].name == name
  }

  /** Links join two connections, symmetrically; routers are enabled, do not require
      authentication, and have one peer edge at most. */
  ghost predicate WellWired(net: Net) {
    && (forall x :: x in net.wires ==> net.wires[x] in net.wires && net.wires[net.wires[x]] == x)
    && (forall x :: x in net.wires ==> x.node in net.routers && HasEdge(net.routers[x.node], x.edge))
    && (forall n :: n in net.routers ==> RouterOk(net.routers[n]))
  }

  ghost predicate RouterOk(r: Router) {
    r.allowed && !r.required && DistinctNames(r.edges) && OnePeer(r.edges) && !HasEdge(r, [])
  }

  /** Frames of the flood come from routers that know it; a router that knows it has
      passed it on over every link, or the far end knows it already. */
  ghost predicate Spreading(net: Net, k: FloodKey) {
    && WellWired(net)
    && (forall p :: p in net.flight && IsFlood(p, k) ==>
          p.frame.auth == [] && p.frame.destination == [] && Knows(net, p.at.node, k))
    && (forall x :: x in net.wires && Knows(net, x.node, k) ==> Knows(net, net.wires[x].node, k) || Underway(net, x, k))
  }

  /** The flood is neither lost, nor refused, nor forgotten, nor counterfeited by a move. */
  ghost predicate Faithful(net: Net, m: Move, k: FloodKey)
    requires Possible(net, m)
  {
    match m
    case Deliver(i, _, env) =>
      var p := net.flight[i];
      var r := net.routers[net.wires[p.at].node];
      && (k in r.seen ==> env.now < r.seen[k])
      && (IsFlood(p, k) && k !in r.seen ==> Clean(r, ArrivalStep(net, p, env)))
    case Lose(i) => !IsFlood(net.flight[i], k)
    case Local(node, input) =>
      var r := net.routers[node];
      && (k in r.seen && TimeOf(input).Some? ==> TimeOf(input).value < r.seen[k])
      && match input
         case Emit(f, _) => !(f.kind.Discover? && KeyOf(f) == k)
         case Begin(request, _) => FloodKey(r.instance, request) != k
         case Vouch(f, _) => KeyOf(f) != k
         case _ => true
  }

  lemma {:induction false} PacketsOf(node: Node, outs: seq<Out>)
    ensures forall o :: o in outs && o.Sent? ==> Packet(End(node, o.edge), o.frame) in Packets(node, outs)
    ensures forall p :: p in Packets(node, outs) ==>
              p.at.node == node && exists o :: o in outs && o.Sent? && p == Packet(End(node, o.edge), o.frame)
  {
    if outs != [] {
      PacketsOf(node, outs[1..]);
      var rest := Packets(node, outs[1..]);
      forall p | p in Packets(node, outs)
        ensures p.at.node == node && exists o :: o in outs && o.Sent? && p == Packet(End(node, o.edge), o.frame)
      {
        if p in rest {
          var o :| o in outs[1..] && o.Sent? && p == Packet(End(node, o.edge), o.frame);
          assert o in outs;
        } else {
          assert outs[0] in outs;
        }
      }
    }
  }

  /** The general step: one router changes, packets of it are added, at most the packet
      `gone` disappears. */
  ghost predicate StepsTo(net: Net, after: Net, node: Node, e: Effect, gone: Option<Packet>) {
    && node in net.routers && after.wires == net.wires && after.routers == net.routers[node := e.router]
    && (forall p :: p in after.flight ==> p in net.flight || p in Packets(node, e.outs))
    && (forall p :: p in Packets(node, e.outs) ==> p in after.flight)
    && (forall p :: p in net.flight && gone != Some(p) ==> p in after.flight)
  }

  lemma ShapeKeepsWiring(net: Net, after: Net, node: Node, e: Effect, gone: Option<Packet>)
    requires WellWired(net) && StepsTo(net, after, node, e, gone) && SameShape(net.routers[node], e.router)
    ensures WellWired(after)
  {
    var r := net.routers[node];
    assert DistinctNames(e.router.edges) && OnePeer(e.router.edges);
    forall name | HasEdge(r, name) ensures HasEdge(e.router, name) {
      var i :| 0 <= i < |r.edges| && r.edges[i].name == name;
      assert e.router.edges[i].name == name;
    }
    assert !HasEdge(e.router, []);
  }

  /** Steps that emit no frame of the flood and do not change who knows it. */
  lemma UnconcernedStep(net: Net, after: Net, node: Node, e: Effect, gone: Option<Packet>, k: FloodKey)
    requires Spreading(net, k) && StepsTo(net, after, node, e, gone) && SameShape(net.routers[node], e.router)
    requires k in e.router.seen <==> k in net.routers[node].seen
    requires forall o :: o in e.outs ==> !(o.frame.kind.Discover? && KeyOf(o.frame) == k)
    requires gone.Some? && IsFlood(gone.value, k) ==>
               gone.value.at in net.wires && net.wires[gone.value.at].node == node && k in e.router.seen
    ensures Spreading(after, k)
  {
    hide SameShape, WellWired;
    ShapeKeepsWiring(net, after, node, e, gone);
    PacketsOf(node, e.outs);
    forall p | p in after.flight && IsFlood(p, k)
      ensures p.frame.auth == [] && p.frame.destination == [] && Knows(after, p.at.node, k)
    {
      assert p in net.flight;
    }
    forall x | x in after.wires && Knows(after, x.node, k)
      ensures Knows(after, after.wires[x].node, k) || Underway(after, x, k)
    {
      assert Knows(net, x.node, k);
      if Underway(net, x, k) {
        var p :| p in net.flight && p.at == x && IsFlood(p, k);
        if gone != Some(p) { assert p in after.flight; }
      }
    }
  }

  /** Frames added by a router that now knows the flood, in the form that flood frames have. */
  ghost predicate GoodBranches(e: Effect, k: FloodKey) {
    && k in e.router.seen
    && forall o :: o in e.outs && o.frame.kind.Discover? && KeyOf(o.frame) == k ==>
      o.frame.auth == [] && o.frame.destination == []
  }

  /** The flood goes out over every connection but the ingress. */
  ghost predicate CoversEdges(r: Router, e: Effect, k: FloodKey, ingress: bytes) {
    forall edge :: edge in r.edges && edge.name != ingress ==>
      exists o :: o in e.outs && o.Sent? && o.edge == edge.name && o.frame.kind.Discover? && KeyOf(o.frame) == k
  }

  lemma LearningPackets(net: Net, after: Net, node: Node, e: Effect, gone: Option<Packet>, k: FloodKey, p: Packet)
    requires Spreading(net, k) && StepsTo(net, after, node, e, gone) && GoodBranches(e, k)
    requires p in after.flight && IsFlood(p, k)
    ensures p.frame.auth == [] && p.frame.destination == [] && Knows(after, p.at.node, k)
  {
    hide WellWired;
    PacketsOf(node, e.outs);
    if p !in net.flight {
      var o :| o in e.outs && o.Sent? && p == Packet(End(node, o.edge), o.frame);
    }
  }

  /** The step in which a router first learns of the flood, from its connection `ingress`. */
  lemma LearningStep(net: Net, after: Net, node: Node, e: Effect, gone: Option<Packet>, k: FloodKey, ingress: bytes)
    requires Spreading(net, k) && StepsTo(net, after, node, e, gone) && SameShape(net.routers[node], e.router)
    requires GoodBranches(e, k) && CoversEdges(net.routers[node], e, k, ingress)
    requires gone.Some? ==> gone.value.at in net.wires && net.wires[gone.value.at].node == node
    requires ingress != [] ==> End(node, ingress) in net.wires && Knows(net, net.wires[End(node, ingress)].node, k)
    ensures Spreading(after, k)
  {
    hide SameShape, WellWired, GoodBranches, CoversEdges;
    ShapeKeepsWiring(net, after, node, e, gone);
    forall p | p in after.flight && IsFlood(p, k)
      ensures p.frame.auth == [] && p.frame.destination == [] && Knows(after, p.at.node, k)
    {
      LearningPackets(net, after, node, e, gone, k, p);
    }
    forall x | x in after.wires && Knows(after, x.node, k)
      ensures Knows(after, after.wires[x].node, k) || Underway(after, x, k)
    {
      if x.node == node {
        LearnedLink(net, after, node, e, k, ingress, x);
      } else {
        OtherLink(net, after, node, e, gone, k, x);
      }
    }
  }

  lemma OtherLink(net: Net, after: Net, node: Node, e: Effect, gone: Option<Packet>, k: FloodKey, x: End)
    requires Spreading(net, k) && StepsTo(net, after, node, e, gone) && GoodBranches(e, k)
    requires gone.Some? ==> gone.value.at in net.wires && net.wires[gone.value.at].node == node
    requires x in net.wires && x.node != node && Knows(net, x.node, k)
    ensures Knows(after, after.wires[x].node, k) || Underway(after, x, k)
  {
    hide WellWired;
    if Underway(net, x, k) {
      var p :| p in net.flight && p.at == x && IsFlood(p, k);
      if gone != Some(p) { assert p in after.flight; }
    }
  }

  lemma LearnedLink(net: Net, after: Net, node: Node, e: Effect, k: FloodKey, ingress: bytes, x: End)
    requires WellWired(net) && x in net.wires && x.node == node && node in net.routers
    requires after.wires == net.wires && after.routers == net.routers[node := e.router] && GoodBranches(e, k)
    requires forall p :: p in Packets(node, e.outs) ==> p in after.flight
    requires CoversEdges(net.routers[node], e, k, ingress)
    requires ingress != [] ==> End(node, ingress) in net.wires && Knows(net, net.wires[End(node, ingress)].node, k)
    ensures Knows(after, after.wires[x].node, k) || Underway(after, x, k)
  {
    var r := net.routers[node];
    var i :| 0 <= i < |r.edges| && r.edges[i].name == x.edge;
    if x.edge == ingress {
      assert ingress != [] by {
        assert HasEdge(r, x.edge);
      }
      assert x == End(node, ingress);
    } else {
      assert r.edges[i] in r.edges;
      var o :| o in e.outs && o.Sent? && o.edge == x.edge && o.frame.kind.Discover? && KeyOf(o.frame) == k;
      PacketsOf(node, e.outs);
      var p := Packet(End(node, o.edge), o.frame);
      assert p in after.flight && p.at == x && IsFlood(p, k);
    }
  }

  // ---------------------------------------------------------------- moves

  lemma DeliverStepsTo(net: Net, m: Move)
    requires Possible(net, m) && m.Deliver?
    ensures var p := net.flight[m.i];
            StepsTo(net, Apply(net, m), net.wires[p.at].node, ArrivalStep(net, p, m.env), Some(p))
  {
    hide ArrivalStep;
    var p, rest := net.flight[m.i], Without(net.flight, m.i);
    forall q | q in net.flight && q != p ensures q in rest {
      var j :| 0 <= j < |net.flight| && net.flight[j] == q;
      if j < m.i { assert rest[j] == q; } else { assert rest[j - 1] == q; }
    }
  }

  lemma {:induction false} EdgePresent(edges: seq<Edge>, name: bytes)
    requires exists i :: 0 <= i < |edges| && edges[i].name == name
    ensures IndexOf(edges, name) < |edges|
  {
    if edges[0].name != name {
      var i :| 0 <= i < |edges| && edges[i].name == name;
      assert edges[1..][i - 1].name == name;
      EdgePresent(edges[1..], name);
    }
  }

  /** Arrival of the flood at a router that does not know it yet. */
  lemma FirstArrival(r: Router, ingress: bytes, f: Frame, env: Env)
    requires RouterOk(r) && HasEdge(r, ingress)
    requires f.kind.Discover? && f.destination == [] && f.auth == [] && KeyOf(f) !in r.seen
    requires Clean(r, Receive(r, ingress, f, env))
    ensures var e := Receive(r, ingress, f, env); GoodBranches(e, KeyOf(f)) && CoversEdges(r, e, KeyOf(f), ingress)
  {
    hide Flood, Route, Reject, Text, Prove, DemandProof, SameShape;
    EdgePresent(r.edges, ingress);
    if |f.replyPath| >= MAX_HOPS {
      RejectIsNotClean(r, f, Text("reply_path_limit"), env.up);
    } else {
      var h := Handled(r, ingress, f, env);
      HandledShape(r, ingress, f, env);
      FirstFlood(r, h.0, ingress, h.1, env);
    }
  }

  lemma FirstFlood(r: Router, base: Router, ingress: bytes, f: Frame, env: Env)
    requires SameShape(r, base) && DistinctNames(r.edges) && OnePeer(r.edges) && base.dropped == r.dropped
    requires f.kind.Discover? && f.auth == [] && KeyOf(f) !in base.seen
    requires Clean(r, Flood(base, f, ingress, None, env))
    ensures var e := Flood(base, f, ingress, None, env);
            GoodBranches(e, KeyOf(f)) && CoversEdges(r, e, KeyOf(f), ingress)
  {
    hide Flood, Trace;
    var e, k := Flood(base, f, ingress, None, env), KeyOf(f);
    assert DistinctNames(base.edges) && OnePeer(base.edges);
    CleanFlood(base, f, ingress, env);
    FloodBranches(base, f, ingress, env);
    forall edge | edge in r.edges && edge.name != ingress
      ensures exists o :: o in e.outs && o.Sent? && o.edge == edge.name && o.frame.kind.Discover? && KeyOf(o.frame) == k
    {
      var i :| 0 <= i < |r.edges| && r.edges[i] == edge;
      assert base.edges[i] in base.edges && base.edges[i].name == edge.name;
      var o :| o in e.outs && SpreadThrough(f, base.edges[i], o);
    }
  }

  /** The only discovery frames of a flood step are its branches. */
  lemma FloodBranches(r: Router, f: Frame, ingress: bytes, env: Env)
    ensures forall o :: o in Flood(r, f, ingress, None, env).outs && o.frame.kind.Discover? ==>
              o.frame.auth == [] && o.frame.destination == []
  {
    hide AnswerTo, Route, FanOut, Reject, Text, SelfDescription, Quota, Trace, RoutedOut;
    var key := KeyOf(f);
    RejectFacts(r, f, Text("discovery_busy"), env.up);
    if key in r.seen {
      var counted := r.(alternatives := r.alternatives[key := Quota(r, key, env.now)]);
      AnswerToFacts(counted, f, AltPath, None, env);
      var a := AnswerTo(counted, f, AltPath, None, env);
      AnswerOutFacts(a.0, a.1, f, AltPath, env.up);
    } else {
      var claimed := r.(seen := r.seen[key := env.now + SEEN_LIFE]);
      AnswerToFacts(claimed, f, Found, None, env);
      var a := AnswerTo(claimed, f, Found, None, env);
      AnswerOutFacts(a.0, a.1, f, Found, env.up);
      var answered := Route(a.0, a.1, Cause.Answer, env.up);
      FanOutBranches(answered.router, f, ingress, answered.router.edges, env.up);
    }
  }

  lemma FanOutBranches(r: Router, f: Frame, ingress: bytes, edges: seq<Edge>, up: set<bytes>)
    ensures forall o :: o in FanOut(r, f, ingress, edges, up).outs && o.frame.kind.Discover? ==>
              o.frame.auth == [] && o.frame.destination == []
  {
    hide FanOut, Encodable, Trace;
    FanOutFacts(r, f, ingress, edges, up);
    forall o | o in FanOut(r, f, ingress, edges, up).outs && o.frame.kind.Discover?
      ensures o.frame.auth == [] && o.frame.destination == []
    {
      var e :| e in edges && e.name != ingress && SpreadOut(r, f, e, o);
    }
  }

  /** Arrival of the flood at a router that knows it: an ALT_PATH answer at most. */
  lemma RepeatedArrival(r: Router, ingress: bytes, f: Frame, env: Env)
    requires r.allowed && !r.required && f.kind.Discover? && f.destination == [] && f.auth == []
    requires KeyOf(f) in r.seen && env.now < r.seen[KeyOf(f)]
    ensures forall o :: o in Receive(r, ingress, f, env).outs ==> !o.frame.kind.Discover?
  {
    hide Flood, Route, Reject, Text, Prove, DemandProof, SameShape;
    if Admitted(r, ingress, f) {
      var h := Handled(r, ingress, f, env);
      HandledShape(r, ingress, f, env);
      RepeatedFlood(h.0, h.1, ingress, env);
    } else {
      RejectFacts(r, f, Text("reply_path_limit"), env.up);
    }
  }

  lemma RepeatedFlood(r: Router, f: Frame, ingress: bytes, env: Env)
    requires KeyOf(f) in r.seen
    ensures forall o :: o in Flood(r, f, ingress, None, env).outs ==> !o.frame.kind.Discover?
  {
    hide AnswerTo, Route, SelfDescription, Quota;
    var counted := r.(alternatives := r.alternatives[KeyOf(f) := Quota(r, KeyOf(f), env.now)]);
    AnswerToFacts(counted, f, AltPath, None, env);
    var a := AnswerTo(counted, f, AltPath, None, env);
    AnswerOutFacts(a.0, a.1, f, AltPath, env.up);
  }

  lemma DeliverSpreads(net: Net, m: Move, k: FloodKey)
    requires Spreading(net, k) && Possible(net, m) && m.Deliver? && Faithful(net, m, k)
    ensures Spreading(Apply(net, m), k)
  {
    hide Receive, SameShape, Clean, StepsTo, GoodBranches, CoversEdges, RouterOk, Apply;
    var p := net.flight[m.i];
    assert p in net.flight;
    var node, ingress := net.wires[p.at].node, net.wires[p.at].edge;
    var r, e := net.routers[node], ArrivalStep(net, p, m.env);
    DeliverStepsTo(net, m);
    ArrivalConcerns(r, ingress, p.frame, m.env);
    if !IsFlood(p, k) {
      UnconcernedStep(net, Apply(net, m), node, e, Some(p), k);
    } else if k in r.seen {
      assert r.allowed && !r.required by { OkRouter(r); }
      RepeatedArrival(r, ingress, p.frame, m.env);
      UnconcernedStep(net, Apply(net, m), node, e, Some(p), k);
    } else {
      assert net.wires[net.wires[p.at]] == p.at;
      assert ingress != [] by { NamedEdge(r, ingress); }
      FirstArrival(r, ingress, p.frame, m.env);
      LearningStep(net, Apply(net, m), node, e, Some(p), k, ingress);
    }
  }

  lemma OkRouter(r: Router)
    requires RouterOk(r)
    ensures r.allowed && !r.required
  {
  }

  lemma NamedEdge(r: Router, name: bytes)
    requires RouterOk(r) && HasEdge(r, name)
    ensures name != []
  {
  }

  lemma LocalStepsTo(net: Net, m: Move)
    requires Possible(net, m) && m.Local?
    ensures StepsTo(net, Apply(net, m), m.node, Step(net.routers[m.node], m.input), None)
  {
    hide Step;
  }

  lemma LoseSpreads(net: Net, m: Move, k: FloodKey)
    requires Spreading(net, k) && Possible(net, m) && m.Lose? && Faithful(net, m, k)
    ensures Spreading(Apply(net, m), k)
  {
    hide WellWired;
    var p, rest := net.flight[m.i], Without(net.flight, m.i);
    forall q | q in net.flight && IsFlood(q, k) ensures q in rest {
      var j :| 0 <= j < |net.flight| && net.flight[j] == q;
      if j < m.i { assert rest[j] == q; } else { assert rest[j - 1] == q; }
    }
    var after := Apply(net, m);
    WiringUnchanged(net, after);
    forall x | x in after.wires && Knows(after, x.node, k)
      ensures Knows(after, after.wires[x].node, k) || Underway(after, x, k)
    {
      if Underway(net, x, k) {
        var q :| q in net.flight && q.at == x && IsFlood(q, k);
        assert q in after.flight;
      }
    }
  }

  lemma WiringUnchanged(a: Net, b: Net)
    requires WellWired(a) && a.routers == b.routers && a.wires == b.wires
    ensures WellWired(b)
  {
  }

  /** Local activity that has nothing to do with the flood. */
  lemma LocalConcerns(r: Router, input: Input, k: FloodKey)
    requires !input.Arrive? && !input.Attach?
    requires k in r.seen && TimeOf(input).Some? ==> TimeOf(input).value < r.seen[k]
    requires match input
             case Emit(f, _) => !(f.kind.Discover? && KeyOf(f) == k)
             case Begin(request, _) => FloodKey(r.instance, request) != k
             case Vouch(f, _) => KeyOf(f) != k
             case _ => true
    ensures var e := Step(r, input);
            && SameShape(r, e.router) && (k in e.router.seen <==> k in r.seen)
            && forall o :: o in e.outs ==> !(o.frame.kind.Discover? && KeyOf(o.frame) == k)
  {
    hide Route, Flood, AnswerChallenge, VerifyAnswer, OnlyConcerns, SameShape;
    match input {
      case Emit(f, env) =>
        assert SameShape(r, Tick(r, env.now)) by { TickShape(r, env.now); }
        RouteConcerns(r, Tick(r, env.now), f, f, Relay, env.up, env.now);
        ConcernsOthers(r, f, Step(r, input), env.now, k);
      case Begin(request, env) =>
        assert SameShape(r, Tick(r, env.now)) by { TickShape(r, env.now); }
        var f := DiscoveryFrame(r.instance, request, [], []);
        FloodConcerns(r, Tick(r, env.now), f, f, [], None, env);
        IdleConcerns(r, f, r, env.now) by { TickShape(r, env.now); SelfShape(r); }
        ConcernsOthers(r, f, Step(r, input), env.now, k);
      case Vouch(f, env) =>
        VouchConcerns(r, f, env);
        ConcernsOthers(r, DiscoveryFrame(f.origin, f.request, f.command, f.replyPath), Step(r, input), env.now, k);
      case Believe(f, env) =>
        BelieveShape(r, f, env);
        TickShape(r, env.now);
      case Clock(now) =>
        TickShape(r, now);
    }
  }

  lemma SelfShape(r: Router)
    ensures SameShape(r, r)
  {
  }

  lemma TickShape(r: Router, now: nat)
    ensures SameShape(r, Tick(r, now))
  {
  }

  lemma ConcernsOthers(r: Router, f: Frame, e: Effect, now: nat, k: FloodKey)
    requires OnlyConcerns(r, f, e, now) && (k in r.seen ==> now < r.seen[k])
    requires !(f.kind.Discover? && KeyOf(f) == k)
    ensures SameShape(r, e.router) && (k in e.router.seen <==> k in r.seen)
    ensures forall o :: o in e.outs ==> !(o.frame.kind.Discover? && KeyOf(o.frame) == k)
  {
    hide SameShape;
  }

  lemma VouchConcerns(r: Router, f: Frame, env: Env)
    ensures OnlyConcerns(r, DiscoveryFrame(f.origin, f.request, f.command, f.replyPath), AnswerChallenge(r, f, env).0,
                         env.now)
  {
    hide Route, Canonical, A.AcceptChallenge, A.Protect, A.DecodeChallenge, OnlyConcerns;
    var t := Tick(r, env.now);
    var bare := DiscoveryFrame(f.origin, f.request, f.command, f.replyPath);
    IdleConcerns(r, bare, t, env.now);
    if AnswerChallenge(r, f, env).1 {
      var c := A.DecodeChallenge(f.data).value;
      var accepted := A.AcceptChallenge(env.crypto, A.Initial(t.authConfig, f.origin), f.request, f.data, env.now);
      var signed := A.Protect(env.crypto, accepted.0, f.request, Canonical(bare).value, false);
      var proof := bare.(auth := signed.1);
      RouteConcerns(r, t.(parkedOut := t.parkedOut[c.n := Parked(signed.0, proof, [], env.now + SEEN_LIFE)]), bare,
                    proof, Proof, env.up, env.now);
    }
  }

  lemma BelieveShape(r: Router, f: Frame, env: Env)
    ensures SameShape(r, VerifyAnswer(r, f, env).0) && VerifyAnswer(r, f, env).0.seen == Tick(r, env.now).seen
  {
    hide Canonical, A.VerifyReply;
  }

  lemma MoveSpreads(net: Net, m: Move, k: FloodKey)
    requires Spreading(net, k) && Possible(net, m) && Faithful(net, m, k)
    ensures Spreading(Apply(net, m), k)
  {
    hide Spreading, Step, SameShape, StepsTo, Receive, Clean;
    match m {
      case Deliver(_, _, _) => DeliverSpreads(net, m, k);
      case Lose(_) => LoseSpreads(net, m, k);
      case Local(node, input) =>
        LocalConcerns(net.routers[node], input, k);
        LocalStepsTo(net, m);
        UnconcernedStep(net, Apply(net, m), node, Step(net.routers[node], input), None, k);
    }
  }

  // ---------------------------------------------------------------- whole runs

  ghost predicate AllFaithful(net: Net, moves: seq<Move>, k: FloodKey)
    requires Runs(net, moves)
    decreases |moves|
  {
    moves != [] ==> Faithful(net, moves[0], k) && AllFaithful(Apply(net, moves[0]), moves[1..], k)
  }

  lemma {:induction false} RunSpreads(net: Net, moves: seq<Move>, k: FloodKey)
    requires Spreading(net, k) && Runs(net, moves) && AllFaithful(net, moves, k)
    ensures Spreading(Final(net, moves), k) && Final(net, moves).wires == net.wires
    ensures forall n :: Knows(net, n, k) ==> Knows(Final(net, moves), n, k)
    decreases |moves|
  {
    hide Spreading, Apply, Faithful;
    if moves != [] {
      MoveSpreads(net, moves[0], k);
      MoveRemembers(net, moves[0], k);
      RunSpreads(Apply(net, moves[0]), moves[1..], k);
    }
  }

  lemma MoveRemembers(net: Net, m: Move, k: FloodKey)
    requires Possible(net, m) && Faithful(net, m, k)
    ensures Apply(net, m).wires == net.wires
    ensures forall n :: Knows(net, n, k) ==> Knows(Apply(net, m), n, k)
  {
    hide Receive, Step, SameShape, Clean;
    match m {
      case Deliver(i, _, env) =>
        var p := net.flight[i];
        ArrivalConcerns(net.routers[net.wires[p.at].node], net.wires[p.at].edge, p.frame, env);
      case Lose(_) =>
      case Local(node, input) =>
        LocalConcerns(net.routers[node], input, k);
    }
  }

  /** `path` follows links of the network from one router to the next. */
  ghost predicate IsPath(net: Net, path: seq<Node>) {
    forall i :: 0 <= i < |path| - 1 ==> Linked(net, path[i], path[i + 1])
  }

  ghost predicate Linked(net: Net, a: Node, b: Node) {
    exists x :: x in net.wires && x.node == a && net.wires[x].node == b
  }

  lemma {:induction false} KnowledgeTravels(net: Net, k: FloodKey, path: seq<Node>)
    requires Spreading(net, k) && (forall p :: p in net.flight ==> !IsFlood(p, k))
    requires path != [] && IsPath(net, path) && Knows(net, path[0], k)
    ensures Knows(net, path[|path| - 1], k)
  {
    if |path| > 1 {
      hide WellWired;
      assert Linked(net, path[0], path[1]);
      var x :| x in net.wires && x.node == path[0] && net.wires[x].node == path[1];
      assert Knows(net, path[1], k);
      assert IsPath(net, path[1..]) by {
        forall i | 0 <= i < |path[1..]| - 1 ensures Linked(net, path[1..][i], path[1..][i + 1]) {
          assert path[1..][i] == path[i + 1] && path[1..][i + 1] == path[i + 2];
        }
      }
      KnowledgeTravels(net, k, path[1..]);
    }
  }

  /** Beginning a discovery at `origin`, in a network that has not heard of it. */
  lemma BeginSpreads(net: Net, origin: Node, request: Id, env: Env)
    requires WellWired(net) && origin in net.routers
    requires var k := FloodKey(net.routers[origin].instance, request);
             (forall n :: !Knows(net, n, k)) && (forall p :: p in net.flight ==> !IsFlood(p, k))
    requires Clean(Tick(net.routers[origin], env.now), Step(net.routers[origin], Begin(request, env)))
    ensures var k := FloodKey(net.routers[origin].instance, request);
            var after := Apply(net, Local(origin, Begin(request, env)));
            Spreading(after, k) && Knows(after, origin, k)
  {
    hide Flood, SameShape, StepsTo, GoodBranches, CoversEdges, WellWired;
    var r := net.routers[origin];
    var k := FloodKey(r.instance, request);
    var f := DiscoveryFrame(r.instance, request, [], []);
    var t := Tick(r, env.now);
    var m := Local(origin, Begin(request, env));
    var e := Step(r, Begin(request, env));
    assert Spreading(net, k);
    assert r.allowed && DistinctNames(t.edges) && OnePeer(t.edges) by { WiredRouter(net, origin); }
    TickShape(r, env.now);
    assert SameShape(t, t) by { SelfShape(t); }
    assert k !in t.seen by { assert !Knows(net, origin, k); }
    FirstFlood(t, t, [], f, env);
    FloodShape(t, f, [], None, env);
    ShapeTrans(r, t, e.router);
    TickEdges(r, t, e, k);
    LocalStepsTo(net, m);
    LearningStep(net, Apply(net, m), origin, e, None, k, []);
    assert Knows(Apply(net, m), origin, k) by { GoodKnows(e, k); }
  }

  lemma WiredRouter(net: Net, n: Node)
    requires WellWired(net) && n in net.routers
    ensures net.routers[n].allowed && DistinctNames(net.routers[n].edges) && OnePeer(net.routers[n].edges)
  {
  }

  lemma GoodKnows(e: Effect, k: FloodKey)
    requires GoodBranches(e, k)
    ensures k in e.router.seen
  {
  }

  lemma ShapeTrans(a: Router, b: Router, c: Router)
    requires SameShape(a, b) && SameShape(b, c)
    ensures SameShape(a, c)
  {
  }

  lemma TickEdges(r: Router, t: Router, e: Effect, k: FloodKey)
    requires t.edges == r.edges && CoversEdges(t, e, k, [])
    ensures CoversEdges(r, e, k, [])
  {
  }

  /** Coverage. In a network of enabled routers with at most one peer edge each, begin a
      discovery and let anything happen, in any order and with any duplication, except
      that the flood itself is never lost, refused, forgotten or forged. Whenever none of
      its frames is in flight any more, every router that a path of links joins to the
      origin has recorded it. */
  lemma QuiescentFloodHasReachedAll(net: Net, origin: Node, request: Id, env: Env, moves: seq<Move>, path: seq<Node>)
    requires WellWired(net) && origin in net.routers
    requires var k := FloodKey(net.routers[origin].instance, request);
             (forall n :: !Knows(net, n, k)) && (forall p :: p in net.flight ==> !IsFlood(p, k))
    requires Clean(Tick(net.routers[origin], env.now), Step(net.routers[origin], Begin(request, env)))
    requires var k := FloodKey(net.routers[origin].instance, request);
             var begun := Apply(net, Local(origin, Begin(request, env)));
             Runs(begun, moves) && AllFaithful(begun, moves, k)
             && forall p :: p in Final(begun, moves).flight ==> !IsFlood(p, k)
    requires path != [] && path[0] == origin && IsPath(net, path)
    ensures var k := FloodKey(net.routers[origin].instance, request);
            var begun := Apply(net, Local(origin, Begin(request, env)));
            Knows(Final(begun, moves), path[|path| - 1], k)
  {
    hide Spreading, WellWired, Step, Clean, Linked;
    var k := FloodKey(net.routers[origin].instance, request);
    BeginSpreads(net, origin, request, env);
    var begun := Apply(net, Local(origin, Begin(request, env)));
    RunSpreads(begun, moves, k);
    var end := Final(begun, moves);
    assert end.wires == net.wires;
    SamePaths(net, end, path);
    KnowledgeTravels(end, k, path);
  }

  lemma SamePaths(a: Net, b: Net, path: seq<Node>)
    requires a.wires == b.wires && IsPath(a, path)
    ensures IsPath(b, path)
  {
    forall i | 0 <= i < |path| - 1 ensures Linked(b, path[i], path[i + 1]) {
      assert Linked(a, path[i], path[i + 1]);
    }
  }
}
