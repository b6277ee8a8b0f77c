/** A network of routers joined by point-to-point links, with frames in flight that can
    be delayed, reordered, duplicated and lost; and the reach of an unauthenticated
    discovery flood in it (src/control_router.hpp). */
module RouterNetwork {
  import opened Bytes
  import opened ControlRoute
  import opened ControlRouter
  import opened RouterFacts
  import opened DiscoveryRuns

  type Node = nat

  /** One end of a link: a router and the name of its connection. */
  datatype End = End(node: Node, edge: bytes)

  /** A frame on the link that leaves from `at`. */
  datatype Packet = Packet(at: End, frame: Frame)

  datatype Net = Net(routers: map<Node, Router>, wires: map<End, End>, flight: seq<Packet>)

  datatype Move =
    | Deliver(i: nat, keep: bool, env: Env)
    | Lose(i: nat)
    | Local(node: Node, input: Input)

  function Packets(node: Node, outs: seq<Out>): seq<Packet> {
    if outs == [] then []
    else (if outs[0].Sent? then [Packet(End(node, outs[0].edge), outs[0].frame)] else []) + Packets(node, outs[1..])
  }

  function Without(flight: seq<Packet>, i: nat): seq<Packet>
    requires i < |flight|
  {
    flight[..i] + flight[i + 1..]
  }

  /** Where a packet in flight will arrive. */
  predicate Arriving(net: Net, p: Packet) {
    p.at in net.wires && net.wires[p.at].node in net.routers
  }

  function ArrivalStep(net: Net, p: Packet, env: Env): Effect
    requires Arriving(net, p)
  {
    Receive(net.routers[net.wires[p.at].node], net.wires[p.at].edge, p.frame, env)
  }

  predicate Possible(net: Net, m: Move) {
    match m
    case Deliver(i, _, _) => i < |net.flight| && Arriving(net, net.flight[i])
    case Lose(i) => i < |net.flight|
    case Local(node, input) => node in net.routers && !input.Arrive? && !input.Attach?
  }

  function Apply(net: Net, m: Move): Net
    requires Possible(net, m)
  {
    match m
    case Deliver(i, keep, env) =>
      var p := net.flight[i];
      var e := ArrivalStep(net, p, env);
      var node := net.wires[p.at].node;
      net.(routers := net.routers[node := e.router],
           flight := (if keep then net.flight else Without(net.flight, i)) + Packets(node, e.outs))
    case Lose(i) => net.(flight := Without(net.flight, i))
    case Local(node, input) =>
      var e := Step(net.routers[node], input);
      net.(routers := net.routers[node := e.router], flight := net.flight + Packets(node, e.outs))
  }

  ghost predicate Runs(net: Net, moves: seq<Move>)
    decreases |moves|
  {
    moves != [] ==> Possible(net, moves[0]) && Runs(Apply(net, moves[0]), moves[1..])
  }

  ghost function Final(net: Net, moves: seq<Move>): Net
    requires Runs(net, moves)
    decreases |moves|
  {
    if moves == [] then net else Final(Apply(net, moves[0]), moves[1..])
  }

  /** A frame that a router sends arrives as the same frame: the bytes decode to it. */
  lemma BytesArriveAsFrames(r: Router, ingress: bytes, f: Frame, env: Env)
    requires Encodable(f)
    ensures ReceiveBytes(r, ingress, FrameBytes(f), env) == Receive(r, ingress, f, env)
  {
    hide Receive, FrameBytes;
    DecodedEncoded(f);
    if !r.allowed { DisabledDrops(r, ingress, f, env); }
  }

  lemma DisabledDrops(r: Router, ingress: bytes, f: Frame, env: Env)
    requires !r.allowed
    ensures Receive(r, ingress, f, env) == Drop(r)
  {
  }

  // ---------------------------------------------------------------- spreading through every edge

  ghost predicate DistinctNames(edges: seq<Edge>) {
    forall i, j :: 0 <= i < j < |edges| ==> edges[i].name != edges[j].name
  }

  ghost predicate OnePeer(edges: seq<Edge>) {
    forall i, j :: 0 <= i < j < |edges| ==> !(edges[i].peer && edges[j].peer)
  }

  lemma {:induction false} ResolveFirst(edges: seq<Edge>, hop: Hop, i: nat)
    requires i < |edges| && Matches(edges[i], hop)
    requires forall j :: 0 <= j < i ==> !Matches(edges[j], hop)
    ensures Resolve(edges, hop) == Some(edges[i])
  {
    if i > 0 {
      assert !Matches(edges[0], hop);
      ResolveFirst(edges[1..], hop, i - 1);
    }
  }

  /** The hop that fan-out aims at an edge designates that edge, for all edges, exactly
      when at most one of them is a peer edge. */
  lemma AimsAreExactIffOnePeer(edges: seq<Edge>)
    requires DistinctNames(edges)
    ensures OnePeer(edges) <==> forall e :: e in edges ==> Resolve(edges, HopTo(e)) == Some(e)
  {
    if OnePeer(edges) {
      forall e | e in edges ensures Resolve(edges, HopTo(e)) == Some(e) {
        var i :| 0 <= i < |edges| && edges[i] == e;
        ResolveFirst(edges, HopTo(e), i);
      }
    } else {
      var i, j :| 0 <= i < j < |edges| && edges[i].peer && edges[j].peer;
      assert HopTo(edges[i]) == HopTo(edges[j]);
      assert edges[i] in edges && edges[j] in edges && edges[i] != edges[j];
    }
  }

  /** A case where it does not: of two peer edges, both hops lead to the first. */
  lemma SecondPeerIsMissed(first: Edge, second: Edge)
    requires first.peer && second.peer && first.name != second.name
    ensures var edges := [first, second];
            DistinctNames(edges) && Resolve(edges, HopTo(second)) == Some(first)
                && Resolve(edges, HopTo(first)) == Some(first)
  {
  }

  /** Nothing was dropped, refused or abandoned in a step. */
  predicate Clean(r: Router, e: Effect) {
    e.ok && e.router.dropped == r.dropped && forall o :: o in e.outs ==> o.cause != Refusal
  }

  lemma RejectIsNotClean(r: Router, f: Frame, reason: bytes, up: set<bytes>)
    ensures !Clean(r, Reject(r, f, reason, up))
  {
    hide Text, Encodable, EncodedSize;
    if !Quiet(f.kind) {
      var g := Response(f, RouteError, reason);
      var e := Route(r, g, Refusal, up);
      RouteQuietShape(r, g, Refusal, up);
      if e.outs != [] { assert e.outs[0] in e.outs; }
    }
  }

  lemma RouteQuietShape(r: Router, f: Frame, cause: Cause, up: set<bytes>)
    requires Quiet(f.kind)
    ensures var e := Route(r, f, cause, up);
            !e.ok || e.router.dropped == r.dropped + 1 || (e.outs != [] && e.outs[0].cause == cause)
  {
    hide Text, Encodable, EncodedSize, Reject;
    RejectQuiet(r, f, Text("target_not_found"), up);
    RejectQuiet(r, f, Text("hop_limit"), up);
    if f.destination != [] && f.remaining > 1 { RejectQuiet(r, Popped(f), Text("path_mtu_exceeded"), up); }
  }

  /** A clean routing of a frame with a destination sends it on. */
  lemma CleanRouteSends(r: Router, f: Frame, cause: Cause, up: set<bytes>)
    requires Clean(r, Route(r, f, cause, up)) && f.destination != []
    ensures f.remaining > 1 && Resolve(r.edges, f.destination[0]).Some?
    ensures Route(r, f, cause, up).outs == [Sent(Resolve(r.edges, f.destination[0]).value.name, Popped(f), cause)]
  {
    hide Text, Encodable, EncodedSize, Reject;
    RejectIsNotClean(r, f, Text("target_not_found"), up);
    RejectIsNotClean(r, f, Text("hop_limit"), up);
    if f.remaining > 1 { RejectIsNotClean(r, Popped(f), Text("path_mtu_exceeded"), up); }
  }

  predicate SpreadThrough(f: Frame, e: Edge, o: Out) {
    f.remaining > 1 && o == Sent(e.name, Popped(Branch(f, e)), Spread)
  }

  lemma CleanSpreadOne(r: Router, f: Frame, e: Edge, up: set<bytes>)
    requires Clean(r, SpreadOne(r, f, e, up)) && Resolve(r.edges, HopTo(e)) == Some(e)
    ensures exists o :: o in SpreadOne(r, f, e, up).outs && SpreadThrough(f, e, o)
  {
    hide Text, Encodable, EncodedSize, Reject, Route, Trace;
    RejectIsNotClean(r, f, Text("discovery_path_limit"), up);
    CleanRouteSends(r, Branch(f, e), Spread, up);
    assert SpreadThrough(f, e, SpreadOne(r, f, e, up).outs[0]);
  }

  /** A clean fan-out puts the request on every connection but the ingress. */
  lemma {:induction false} CleanFanOut(r: Router, f: Frame, ingress: bytes, edges: seq<Edge>, up: set<bytes>)
    requires Clean(r, FanOut(r, f, ingress, edges, up))
    requires forall e :: e in edges ==> Resolve(r.edges, HopTo(e)) == Some(e)
    ensures forall e :: e in edges && e.name != ingress ==>
              exists o :: o in FanOut(r, f, ingress, edges, up).outs && SpreadThrough(f, e, o)
    decreases |edges|
  {
    hide SpreadOne, SpreadThrough, Resolve, SpreadOut;
    if edges != [] {
      var all := FanOut(r, f, ingress, edges, up);
      if edges[0].name == ingress {
        CleanFanOut(r, f, ingress, edges[1..], up);
      } else {
        var one := SpreadOne(r, f, edges[0], up);
        SpreadOneFacts(r, f, edges[0], up);
        DropsGrow(r, f, edges[0], ingress, edges[1..], up);
        var rest := FanOut(one.router, f, ingress, edges[1..], up);
        assert Clean(r, one) && Clean(one.router, rest) by {
          assert forall o :: o in one.outs || o in rest.outs ==> o in all.outs;
        }
        CleanSpreadOne(r, f, edges[0], up);
        CleanFanOut(one.router, f, ingress, edges[1..], up);
      }
      forall e | e in edges && e.name != ingress
        ensures exists o :: o in all.outs && SpreadThrough(f, e, o)
      {
        if e == edges[0] {
          var o :| o in SpreadOne(r, f, e, up).outs && SpreadThrough(f, e, o);
          assert o in all.outs;
        } else {
          assert e in edges[1..];
        }
      }
    }
  }

  lemma {:induction false} FanOutDropsGrow(r: Router, f: Frame, ingress: bytes, edges: seq<Edge>, up: set<bytes>)
    ensures FanOut(r, f, ingress, edges, up).router.dropped >= r.dropped
    decreases |edges|
  {
    hide SpreadOne;
    if edges != [] {
      if edges[0].name == ingress {
        FanOutDropsGrow(r, f, ingress, edges[1..], up);
      } else {
        SpreadOneDropsGrow(r, f, edges[0], up);
        FanOutDropsGrow(SpreadOne(r, f, edges[0], up).router, f, ingress, edges[1..], up);
      }
    }
  }

  lemma SpreadOneDropsGrow(r: Router, f: Frame, e: Edge, up: set<bytes>)
    ensures SpreadOne(r, f, e, up).router.dropped >= r.dropped
  {
    hide Route, Reject, Text, Trace, RoutedOut;
    RouteFacts(r, Branch(f, e), Spread, up);
    RejectFacts(r, f, Text("discovery_path_limit"), up);
  }

  lemma DropsGrow(r: Router, f: Frame, e: Edge, ingress: bytes, rest: seq<Edge>, up: set<bytes>)
    ensures var one := SpreadOne(r, f, e, up).router;
            one.dropped >= r.dropped && FanOut(one, f, ingress, rest, up).router.dropped >= one.dropped
  {
    hide SpreadOne, FanOut;
    SpreadOneDropsGrow(r, f, e, up);
    FanOutDropsGrow(SpreadOne(r, f, e, up).router, f, ingress, rest, up);
  }

  /** A clean unauthenticated flood step at a router that has not seen the request:
      it remembers it and puts it on every connection but the ingress. */
  lemma CleanFlood(r: Router, f: Frame, ingress: bytes, env: Env)
    requires KeyOf(f) !in r.seen && Clean(r, Flood(r, f, ingress, None, env))
    requires DistinctNames(r.edges) && OnePeer(r.edges)
    ensures var e := Flood(r, f, ingress, None, env);
            && Claimed(r, e, f, env.now)
            && forall edge :: edge in r.edges && edge.name != ingress ==>
              exists o :: o in e.outs && SpreadThrough(f, edge, o)
  {
    hide Route, FanOut, AnswerTo, Reject, Text, SelfDescription, RoutedOut, SpreadThrough, Resolve;
    RejectIsNotClean(r, f, Text("discovery_busy"), env.up);
    ClaimFacts(r, f, ingress, None, env);
    var claimed := r.(seen := r.seen[KeyOf(f) := env.now + SEEN_LIFE]);
    AnswerToFacts(claimed, f, Found, None, env);
    var a := AnswerTo(claimed, f, Found, None, env);
    RouteFacts(a.0, a.1, Cause.Answer, env.up);
    var answered := Route(a.0, a.1, Cause.Answer, env.up);
    var all := Flood(r, f, ingress, None, env);
    var rest := FanOut(answered.router, f, ingress, answered.router.edges, env.up);
    FanOutDropsGrow(answered.router, f, ingress, answered.router.edges, env.up);
    assert Clean(answered.router, rest) by {
      assert forall o :: o in rest.outs ==> o in all.outs;
    }
    AimsAreExactIffOnePeer(r.edges);
    CleanFanOut(answered.router, f, ingress, answered.router.edges, env.up);
    forall edge | edge in r.edges && edge.name != ingress
      ensures exists o :: o in all.outs && SpreadThrough(f, edge, o)
    {
      var o :| o in rest.outs && SpreadThrough(f, edge, o);
      assert o in all.outs;
    }
  }
}
