/** Every run of the network without new local activity and without duplication comes to
    rest: hop budgets, single refusals and reset budgets of answers together bound the
    number of deliveries that any set of frames in flight can cause
    (src/control_router.hpp). Challenged and proved discoveries are included. */
module NetworkTermination {
  import opened Bytes
  import opened ControlRoute
  import opened ControlRouter
  import opened RouterFacts
  import opened DiscoveryRuns
  import opened DiscoveryAuth
  import opened RouterNetwork
  import opened FloodCoverage
  import A = ControlAuth

  // ---------------------------------------------------------------- weights

  function Times(n: nat, x: nat): nat {
    if n == 0 then 0 else x + Times(n - 1, x)
  }

  lemma {:induction false} TimesGrows(m: nat, n: nat, x: nat)
    requires m <= n
    ensures Times(m, x) <= Times(n, x)
  {
    if m < n { TimesGrows(m, n - 1, x); }
  }

  /** The weight of an answer or a refusal when it leaves. */
  const REPLY := 16

  /** A discovery with `m` hops left, in a network with at most `b` edges per router. */
  function Spreadable(b: nat, m: nat): (w: nat)
    ensures w > REPLY
  {
    if m == 0 then REPLY + 1 + Times(b, REPLY + 1)
      else REPLY + 1 + Spreadable(b, m - 1) + Times(b, Spreadable(b, m - 1))
  }

  lemma {:induction false} SpreadableGrows(b: nat, m: nat, n: nat)
    requires m <= n
    ensures Spreadable(b, m) <= Spreadable(b, n)
  {
    if m < n { SpreadableGrows(b, m, n - 1); }
  }

  /** An upper bound on the deliveries that a frame in flight can lead to. */
  function Weight(b: nat, f: Frame): nat {
    if Quiet(f.kind) then f.remaining + 1
    else if !f.kind.Discover? then REPLY + 1 + f.remaining
    else if f.auth == [] then Spreadable(b, f.remaining)
    else Spreadable(b, MAX_HOPS) + 1 + f.remaining
  }

  function Total(b: nat, flight: seq<Packet>): nat {
    if flight == [] then 0 else Weight(b, flight[0].frame) + Total(b, flight[1..])
  }

  function OutWeight(b: nat, o: Out): nat {
    if o.Sent? then Weight(b, o.frame) else 0
  }

  function OutTotal(b: nat, outs: seq<Out>): nat {
    if outs == [] then 0 else OutWeight(b, outs[0]) + OutTotal(b, outs[1..])
  }

  lemma {:induction false} TotalConcat(b: nat, x: seq<Packet>, y: seq<Packet>)
    ensures Total(b, x + y) == Total(b, x) + Total(b, y)
  {
    if x == [] {
      assert x + y == y;
    } else {
      assert (x + y)[1..] == x[1..] + y;
      TotalConcat(b, x[1..], y);
    }
  }

  lemma TotalWithout(b: nat, flight: seq<Packet>, i: nat)
    requires i < |flight|
    ensures Total(b, flight) == Total(b, Without(flight, i)) + Weight(b, flight[i].frame)
  {
    assert flight == flight[..i] + flight[i..];
    assert flight[i..][1..] == flight[i + 1..];
    TotalConcat(b, flight[..i], flight[i..]);
    TotalConcat(b, flight[..i], flight[i + 1..]);
  }

  lemma {:induction false} TotalPackets(b: nat, node: Node, outs: seq<Out>)
    ensures Total(b, Packets(node, outs)) == OutTotal(b, outs)
  {
    hide Weight;
    if outs != [] {
      TotalPackets(b, node, outs[1..]);
      if outs[0].Sent? {
        TotalConcat(b, [Packet(End(node, outs[0].edge), outs[0].frame)], Packets(node, outs[1..]));
      } else {
        assert Packets(node, outs) == Packets(node, outs[1..]);
      }
    }
  }

  lemma {:induction false} OutTotalConcat(b: nat, x: seq<Out>, y: seq<Out>)
    ensures OutTotal(b, x + y) == OutTotal(b, x) + OutTotal(b, y)
  {
    hide OutWeight;
    if x == [] {
      assert x + y == y;
    } else {
      assert (x + y)[1..] == x[1..] + y;
      OutTotalConcat(b, x[1..], y);
    }
  }

  // ---------------------------------------------------------------- emissions are lighter

  predicate Light(outs: seq<Out>) {
    forall o :: o in outs && o.Sent? ==> o.frame.remaining <= MAX_HOPS
  }

  lemma RejectWeighs(b: nat, r: Router, f: Frame, reason: bytes, up: set<bytes>)
    ensures var e := Reject(r, f, reason, up);
            OutTotal(b, e.outs) <= REPLY && Light(e.outs) && (Quiet(f.kind) ==> e.outs == [])
  {
    hide Encodable, Route;
    if !Quiet(f.kind) {
      QuietWeighs(b, r, Response(f, RouteError, reason), Refusal, up);
    }
  }

  lemma QuietWeighs(b: nat, r: Router, f: Frame, cause: Cause, up: set<bytes>)
    requires Quiet(f.kind)
    ensures var e := Route(r, f, cause, up); OutTotal(b, e.outs) <= f.remaining && Light(e.outs)
  {
    hide Encodable, EncodedSize, Text, Reject;
    RejectQuiet(r, f, Text("target_not_found"), up);
    RejectQuiet(r, f, Text("hop_limit"), up);
    if f.destination != [] && f.remaining > 1 {
      RejectQuiet(r, Popped(f), Text("path_mtu_exceeded"), up);
      assert Encodable(Popped(f)) ==> f.remaining - 1 <= MAX_HOPS by { Budget(Popped(f)); }
    }
  }

  lemma Budget(f: Frame)
    ensures Encodable(f) ==> 1 <= f.remaining <= MAX_HOPS
  {
  }

  /** Routing emits less than the frame it routes. */
  lemma RouteWeighs(b: nat, r: Router, f: Frame, cause: Cause, up: set<bytes>)
    ensures var e := Route(r, f, cause, up); OutTotal(b, e.outs) < Weight(b, f) && Light(e.outs)
    ensures f.remaining <= 1 && !Quiet(f.kind) ==> OutTotal(b, Route(r, f, cause, up).outs) <= REPLY
  {
    hide Encodable, EncodedSize, Text, Reject, Spreadable;
    if Quiet(f.kind) {
      QuietWeighs(b, r, f, cause, up);
    } else {
      SpreadableAbove(b, f.remaining);
      RejectWeighs(b, r, f, Text("target_not_found"), up);
      RejectWeighs(b, r, f, Text("hop_limit"), up);
      if f.destination != [] && f.remaining > 1 {
        RejectWeighs(b, r, Popped(f), Text("path_mtu_exceeded"), up);
        Budget(Popped(f));
        SingleOut(b, Resolve(r.edges, f.destination[0]), Popped(f), cause);
      }
    }
  }

  lemma SpreadableAbove(b: nat, m: nat)
    ensures Spreadable(b, m) > REPLY && (m > 0 ==> Spreadable(b, m) > Spreadable(b, m - 1))
  {
  }

  lemma SingleOut(b: nat, e: Option<Edge>, f: Frame, cause: Cause)
    ensures e.Some? ==> OutTotal(b, [Sent(e.value.name, f, cause)]) == Weight(b, f)
  {
  }

  /** What one branch of a fan-out weighs at most. */
  function BranchWeight(b: nat, m: nat): nat {
    if m <= 1 then REPLY + 1 else Spreadable(b, m - 1)
  }

  lemma SpreadOneWeighs(b: nat, r: Router, f: Frame, e: Edge, up: set<bytes>)
    requires f.kind.Discover?
    ensures var eff := SpreadOne(r, f, e, up); OutTotal(b, eff.outs) <= BranchWeight(b, f.remaining) && Light(eff.outs)
  {
    hide Encodable, EncodedSize, Text, Reject, Trace, Spreadable;
    RejectWeighs(b, r, f, Text("discovery_path_limit"), up);
    var next := Branch(f, e);
    if f.remaining > 1 { SpreadableAbove(b, f.remaining - 1); }
    RejectWeighs(b, r, next, Text("target_not_found"), up);
    RejectWeighs(b, r, next, Text("hop_limit"), up);
    if next.remaining > 1 {
      RejectWeighs(b, r, Popped(next), Text("path_mtu_exceeded"), up);
      Budget(Popped(next));
      SingleOut(b, Resolve(r.edges, next.destination[0]), Popped(next), Spread);
    }
  }

  lemma {:induction false} FanOutWeighs(b: nat, r: Router, f: Frame, ingress: bytes, edges: seq<Edge>, up: set<bytes>)
    requires f.kind.Discover?
    ensures var e := FanOut(r, f, ingress, edges, up);
            OutTotal(b, e.outs) <= Times(|edges|, BranchWeight(b, f.remaining)) && Light(e.outs)
    decreases |edges|
  {
    hide SpreadOne, BranchWeight, OutWeight;
    if edges != [] {
      if edges[0].name == ingress {
        FanOutWeighs(b, r, f, ingress, edges[1..], up);
      } else {
        SpreadOneWeighs(b, r, f, edges[0], up);
        var one := SpreadOne(r, f, edges[0], up);
        FanOutWeighs(b, one.router, f, ingress, edges[1..], up);
        OutTotalConcat(b, one.outs, FanOut(one.router, f, ingress, edges[1..], up).outs);
      }
    }
  }

  lemma ReplyWeighs(b: nat, r: Router, f: Frame, cause: Cause, up: set<bytes>)
    requires Quiet(f.kind) && f.remaining == MAX_HOPS
    ensures var e := Route(r, f, cause, up); OutTotal(b, e.outs) <= REPLY && Light(e.outs)
  {
    hide Route;
    QuietWeighs(b, r, f, cause, up);
  }

  /** A flood step, its answer and all its branches, emits less than the request. */
  lemma FloodWeighs(b: nat, r: Router, f: Frame, ingress: bytes, session: Option<Key>, env: Env)
    requires f.kind.Discover? && |r.edges| <= b
    ensures var e := Flood(r, f, ingress, session, env);
            OutTotal(b, e.outs) < Spreadable(b, f.remaining) && Light(e.outs)
  {
    hide Flood, Reject, Text, Spreadable;
    SpreadableAbove(b, f.remaining);
    if KeyOf(f) in r.seen {
      RepeatWeighs(b, r, f, ingress, session, env);
    } else if |r.seen| >= SEEN_LIMIT {
      RejectWeighs(b, r, f, Text("discovery_busy"), env.up);
      BusyFlood(r, f, ingress, session, env);
    } else {
      ClaimWeighs(b, r, f, ingress, session, env);
    }
  }

  lemma BusyFlood(r: Router, f: Frame, ingress: bytes, session: Option<Key>, env: Env)
    requires KeyOf(f) !in r.seen && |r.seen| >= SEEN_LIMIT
    ensures Flood(r, f, ingress, session, env) == Reject(r, f, Text("discovery_busy"), env.up)
  {
    hide Reject, Text, AnswerTo, Route, FanOut;
  }

  lemma RepeatWeighs(b: nat, r: Router, f: Frame, ingress: bytes, session: Option<Key>, env: Env)
    requires KeyOf(f) in r.seen
    ensures var e := Flood(r, f, ingress, session, env); OutTotal(b, e.outs) <= REPLY && Light(e.outs)
  {
    hide AnswerTo, Route, FanOut, Reject, Text, SelfDescription, Quota, SameParked;
    var counted := r.(alternatives := r.alternatives[KeyOf(f) := Quota(r, KeyOf(f), env.now)]);
    AnswerToFacts(counted, f, AltPath, session, env);
    var a := AnswerTo(counted, f, AltPath, session, env);
    ReplyWeighs(b, a.0, a.1, Cause.Answer, env.up);
  }

  lemma ClaimWeighs(b: nat, r: Router, f: Frame, ingress: bytes, session: Option<Key>, env: Env)
    requires f.kind.Discover? && |r.edges| <= b && KeyOf(f) !in r.seen && |r.seen| < SEEN_LIMIT
    ensures var e := Flood(r, f, ingress, session, env);
            OutTotal(b, e.outs) < Spreadable(b, f.remaining) && Light(e.outs)
  {
    hide AnswerTo, Route, FanOut, Reject, Text, SelfDescription, RoutedOut, SameParked, Spreadable, BranchWeight;
    var claimed := r.(seen := r.seen[KeyOf(f) := env.now + SEEN_LIFE]);
    SpreadableAbove(b, f.remaining);
    AnswerToFacts(claimed, f, Found, session, env);
    var a := AnswerTo(claimed, f, Found, session, env);
    ReplyWeighs(b, a.0, a.1, Cause.Answer, env.up);
    var answered := Route(a.0, a.1, Cause.Answer, env.up);
    RouteFacts(a.0, a.1, Cause.Answer, env.up);
    var edges := answered.router.edges;
    FanOutWeighs(b, answered.router, f, ingress, edges, env.up);
    OutTotalConcat(b, answered.outs, FanOut(answered.router, f, ingress, edges, env.up).outs);
    BranchesFit(b, |edges|, f.remaining);
  }

  lemma BranchesFit(b: nat, n: nat, m: nat)
    requires n <= b
    ensures REPLY + Times(n, BranchWeight(b, m)) < Spreadable(b, m)
  {
    TimesGrows(n, b, BranchWeight(b, m));
    if m == 1 { SpreadableGrows(b, 0, 1); TimesMono(b, REPLY + 1, Spreadable(b, 0)); }
  }

  lemma {:induction false} TimesMono(n: nat, x: nat, y: nat)
    requires x <= y
    ensures Times(n, x) <= Times(n, y)
  {
    if n > 0 { TimesMono(n - 1, x, y); }
  }

  // ---------------------------------------------------------------- one arrival

  /** Bounds that every run keeps: edges per router, hop budgets of parked requests. */
  ghost predicate Bounded(b: nat, r: Router) {
    |r.edges| <= b && forall n :: n in r.parkedIn ==>
      r.parkedIn[n].request.remaining <= MAX_HOPS && r.parkedIn[n].request.kind.Discover?
  }

  lemma ArrivalWeighs(b: nat, r: Router, ingress: bytes, f: Frame, env: Env)
    requires Bounded(b, r)
    ensures var e := Receive(r, ingress, f, env); OutTotal(b, e.outs) < Weight(b, f) && Light(e.outs)
  {
    hide Route, Reject, Text, Flood, Prove, DemandProof, Spreadable, SameShape;
    RejectWeighs(b, r, f, Text("reply_path_limit"), env.up);
    SpreadableAbove(b, f.remaining);
    SpreadableAbove(b, MAX_HOPS);
    if Admitted(r, ingress, f) {
      var h := Handled(r, ingress, f, env);
      HandledBounded(b, r, ingress, f, env);
      if !(f.kind.Discover? && f.destination == []) {
        RouteWeighs(b, h.0, h.1, Relay, env.up);
      } else if f.auth != [] {
        ProveWeighs(b, h.0, h.1, env);
      } else if h.0.required {
        DemandWeighs(b, h.0, h.1, ingress, env);
      } else {
        FloodWeighs(b, h.0, h.1, ingress, None, env);
      }
    }
  }

  lemma HandledBounded(b: nat, r: Router, ingress: bytes, f: Frame, env: Env)
    requires Bounded(b, r) && Admitted(r, ingress, f)
    ensures var h := Handled(r, ingress, f, env);
            Bounded(b, h.0) && Weight(b, h.1) == Weight(b, f) && h.1.remaining == f.remaining && h.1.kind == f.kind
            && h.1.auth == f.auth && h.1.destination == f.destination
  {
    hide Spreadable;
  }

  lemma DemandWeighs(b: nat, r: Router, f: Frame, ingress: bytes, env: Env)
    ensures var e := DemandProof(r, f, ingress, env); OutTotal(b, e.outs) <= REPLY && Light(e.outs)
  {
    hide Route, A.IssueChallenge, A.DecodeChallenge;
    var paced := Paced(r, env.now);
    var counted := paced.(challenges := paced.challenges + 1);
    var issued := A.IssueChallenge(env.crypto, A.Initial(counted.authConfig, f.origin), f.request, READ_CAPABILITY,
                                   env.now, env.entropy);
    var c := A.DecodeChallenge(issued.1);
    if c.Some? {
      var held := Parked(issued.0, f, ingress, env.now + SEEN_LIFE);
      var parked := counted.(parkedIn := counted.parkedIn[c.value.n := held]);
      ReplyWeighs(b, parked, Response(f, Kind.Challenge, issued.1), Demand, env.up);
    }
  }

  lemma ProveWeighs(b: nat, r: Router, f: Frame, env: Env)
    requires Bounded(b, r)
    ensures var e := Prove(r, f, env); OutTotal(b, e.outs) < Spreadable(b, MAX_HOPS) && Light(e.outs)
  {
    hide Flood, Canonical, A.Verify, Spreadable;
    SpreadableAbove(b, MAX_HOPS);
    if ProvesFor(r, f, env) {
      var n := Addressed(r, f).value;
      var original := r.parkedIn[n].request;
      FloodWeighs(b, Checked(r, f, n, Canonical(f).value, env).0, original, r.parkedIn[n].ingress, Some(n), env);
      SpreadableGrows(b, original.remaining, MAX_HOPS);
    }
  }

  // ---------------------------------------------------------------- runs

  ghost predicate BoundedNet(b: nat, net: Net) {
    && (forall n :: n in net.routers ==> Bounded(b, net.routers[n]))
    && (forall p :: p in net.flight ==> p.frame.remaining <= MAX_HOPS)
  }

  lemma StepBounded(b: nat, r: Router, input: Input)
    requires Bounded(b, r) && !input.Attach? && (input.Arrive? ==> input.frame.remaining <= MAX_HOPS)
    requires |Step(r, input).router.edges| == |r.edges|
    ensures Bounded(b, Step(r, input).router)
  {
    hide Step;
    StepParks(r, input);
    var after := Step(r, input).router.parkedIn;
    forall n | n in after ensures after[n].request.remaining <= MAX_HOPS && after[n].request.kind.Discover? {
      if ParkedBy(r, input, after[n]) {
        HandledFields(r, input.ingress, input.frame, input.env);
      }
    }
  }

  lemma HandledFields(r: Router, ingress: bytes, f: Frame, env: Env)
    requires Admitted(r, ingress, f)
    ensures var h := Handled(r, ingress, f, env).1; h.remaining == f.remaining && h.kind == f.kind
  {
  }

  /** Moves that neither duplicate nor add anything. */
  predicate Consuming(m: Move) {
    m.Lose? || (m.Deliver? && !m.keep)
  }

  lemma ConsumingMove(b: nat, net: Net, m: Move)
    requires BoundedNet(b, net) && Possible(net, m) && Consuming(m)
    ensures BoundedNet(b, Apply(net, m)) && Total(b, Apply(net, m).flight) < Total(b, net.flight)
  {
    hide Receive, Weight, Bounded, Total, OutTotal;
    TotalWithout(b, net.flight, m.i);
    assert Total(b, Apply(net, m).flight) < Total(b, net.flight) by {
      if m.Lose? {
        Heavy(b, net.flight[m.i].frame);
      } else {
        var p := net.flight[m.i];
        var node := net.wires[p.at].node;
        ArrivalWeighs(b, net.routers[node], net.wires[p.at].edge, p.frame, m.env);
        TotalPackets(b, node, ArrivalStep(net, p, m.env).outs);
        TotalConcat(b, Without(net.flight, m.i), Packets(node, ArrivalStep(net, p, m.env).outs));
      }
    }
    MoveBounded(b, net, m);
  }

  lemma Heavy(b: nat, f: Frame)
    ensures Weight(b, f) > 0
  {
  }

  lemma MoveBounded(b: nat, net: Net, m: Move)
    requires BoundedNet(b, net) && Possible(net, m) && Consuming(m)
    ensures BoundedNet(b, Apply(net, m))
  {
    hide Receive, Weight, Bounded, Total, OutTotal;
    if m.Deliver? {
      var p := net.flight[m.i];
      assert p in net.flight;
      var at := net.wires[p.at];
      var r := net.routers[at.node];
      assert |Receive(r, at.edge, p.frame, m.env).router.edges| == |r.edges| by {
        ArrivalConcerns(r, at.edge, p.frame, m.env);
      }
      StepBounded(b, r, Arrive(at.edge, p.frame, m.env));
      ArrivalWeighs(b, r, at.edge, p.frame, m.env);
      PacketsOf(at.node, ArrivalStep(net, p, m.env).outs);
    }
  }

  /** Quiescence. Deliver and lose frames in any order, with any surroundings: the run
      has no more moves than the frames in flight weigh at its start. */
  lemma {:induction false} RunsAreFinite(b: nat, net: Net, moves: seq<Move>)
    requires BoundedNet(b, net) && Runs(net, moves) && forall m :: m in moves ==> Consuming(m)
    ensures |moves| <= Total(b, net.flight)
    decreases |moves|
  {
    hide Apply, BoundedNet, Total;
    if moves != [] {
      ConsumingMove(b, net, moves[0]);
      RunsAreFinite(b, Apply(net, moves[0]), moves[1..]);
    }
  }
}
