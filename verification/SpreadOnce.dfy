/** What a single step of a router spreads (src/control_router.hpp): one FOUND at most, and
    of a flood one frame at most for each entry of the table of connections. */
module SpreadOnce {
  import opened Bytes
  import opened ControlRoute
  import opened ControlRouter
  import opened RouterFacts
  import opened DiscoveryRuns
  import opened RouterNetwork
  import opened EdgeTable
  import A = ControlAuth

  /** The hop of the i-th entry leads to the connection `name`. */
  predicate Aims(edges: seq<Edge>, i: nat, name: bytes) {
    i < |edges| && Resolve(edges, HopTo(edges[i])).Some? && Resolve(edges, HopTo(edges[i])).value.name == name
  }

  /** `p` says which entry each spread frame stems from: later frames from later entries. */
  ghost predicate Placed(edges: seq<Edge>, outs: seq<Out>, p: seq<nat>) {
    && |p| == |outs|
    && (forall a :: 0 <= a < |outs| && outs[a].cause == Spread ==> outs[a].Sent? && Aims(edges, p[a], outs[a].edge))
    && (forall a, b :: 0 <= a < b < |outs| && outs[a].cause == Spread && outs[b].cause == Spread ==> p[a] < p[b])
  }

  /** The same connections, but for their tokens and limits. */
  predicate SameNames(a: seq<Edge>, b: seq<Edge>) {
    |a| == |b| && forall i :: 0 <= i < |a| ==> a[i].name == b[i].name && a[i].peer == b[i].peer
  }

  /** A step that spreads at most one frame for each entry, in table order. */
  ghost predicate SpreadsOnce(edges: seq<Edge>, e: Effect) {
    SameNames(edges, e.router.edges) && exists p :: Placed(e.router.edges, e.outs, p)
  }

  // ---------------------------------------------------------------- steps that spread nothing

  lemma NothingSpread(edges: seq<Edge>, e: Effect)
    requires SameNames(edges, e.router.edges) && forall o :: o in e.outs ==> o.cause != Spread
    ensures SpreadsOnce(edges, e)
  {
    var p := seq(|e.outs|, i => 0);
    forall a | 0 <= a < |e.outs| ensures e.outs[a].cause != Spread { assert e.outs[a] in e.outs; }
    assert Placed(e.router.edges, e.outs, p);
  }

  lemma RouteOnce(edges: seq<Edge>, r: Router, f: Frame, cause: Cause, up: set<bytes>)
    requires SameNames(edges, r.edges) && cause != Spread
    ensures SpreadsOnce(edges, Route(r, f, cause, up))
  {
    hide Route, Encodable, Resolve, SpreadsOnce;
    RouteFacts(r, f, cause, up);
    NothingSpread(edges, Route(r, f, cause, up));
  }

  lemma RejectOnce(edges: seq<Edge>, r: Router, f: Frame, reason: bytes, up: set<bytes>)
    requires SameNames(edges, r.edges)
    ensures SpreadsOnce(edges, Reject(r, f, reason, up))
  {
    hide Reject, SpreadsOnce;
    RejectFacts(r, f, reason, up);
    NothingSpread(edges, Reject(r, f, reason, up));
  }

  // ---------------------------------------------------------------- the fan-out

  lemma {:induction false} FanOutPlaced(r: Router, f: Frame, ingress: bytes, k: nat, up: set<bytes>)
    returns (p: seq<nat>)
    requires k <= |r.edges|
    ensures var e := FanOut(r, f, ingress, r.edges[k..], up);
            e.router.edges == r.edges && Placed(r.edges, e.outs, p) && forall a :: 0 <= a < |p| ==> p[a] >= k
    decreases |r.edges| - k
  {
    hide SpreadOne, Resolve, Aims;
    var edges := r.edges[k..];
    p := [];
    if k < |r.edges| {
      assert edges[0] == r.edges[k] && edges[1..] == r.edges[k + 1..];
      if r.edges[k].name == ingress {
        p := FanOutPlaced(r, f, ingress, k + 1, up);
      } else {
        var one := SpreadOne(r, f, r.edges[k], up);
        OneAims(r, f, k, up);
        p := seq(|one.outs|, i => k);
        if one.ok {
          var rest := FanOutPlaced(one.router, f, ingress, k + 1, up);
          ThenPlaced(r.edges, one.outs, FanOut(one.router, f, ingress, r.edges[k + 1..], up).outs, k, rest);
          p := p + rest;
        }
      }
    }
  }

  lemma ThenPlaced(edges: seq<Edge>, one: seq<Out>, outs: seq<Out>, k: nat, p: seq<nat>)
    requires |one| <= 1 && Placed(edges, outs, p) && forall a :: 0 <= a < |p| ==> p[a] > k
    requires forall a :: 0 <= a < |one| && one[a].cause == Spread ==> one[a].Sent? && Aims(edges, k, one[a].edge)
    ensures Placed(edges, one + outs, seq(|one|, i => k) + p)
  {
    hide Aims;
  }

  lemma OneAims(r: Router, f: Frame, k: nat, up: set<bytes>)
    requires k < |r.edges|
    ensures var one := SpreadOne(r, f, r.edges[k], up);
            && one.router.edges == r.edges && |one.outs| <= 1
            && forall a :: 0 <= a < |one.outs| && one.outs[a].cause == Spread ==>
              one.outs[a].Sent? && Aims(r.edges, k, one.outs[a].edge)
  {
    hide SpreadOne, Resolve, Encodable;
    SpreadOneFacts(r, f, r.edges[k], up);
  }

  lemma FloodOnce(edges: seq<Edge>, r: Router, f: Frame, ingress: bytes, session: Option<Key>, env: Env)
    requires SameNames(edges, r.edges)
    ensures SpreadsOnce(edges, Flood(r, f, ingress, session, env))
  {
    hide AnswerTo, Route, Reject, FanOut, Text, Quota, SelfDescription, RoutedOut, SpreadsOnce, SameParked;
    var key := KeyOf(f);
    if key in r.seen {
      var counted := r.(alternatives := r.alternatives[key := Quota(r, key, env.now)]);
      AnswerToFacts(counted, f, AltPath, session, env);
      var a := AnswerTo(counted, f, AltPath, session, env);
      RouteOnce(edges, a.0, a.1, Cause.Answer, env.up);
      NothingSpread(edges, Effect(a.0, [], false));
      NothingSpread(edges, Drop(counted));
    } else if |r.seen| >= SEEN_LIMIT {
      RejectOnce(edges, r, f, Text("discovery_busy"), env.up);
    } else {
      ClaimOnce(edges, r, f, ingress, session, env);
    }
  }

  lemma ClaimOnce(edges: seq<Edge>, r: Router, f: Frame, ingress: bytes, session: Option<Key>, env: Env)
    requires SameNames(edges, r.edges) && KeyOf(f) !in r.seen && |r.seen| < SEEN_LIMIT
    ensures SpreadsOnce(edges, Flood(r, f, ingress, session, env))
  {
    hide AnswerTo, Route, FanOut, SelfDescription, Aims, Encodable, Resolve, SameParked, SpreadsOnce;
    var claimed := r.(seen := r.seen[KeyOf(f) := env.now + SEEN_LIFE]);
    AnswerToFacts(claimed, f, Found, session, env);
    var a := AnswerTo(claimed, f, Found, session, env);
    RouteFacts(a.0, a.1, Cause.Answer, env.up);
    RouteOnce(edges, a.0, a.1, Cause.Answer, env.up);
    NothingSpread(edges, Effect(a.0, [], false));
    var answered := Route(a.0, a.1, Cause.Answer, env.up);
    if a.2 && answered.ok {
      var p := FanOutPlaced(answered.router, f, ingress, 0, env.up);
      assert answered.router.edges[0..] == answered.router.edges;
      var rest := FanOut(answered.router, f, ingress, answered.router.edges, env.up);
      var all := Effect(rest.router, answered.outs + rest.outs, rest.ok);
      AnswerThenFanOut(edges, r.edges, answered.outs, rest, p);
      assert Flood(r, f, ingress, session, env) == all;
    }
  }

  lemma AnswerThenFanOut(edges: seq<Edge>, table: seq<Edge>, first: seq<Out>, rest: Effect, p: seq<nat>)
    requires SameNames(edges, table) && rest.router.edges == table && Placed(table, rest.outs, p)
    requires forall o :: o in first ==> o.cause != Spread
    ensures SpreadsOnce(edges, Effect(rest.router, first + rest.outs, rest.ok))
  {
    hide Aims, SameNames;
    var outs, q := first + rest.outs, seq(|first|, i => 0) + p;
    forall a | 0 <= a < |first| ensures outs[a].cause != Spread { assert first[a] in first; }
    assert Placed(table, outs, q);
  }

  // ---------------------------------------------------------------- every step

  lemma RemoteOnce(edges: seq<Edge>, r: Router, f: Frame, ingress: bytes, env: Env)
    requires SameNames(edges, r.edges)
    ensures SpreadsOnce(edges, DiscoverRemote(r, f, ingress, env))
  {
    hide Flood, Route, Canonical, A.Verify, DemandProof, Prove, SpreadsOnce, SameNames;
    if !r.required && f.auth == [] {
      FloodOnce(edges, r, f, ingress, None, env);
    } else if f.auth == [] {
      DemandOnce(edges, r, f, ingress, env);
    } else {
      ProveOnce(edges, r, f, env);
    }
  }

  lemma DemandOnce(edges: seq<Edge>, r: Router, f: Frame, ingress: bytes, env: Env)
    requires SameNames(edges, r.edges)
    ensures SpreadsOnce(edges, DemandProof(r, f, ingress, env))
  {
    hide Route, A.IssueChallenge, A.DecodeChallenge, SpreadsOnce, SameNames;
    var paced := Paced(r, env.now);
    var base := paced.(challenges := paced.challenges + 1);
    NothingSpread(edges, Effect(paced, [], true));
    NothingSpread(edges, Effect(base, [], true));
    var issued := A.IssueChallenge(env.crypto, A.Initial(base.authConfig, f.origin), f.request, READ_CAPABILITY,
                                   env.now, env.entropy);
    var c := A.DecodeChallenge(issued.1);
    if c.Some? {
      var parked := base.(parkedIn := base.parkedIn[c.value.n := Parked(issued.0, f, ingress, env.now + SEEN_LIFE)]);
      RouteOnce(edges, parked, Response(f, Kind.Challenge, issued.1), Demand, env.up);
    }
  }

  lemma ProveOnce(edges: seq<Edge>, r: Router, f: Frame, env: Env)
    requires SameNames(edges, r.edges)
    ensures SpreadsOnce(edges, Prove(r, f, env))
  {
    hide Flood, Canonical, A.Verify, SpreadsOnce, SameNames;
    NothingSpread(edges, Effect(r, [], true));
    NothingSpread(edges, Effect(r, [], false));
    var n := Addressed(r, f);
    if n.Some? && Canonical(f).Some? {
      var checked := Checked(r, f, n.value, Canonical(f).value, env);
      NothingSpread(edges, Effect(checked.0, [], true));
      FloodOnce(edges, checked.0, r.parkedIn[n.value].request, r.parkedIn[n.value].ingress, n, env);
    }
  }

  lemma HandledNames(r: Router, ingress: bytes, f: Frame, env: Env)
    requires IndexOf(r.edges, ingress) < |r.edges|
    ensures SameNames(r.edges, Handled(r, ingress, f, env).0.edges)
  {
  }

  lemma ArrivalOnce(r: Router, ingress: bytes, f: Frame, env: Env)
    ensures SpreadsOnce(r.edges, Receive(r, ingress, f, env))
  {
    hide Route, Reject, Text, DiscoverRemote, SpreadsOnce;
    if Admitted(r, ingress, f) {
      var h := Handled(r, ingress, f, env);
      HandledNames(r, ingress, f, env);
      if f.kind.Discover? && f.destination == [] {
        RemoteOnce(r.edges, h.0, h.1, ingress, env);
      } else {
        RouteOnce(r.edges, h.0, h.1, Relay, env.up);
      }
    } else {
      RejectOnce(r.edges, r, f, Text("reply_path_limit"), env.up);
      NothingSpread(r.edges, Drop(r));
    }
  }

  lemma VouchOnce(r: Router, f: Frame, env: Env)
    ensures SpreadsOnce(r.edges, AnswerChallenge(r, f, env).0)
  {
    hide Route, Canonical, A.AcceptChallenge, A.Protect, A.DecodeChallenge, SpreadsOnce;
    var t := Tick(r, env.now);
    var e := AnswerChallenge(r, f, env);
    if e.1 {
      var c := A.DecodeChallenge(f.data).value;
      var accepted := A.AcceptChallenge(env.crypto, A.Initial(t.authConfig, f.origin), f.request, f.data, env.now);
      var bare := DiscoveryFrame(f.origin, f.request, f.command, f.replyPath);
      var signed := A.Protect(env.crypto, accepted.0, f.request, Canonical(bare).value, false);
      var proof := bare.(auth := signed.1);
      RouteOnce(r.edges, t.(parkedOut := t.parkedOut[c.n := Parked(signed.0, proof, [], env.now + SEEN_LIFE)]), proof,
                Proof, env.up);
    } else {
      NothingSpread(r.edges, e.0);
    }
  }

  lemma StepOnce(r: Router, input: Input)
    requires !input.Attach?
    ensures SpreadsOnce(r.edges, Step(r, input))
  {
    hide Route, Flood, Receive, AnswerChallenge, Canonical, A.VerifyReply, SpreadsOnce;
    match input {
      case Arrive(ingress, f, env) => ArrivalOnce(r, ingress, f, env);
      case Emit(f, env) => RouteOnce(r.edges, Tick(r, env.now), f, Relay, env.up);
      case Begin(request, env) =>
        NothingSpread(r.edges, Effect(r, [], false));
        FloodOnce(r.edges, Tick(r, env.now), DiscoveryFrame(r.instance, request, [], []), [], None, env);
      case Vouch(f, env) => VouchOnce(r, f, env);
      case Believe(f, env) => NothingSpread(r.edges, Effect(VerifyAnswer(r, f, env).0, [], true));
      case Clock(now) => NothingSpread(r.edges, Effect(Tick(r, now), [], true));
    }
  }

  lemma StepOrdered(r: Router, input: Input)
    requires Ordered(r.edges)
    ensures Ordered(Step(r, input).router.edges)
  {
    hide Step, Before;
    match input {
      case Attach(name, generation, peer, limit) => AttachOrdered(r, name, generation, peer, limit);
      case _ => StepOnce(r, input);
    }
  }

  lemma AttachOrdered(r: Router, name: bytes, generation: nat, peer: bool, limit: nat)
    requires Ordered(r.edges)
    ensures Ordered(Step(r, Attach(name, generation, peer, limit)).router.edges)
  {
    hide Ordered, SetEdge;
    SetEdgeIsExact(r, name, generation, peer, limit);
  }

  lemma {:induction false} RunOrdered(r: Router, inputs: seq<Input>)
    requires Ordered(r.edges)
    ensures Ordered(After(r, inputs).edges)
  {
    hide Ordered, Step;
    if inputs != [] {
      RunOrdered(r, inputs[..|inputs| - 1]);
      StepOrdered(After(r, inputs[..|inputs| - 1]), inputs[|inputs| - 1]);
    }
  }

  /** In every run, every step answers FOUND at most once and spreads at most one frame for
      each entry of the table, in order; with one peer entry at most, no two of them go out
      by the same connection. */
  lemma EveryStepSpreadsOnce(r: Router, inputs: seq<Input>, i: nat)
    requires Ordered(r.edges) && i < |inputs|
    ensures var outs, edges := OutsAt(r, inputs, i), After(r, inputs[..i + 1]).edges;
            && (forall a, b :: 0 <= a < b < |outs| ==> !(IsFoundAnswer(outs[a]) && IsFoundAnswer(outs[b])))
            && (exists p :: Placed(edges, outs, p))
            && (OnePeer(edges) ==> forall a, b ::
                0 <= a < b < |outs| && outs[a].cause == Spread && outs[b].cause == Spread ==>
                  outs[a].Sent? && outs[b].Sent? && outs[a].edge != outs[b].edge)
  {
    hide Step, Ordered, Placed, OnePeer;
    var s := After(r, inputs[..i]);
    assert inputs[..i + 1][..i] == inputs[..i];
    var edges, outs := After(r, inputs[..i + 1]).edges, OutsAt(r, inputs, i);
    StepDisciplined(s, inputs[i]);
    RunOrdered(r, inputs[..i + 1]);
    if inputs[i].Attach? {
      AttachEmitsNothing(s, inputs[i]);
      NothingSpread(edges, Effect(After(r, inputs[..i + 1]), [], true));
    } else {
      StepOnce(s, inputs[i]);
    }
    if OnePeer(edges) {
      OrderedIsDistinct(edges);
      var p :| Placed(edges, outs, p);
      DifferentConnections(edges, outs, p);
    }
  }

  lemma AttachEmitsNothing(r: Router, input: Input)
    requires input.Attach?
    ensures Step(r, input).outs == []
  {
  }

  lemma DifferentConnections(edges: seq<Edge>, outs: seq<Out>, p: seq<nat>)
    requires DistinctNames(edges) && OnePeer(edges) && Placed(edges, outs, p)
    ensures forall a, b :: 0 <= a < b < |outs| && outs[a].cause == Spread && outs[b].cause == Spread ==>
              outs[a].Sent? && outs[b].Sent? && outs[a].edge != outs[b].edge
  {
    hide Resolve;
    AimsAreExactIffOnePeer(edges);
    forall a, b | 0 <= a < b < |outs| && outs[a].cause == Spread && outs[b].cause == Spread
      ensures outs[a].edge != outs[b].edge
    {
      assert edges[p[a]] in edges && edges[p[b]] in edges;
    }
  }
}
