/** Where the frames that a router emits lead: on, with the reply path they came with; or
    back, along the reply path of the frame they answer (src/control_router.hpp). */
module ReplyEmissions {
  import opened Bytes
  import opened ControlRoute
  import opened ControlRouter
  import opened RouterFacts
  import opened DiscoveryRuns
  import opened DiscoveryAuth
  import A = ControlAuth

  /** A request going on, under its reply path and with one hop less. */
  predicate Onward(g: Frame, out: Out) {
    && out.Sent? && !Quiet(out.frame.kind) && KeyOf(out.frame) == KeyOf(g) && out.frame.replyPath == g.replyPath
    && 1 <= out.frame.remaining == g.remaining - 1
  }

  /** A request handed to the application. */
  predicate Here(g: Frame, out: Out) {
    && out.Delivered? && !Quiet(out.frame.kind) && KeyOf(out.frame) == KeyOf(g) && out.frame.replyPath == g.replyPath
    && out.frame.remaining == g.remaining
  }

  /** An answer, challenge or refusal on its way back along the reply path of `g`. */
  predicate Home(edges: seq<Edge>, g: Frame, out: Out) {
    && Quiet(out.frame.kind) && KeyOf(out.frame) == KeyOf(g) && out.frame.replyPath == []
    && if out.Delivered? then g.replyPath == [] && out.frame.destination == []
       else
         && g.replyPath != [] && out.frame.destination == g.replyPath[1..] && out.frame.remaining == MAX_HOPS - 1
         && Through(edges, g.replyPath[0], out.edge)
  }

  predicate Through(edges: seq<Edge>, hop: Hop, name: bytes) {
    Resolve(edges, hop).Some? && Resolve(edges, hop).value.name == name
  }

  /** An answer in transit: delivered where its path ends, else one hop on. */
  predicate Carried(edges: seq<Edge>, g: Frame, out: Out) {
    if out.Delivered? then g.destination == [] && out.frame == g
    else g.destination != [] && g.remaining > 1 && out.frame == Popped(g) && Through(edges, g.destination[0], out.edge)
  }

  predicate Emission(edges: seq<Edge>, g: Frame, out: Out) {
    Onward(g, out) || Here(g, out) || Home(edges, g, out)
  }

  lemma QuietRouteCarries(r: Router, g: Frame, cause: Cause, up: set<bytes>)
    requires Quiet(g.kind)
    ensures forall out :: out in Route(r, g, cause, up).outs ==> Carried(r.edges, g, out)
  {
    hide Encodable, EncodedSize, Text, Reject, Resolve;
    RejectQuiet(r, g, Text("target_not_found"), up);
    RejectQuiet(r, g, Text("hop_limit"), up);
    if g.destination != [] && g.remaining > 1 {
      RejectQuiet(r, Popped(g), Text("path_mtu_exceeded"), up);
    }
  }

  /** Any response to `g` that is routed goes home. */
  lemma ResponseGoesHome(r: Router, g: Frame, answer: Frame, cause: Cause, up: set<bytes>)
    requires Quiet(answer.kind) && KeyOf(answer) == KeyOf(g) && answer.destination == g.replyPath
    requires answer.replyPath == [] && answer.remaining == MAX_HOPS
    ensures forall out :: out in Route(r, answer, cause, up).outs ==> Home(r.edges, g, out)
  {
    hide Route, Resolve;
    QuietRouteCarries(r, answer, cause, up);
  }

  lemma RejectGoesHome(r: Router, g: Frame, reason: bytes, up: set<bytes>)
    ensures forall out :: out in Reject(r, g, reason, up).outs ==> Home(r.edges, g, out)
  {
    hide Route, Home;
    if !Quiet(g.kind) { ResponseGoesHome(r, g, Response(g, RouteError, reason), Refusal, up); }
  }

  lemma PoppedGoesHome(r: Router, g: Frame, reason: bytes, up: set<bytes>)
    requires g.destination != [] && g.remaining > 0
    ensures forall out :: out in Reject(r, Popped(g), reason, up).outs ==> Home(r.edges, g, out)
  {
    hide Reject, Resolve;
    RejectGoesHome(r, Popped(g), reason, up);
  }

  lemma RouteEmits(r: Router, g: Frame, cause: Cause, up: set<bytes>)
    requires !Quiet(g.kind)
    ensures forall out :: out in Route(r, g, cause, up).outs ==> Emission(r.edges, g, out)
  {
    hide Encodable, EncodedSize, Text, Reject, Resolve, Home;
    RejectGoesHome(r, g, Text("target_not_found"), up);
    RejectGoesHome(r, g, Text("hop_limit"), up);
    if g.destination != [] && g.remaining > 1 {
      PoppedGoesHome(r, g, Text("path_mtu_exceeded"), up);
    }
  }

  lemma SpreadOneEmits(r: Router, g: Frame, e: Edge, up: set<bytes>)
    requires g.kind.Discover?
    ensures var eff := SpreadOne(r, g, e, up);
            eff.router.edges == r.edges && forall out :: out in eff.outs ==> Onward(g, out) || Home(r.edges, g, out)
  {
    hide Encodable, EncodedSize, Text, Reject, Resolve, Trace, Route;
    SpreadOneFacts(r, g, e, up);
    RejectGoesHome(r, g, Text("discovery_path_limit"), up);
    RouteEmits(r, Branch(g, e), Spread, up);
    NotHere(r, Branch(g, e), Spread, up);
  }

  lemma NotHere(r: Router, g: Frame, cause: Cause, up: set<bytes>)
    requires g.destination != [] && !Quiet(g.kind)
    ensures forall out :: out in Route(r, g, cause, up).outs && out.Delivered? ==> Quiet(out.frame.kind)
  {
    hide Encodable, Route, Resolve;
    RouteFacts(r, g, cause, up);
  }

  lemma {:induction false} FanOutEmits(r: Router, g: Frame, ingress: bytes, edges: seq<Edge>, up: set<bytes>)
    requires g.kind.Discover?
    ensures forall out :: out in FanOut(r, g, ingress, edges, up).outs ==> Emission(r.edges, g, out)
    decreases |edges|
  {
    hide SpreadOne, Home, Onward, Here;
    if edges != [] {
      if edges[0].name == ingress {
        FanOutEmits(r, g, ingress, edges[1..], up);
      } else {
        SpreadOneEmits(r, g, edges[0], up);
        FanOutEmits(SpreadOne(r, g, edges[0], up).router, g, ingress, edges[1..], up);
      }
    }
  }

  lemma AnswerGoesHome(r: Router, g: Frame, kind: Kind, session: Option<Key>, env: Env)
    requires kind == Found || kind == AltPath
    ensures var a := AnswerTo(r, g, kind, session, env);
            forall out :: out in Route(a.0, a.1, Cause.Answer, env.up).outs ==> Home(r.edges, g, out)
  {
    hide AnswerTo, Route, SelfDescription, SameParked, Home;
    AnswerToFacts(r, g, kind, session, env);
    var a := AnswerTo(r, g, kind, session, env);
    ResponseGoesHome(a.0, g, a.1, Cause.Answer, env.up);
  }

  lemma FloodEmits(r: Router, g: Frame, ingress: bytes, session: Option<Key>, env: Env)
    requires g.kind.Discover?
    ensures var e := Flood(r, g, ingress, session, env);
            e.router.edges == r.edges && forall out :: out in e.outs ==> Emission(r.edges, g, out)
  {
    hide AnswerTo, Route, FanOut, Reject, Text, SelfDescription, Quota, RoutedOut, SameParked, Home, Onward, Here;
    FloodFacts(r, g, ingress, session, env);
    var key := KeyOf(g);
    RejectGoesHome(r, g, Text("discovery_busy"), env.up);
    if key in r.seen {
      AnswerGoesHome(r.(alternatives := r.alternatives[key := Quota(r, key, env.now)]), g, AltPath, session, env);
    } else {
      var claimed := r.(seen := r.seen[key := env.now + SEEN_LIFE]);
      AnswerGoesHome(claimed, g, Found, session, env);
      var a := AnswerTo(claimed, g, Found, session, env);
      AnswerToFacts(claimed, g, Found, session, env);
      RouteFacts(a.0, a.1, Cause.Answer, env.up);
      var answered := Route(a.0, a.1, Cause.Answer, env.up);
      FanOutEmits(answered.router, g, ingress, answered.router.edges, env.up);
    }
  }

  lemma ParkEmits(r: Router, g: Frame, ingress: bytes, env: Env)
    ensures var e := Park(r, g, ingress, env);
            e.router.edges == r.edges && forall out :: out in e.outs ==> Home(r.edges, g, out)
  {
    hide Route, A.IssueChallenge, A.DecodeChallenge, Home, RoutedOut;
    var issued := A.IssueChallenge(env.crypto, A.Initial(r.authConfig, g.origin), g.request, READ_CAPABILITY, env.now,
                                   env.entropy);
    var c := A.DecodeChallenge(issued.1);
    if c.Some? {
      var parked := r.(parkedIn := r.parkedIn[c.value.n := Parked(issued.0, g, ingress, env.now + SEEN_LIFE)]);
      ResponseGoesHome(parked, g, Response(g, Kind.Challenge, issued.1), Demand, env.up);
      RouteFacts(parked, Response(g, Kind.Challenge, issued.1), Demand, env.up);
    }
  }

  lemma DemandEmits(r: Router, g: Frame, ingress: bytes, env: Env)
    ensures var e := DemandProof(r, g, ingress, env);
            e.router.edges == r.edges && forall out :: out in e.outs ==> Home(r.edges, g, out)
  {
    hide Park, Home;
    var paced := Paced(r, env.now);
    ParkEmits(paced.(challenges := paced.challenges + 1), g, ingress, env);
  }

  /** The held-back request that a proof releases. */
  ghost predicate Released(r: Router, g: Frame, original: Frame) {
    exists n :: n in r.parkedIn && r.parkedIn[n].request == original && KeyOf(original) == KeyOf(g)
  }

  lemma ProveEmits(r: Router, g: Frame, env: Env)
    requires forall n :: n in r.parkedIn ==> r.parkedIn[n].request.kind.Discover?
    ensures var e := Prove(r, g, env);
            && e.router.edges == r.edges
            && forall out :: out in e.outs ==>
              exists original :: Released(r, g, original) && Emission(r.edges, original, out)
  {
    hide Flood, Canonical, A.Verify, Emission;
    if ProvesFor(r, g, env) {
      var n := Addressed(r, g).value;
      var original := r.parkedIn[n].request;
      FloodEmits(Checked(r, g, n, Canonical(g).value, env).0, original, r.parkedIn[n].ingress, Some(n), env);
      assert Released(r, g, original);
    }
  }

  /** Every frame that an arrival emits stems from the arrived frame, with the ingress
      pushed on its reply path, or from a request that it releases. */
  ghost predicate Stems(base: Router, g: Frame, out: Out) {
    if Quiet(g.kind) then Carried(base.edges, g, out)
    else
      || Emission(base.edges, g, out)
      || exists original :: Released(base, g, original) && Emission(base.edges, original, out)
  }

  lemma ArrivalEmits(r: Router, ingress: bytes, f: Frame, env: Env)
    requires Admitted(r, ingress, f)
    requires forall n :: n in r.parkedIn ==> r.parkedIn[n].request.kind.Discover?
    ensures var h := Handled(r, ingress, f, env);
            var e := Receive(r, ingress, f, env);
            e.router.edges == h.0.edges && forall out :: out in e.outs ==> Stems(h.0, h.1, out)
  {
    hide Route, Reject, Text, Flood, Prove, DemandProof, Emission, Released, Carried, RoutedOut;
    var h := Handled(r, ingress, f, env);
    if !(f.kind.Discover? && f.destination == []) {
      RouteFacts(h.0, h.1, Relay, env.up);
      if Quiet(f.kind) { QuietRouteCarries(h.0, h.1, Relay, env.up); } else { RouteEmits(h.0, h.1, Relay, env.up); }
    } else if f.auth != [] {
      ProveEmits(h.0, h.1, env);
    } else if h.0.required {
      DemandEmits(h.0, h.1, ingress, env);
      HomeEmits(h.0.edges, h.1, DemandProof(h.0, h.1, ingress, env).outs);
    } else {
      FloodEmits(h.0, h.1, ingress, None, env);
    }
  }

  lemma HomeEmits(edges: seq<Edge>, g: Frame, outs: seq<Out>)
    requires forall out :: out in outs ==> Home(edges, g, out)
    ensures forall out :: out in outs ==> Emission(edges, g, out)
  {
  }
}
