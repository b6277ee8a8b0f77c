/** Every frame that a router puts on a connection can be encoded (src/control_router.hpp):
    sending encodes it first. */
module SentFrames {
  import opened Bytes
  import opened ControlRoute
  import opened ControlRouter
  import opened RouterFacts
  import opened DiscoveryRuns
  import A = ControlAuth

  predicate AllEncodable(outs: seq<Out>) {
    forall o :: o in outs && o.Sent? ==> Encodable(o.frame)
  }

  lemma QuietRouteEncodes(r: Router, f: Frame, cause: Cause, up: set<bytes>)
    requires Quiet(f.kind)
    ensures AllEncodable(Route(r, f, cause, up).outs)
  {
    hide Encodable, EncodedSize, Text, Reject;
    RejectQuiet(r, f, Text("target_not_found"), up);
    RejectQuiet(r, f, Text("hop_limit"), up);
    if f.destination != [] && f.remaining > 1 { RejectQuiet(r, Popped(f), Text("path_mtu_exceeded"), up); }
  }

  lemma RejectEncodes(r: Router, f: Frame, reason: bytes, up: set<bytes>)
    ensures AllEncodable(Reject(r, f, reason, up).outs)
  {
    hide Route;
    if !Quiet(f.kind) { QuietRouteEncodes(r, Response(f, RouteError, reason), Refusal, up); }
  }

  lemma RouteEncodes(r: Router, f: Frame, cause: Cause, up: set<bytes>)
    ensures AllEncodable(Route(r, f, cause, up).outs)
  {
    hide Encodable, EncodedSize, Text, Reject;
    RejectEncodes(r, f, Text("target_not_found"), up);
    RejectEncodes(r, f, Text("hop_limit"), up);
    if f.destination != [] && f.remaining > 1 { RejectEncodes(r, Popped(f), Text("path_mtu_exceeded"), up); }
  }

  lemma {:induction false} FanOutEncodes(r: Router, f: Frame, ingress: bytes, edges: seq<Edge>, up: set<bytes>)
    ensures AllEncodable(FanOut(r, f, ingress, edges, up).outs)
    decreases |edges|
  {
    hide Route, Reject, Text, Encodable;
    if edges != [] {
      if edges[0].name == ingress {
        FanOutEncodes(r, f, ingress, edges[1..], up);
      } else {
        RejectEncodes(r, f, Text("discovery_path_limit"), up);
        RouteEncodes(r, Branch(f, edges[0]), Spread, up);
        FanOutEncodes(SpreadOne(r, f, edges[0], up).router, f, ingress, edges[1..], up);
      }
    }
  }

  lemma FloodEncodes(r: Router, f: Frame, ingress: bytes, session: Option<Key>, env: Env)
    ensures AllEncodable(Flood(r, f, ingress, session, env).outs)
  {
    hide AnswerTo, Route, Reject, FanOut, Text, Quota, Encodable;
    var key := KeyOf(f);
    RejectEncodes(r, f, Text("discovery_busy"), env.up);
    var claimed, counted := r.(seen := r.seen[key := env.now + SEEN_LIFE]),
        r.(alternatives := r.alternatives[key := Quota(r, key, env.now)]);
    var a, b := AnswerTo(claimed, f, Found, session, env), AnswerTo(counted, f, AltPath, session, env);
    RouteEncodes(b.0, b.1, Cause.Answer, env.up);
    RouteEncodes(a.0, a.1, Cause.Answer, env.up);
    var answered := Route(a.0, a.1, Cause.Answer, env.up);
    FanOutEncodes(answered.router, f, ingress, answered.router.edges, env.up);
  }

  lemma RemoteEncodes(r: Router, f: Frame, ingress: bytes, env: Env)
    ensures AllEncodable(DiscoverRemote(r, f, ingress, env).outs)
  {
    hide Flood, Route, Canonical, A.Verify, A.IssueChallenge, A.DecodeChallenge, AllEncodable;
    assert AllEncodable([]) by { NoneSent(); }
    if f.auth == [] {
      FloodEncodes(r, f, ingress, None, env);
      DemandEncodes(r, f, ingress, env);
    } else {
      var n := Addressed(r, f);
      if n.Some? && Canonical(f).Some? {
        var checked := Checked(r, f, n.value, Canonical(f).value, env).0;
        FloodEncodes(checked, r.parkedIn[n.value].request, r.parkedIn[n.value].ingress, n, env);
      }
    }
  }

  lemma NoneSent()
    ensures AllEncodable([])
  {
  }

  lemma DemandEncodes(r: Router, f: Frame, ingress: bytes, env: Env)
    ensures AllEncodable(DemandProof(r, f, ingress, env).outs)
  {
    hide Route, A.IssueChallenge, A.DecodeChallenge, AllEncodable;
    assert AllEncodable([]) by { NoneSent(); }
    var paced := Paced(r, env.now);
    var base := paced.(challenges := paced.challenges + 1);
    var issued := A.IssueChallenge(env.crypto, A.Initial(base.authConfig, f.origin), f.request, READ_CAPABILITY,
                                   env.now, env.entropy);
    var c := A.DecodeChallenge(issued.1);
    if c.Some? {
      var parked := base.(parkedIn := base.parkedIn[c.value.n := Parked(issued.0, f, ingress, env.now + SEEN_LIFE)]);
      RouteEncodes(parked, Response(f, Kind.Challenge, issued.1), Demand, env.up);
    }
  }

  lemma ArrivalEncodes(r: Router, ingress: bytes, f: Frame, env: Env)
    ensures AllEncodable(Receive(r, ingress, f, env).outs)
  {
    hide Route, Reject, Text, DiscoverRemote, AllEncodable;
    assert AllEncodable([]) by { NoneSent(); }
    RejectEncodes(r, f, Text("reply_path_limit"), env.up);
    if Admitted(r, ingress, f) {
      var h := Handled(r, ingress, f, env);
      RemoteEncodes(h.0, h.1, ingress, env);
      RouteEncodes(h.0, h.1, Relay, env.up);
    }
  }

  lemma VouchEncodes(r: Router, f: Frame, env: Env)
    ensures AllEncodable(AnswerChallenge(r, f, env).0.outs)
  {
    hide Route, Canonical, A.AcceptChallenge, A.Protect, A.DecodeChallenge, AllEncodable;
    assert AllEncodable([]) by { NoneSent(); }
    var t := Tick(r, env.now);
    if AnswerChallenge(r, f, env).1 {
      var c := A.DecodeChallenge(f.data).value;
      var accepted := A.AcceptChallenge(env.crypto, A.Initial(t.authConfig, f.origin), f.request, f.data, env.now);
      var bare := DiscoveryFrame(f.origin, f.request, f.command, f.replyPath);
      var signed := A.Protect(env.crypto, accepted.0, f.request, Canonical(bare).value, false);
      var proof := bare.(auth := signed.1);
      RouteEncodes(t.(parkedOut := t.parkedOut[c.n := Parked(signed.0, proof, [], env.now + SEEN_LIFE)]), proof, Proof,
                   env.up);
    }
  }

  /** Whatever a step sends can be encoded. */
  lemma StepEncodes(r: Router, input: Input)
    ensures AllEncodable(Step(r, input).outs)
  {
    hide Route, Flood, Receive, AnswerChallenge, VerifyAnswer, SetEdge, AllEncodable;
    assert AllEncodable([]) by { NoneSent(); }
    match input {
      case Arrive(ingress, f, env) => ArrivalEncodes(r, ingress, f, env);
      case Emit(f, env) => RouteEncodes(Tick(r, env.now), f, Relay, env.up);
      case Begin(request, env) =>
        FloodEncodes(Tick(r, env.now), DiscoveryFrame(r.instance, request, [], []), [], None, env);
      case Vouch(f, env) => VouchEncodes(r, f, env);
      case _ =>
    }
  }
}
