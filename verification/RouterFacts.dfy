/** What single steps of a router can and cannot do; the theorems about runs and
    networks are built from these. */
module RouterFacts {
  import opened Bytes
  import opened ControlRoute
  import opened ControlRouter
  import A = ControlAuth

  /** What routing one frame may emit: the frame itself, or one refusal sent back. */
  predicate RoutedOut(r: Router, f: Frame, cause: Cause, out: Out) {
    || (out == Delivered(f, cause) && f.destination == [])
    || (out.Sent? && out.cause == cause && f.destination != [] && f.remaining > 1 && out.frame == Popped(f)
        && Encodable(out.frame)
        && Resolve(r.edges, f.destination[0]).Some? && Resolve(r.edges, f.destination[0]).value.name == out.edge)
    || (out.cause == Refusal && out.frame.kind == RouteError && !Quiet(f.kind) && KeyOf(out.frame) == KeyOf(f))
  }

  /** Routing touches nothing but the drop counter and emits at most one frame. */
  predicate RoutedEffect(r: Router, f: Frame, cause: Cause, e: Effect) {
    && e.router == r.(dropped := e.router.dropped) && e.router.dropped >= r.dropped
    && |e.outs| <= 1 && (e.outs != [] ==> e.ok && RoutedOut(r, f, cause, e.outs[0]))
  }

  lemma RejectQuiet(r: Router, f: Frame, reason: bytes, up: set<bytes>)
    requires Quiet(f.kind)
    ensures Reject(r, f, reason, up) == Drop(r)
  {
  }

  lemma RouteQuiet(r: Router, f: Frame, cause: Cause, up: set<bytes>)
    requires Quiet(f.kind)
    ensures RoutedEffect(r, f, cause, Route(r, f, cause, up))
  {
    hide Encodable, EncodedSize, Text, Reject;
    RejectQuiet(r, f, Text("target_not_found"), up);
    RejectQuiet(r, f, Text("hop_limit"), up);
    if f.destination != [] && f.remaining > 1 {
      RejectQuiet(r, Popped(f), Text("path_mtu_exceeded"), up);
    }
  }

  lemma RejectFacts(r: Router, f: Frame, reason: bytes, up: set<bytes>)
    ensures var e := Reject(r, f, reason, up);
            && e.router == r.(dropped := e.router.dropped) && e.router.dropped >= r.dropped
            && |e.outs| <= 1
            && (e.outs != [] ==> e.ok && e.outs[0].cause == Refusal && e.outs[0].frame.kind == RouteError
                                 && !Quiet(f.kind) && KeyOf(e.outs[0].frame) == KeyOf(f))
  {
    hide Encodable, EncodedSize, Text, Route;
    if !Quiet(f.kind) {
      RouteQuiet(r, Response(f, RouteError, reason), Refusal, up);
    }
  }

  lemma RouteFacts(r: Router, f: Frame, cause: Cause, up: set<bytes>)
    ensures RoutedEffect(r, f, cause, Route(r, f, cause, up))
  {
    hide Encodable, EncodedSize, Text, Reject;
    RejectFacts(r, f, Text("target_not_found"), up);
    RejectFacts(r, f, Text("hop_limit"), up);
    if f.destination != [] && f.remaining > 1 {
      RejectFacts(r, Popped(f), Text("path_mtu_exceeded"), up);
    }
  }

  /** What one spread attempt may emit. */
  predicate SpreadOut(r: Router, f: Frame, e: Edge, out: Out) {
    || (out.cause == Refusal && out.frame.kind == RouteError && KeyOf(out.frame) == KeyOf(f))
    || (out.Sent? && out.cause == Spread && f.remaining > 1 && out.frame == Popped(Branch(f, e)) && Encodable(out.frame)
        && Resolve(r.edges, HopTo(e)).Some? && Resolve(r.edges, HopTo(e)).value.name == out.edge)
  }

  lemma SpreadOneFacts(r: Router, f: Frame, e: Edge, up: set<bytes>)
    ensures var eff := SpreadOne(r, f, e, up);
            && eff.router == r.(dropped := eff.router.dropped)
            && |eff.outs| <= 1 && (eff.outs != [] ==> SpreadOut(r, f, e, eff.outs[0]))
  {
    hide Encodable, EncodedSize, Text, Reject, Route, Escape;
    RejectFacts(r, f, Text("discovery_path_limit"), up);
    RouteFacts(r, Branch(f, e), Spread, up);
  }

  /** Fan-out emits, per edge other than the ingress, at most one frame. */
  lemma {:induction false} FanOutFacts(r: Router, f: Frame, ingress: bytes, edges: seq<Edge>, up: set<bytes>)
    ensures var eff := FanOut(r, f, ingress, edges, up);
            && eff.router == r.(dropped := eff.router.dropped)
            && |eff.outs| <= |edges|
            && forall o :: o in eff.outs ==> exists e :: e in edges && e.name != ingress && SpreadOut(r, f, e, o)
    decreases |edges|
  {
    hide SpreadOne, SpreadOut;
    if edges != [] {
      if edges[0].name == ingress {
        FanOutFacts(r, f, ingress, edges[1..], up);
      } else {
        SpreadOneFacts(r, f, edges[0], up);
        var one := SpreadOne(r, f, edges[0], up);
        SpreadOutFrame(one.router, r, f);
        FanOutFacts(one.router, f, ingress, edges[1..], up);
        assert edges[0] in edges;
      }
    }
  }

  lemma SpreadOutFrame(a: Router, b: Router, f: Frame)
    requires a.edges == b.edges
    ensures forall e, o :: SpreadOut(a, f, e, o) <==> SpreadOut(b, f, e, o)
  {
  }

  /** The same parked requests, whatever their sessions have advanced to. */
  predicate SameParked(a: map<Key, Parked>, b: map<Key, Parked>) {
    && a.Keys == b.Keys
    && forall n :: n in a ==>
         a[n].request == b[n].request && a[n].ingress == b[n].ingress && a[n].expires == b[n].expires
  }

  lemma AnswerToFacts(r: Router, f: Frame, kind: Kind, session: Option<Key>, env: Env)
    ensures var a := AnswerTo(r, f, kind, session, env);
            && a.0 == r.(parkedIn := a.0.parkedIn) && SameParked(r.parkedIn, a.0.parkedIn)
            && a.1 == Response(f, kind, SelfDescription(r)).(auth := a.1.auth)
            && (session.None? ==> a.0 == r && a.1.auth == [] && a.2)
  {
    hide A.Protect, Canonical, SelfDescription;
  }

  /** A flood step that claims its key: one own FOUND, then the spreading. */
  predicate Claimed(r: Router, e: Effect, f: Frame, now: nat) {
    && KeyOf(f) !in r.seen && e.router.seen == r.seen[KeyOf(f) := now + SEEN_LIFE]
    && e.router.alternatives == r.alternatives && e.router.edges == r.edges
  }

  predicate Untouched(r: Router, e: Effect) {
    e.router.seen == r.seen && e.router.edges == r.edges
  }

  predicate IsFoundAnswer(o: Out) { o.cause == Cause.Answer && o.frame.kind == Found }

  predicate IsOwn(o: Out) { IsFoundAnswer(o) || o.cause == Spread }

  /** Everything a flood step emits concerns the flood itself. */
  predicate FromFlood(f: Frame, o: Out) {
    KeyOf(o.frame) == KeyOf(f) && (o.cause == Cause.Answer || o.cause == Spread || o.cause == Refusal)
  }

  /** Every own FOUND and every spread frame stems from a step that claims the key. */
  lemma FloodFacts(r: Router, f: Frame, ingress: bytes, session: Option<Key>, env: Env)
    ensures var e := Flood(r, f, ingress, session, env);
            && (Claimed(r, e, f, env.now) || Untouched(r, e))
            && (forall o :: o in e.outs && IsOwn(o) ==> Claimed(r, e, f, env.now))
            && (forall i :: 1 <= i < |e.outs| ==> !IsFoundAnswer(e.outs[i]))
            && (forall o :: o in e.outs ==> FromFlood(f, o))
            && (Claimed(r, e, f, env.now) || |e.outs| <= 1)
  {
    hide AnswerTo, Route, FanOut, Reject, Text, Branch, SelfDescription, RoutedOut, Quota;
    var key := KeyOf(f);
    if key !in r.seen {
      RejectFacts(r, f, Text("discovery_busy"), env.up);
      if |r.seen| < SEEN_LIMIT {
        ClaimFacts(r, f, ingress, session, env);
      }
    } else {
      var counted := r.(alternatives := r.alternatives[key := Quota(r, key, env.now)]);
      AnswerToFacts(counted, f, AltPath, session, env);
      var a := AnswerTo(counted, f, AltPath, session, env);
      RouteFacts(a.0, a.1, Cause.Answer, env.up);
      AnswerOutFacts(a.0, a.1, f, AltPath, env.up);
    }
  }

  lemma AnswerOutFacts(r: Router, answer: Frame, f: Frame, kind: Kind, up: set<bytes>)
    requires kind == Found || kind == AltPath
    requires answer.kind == kind && KeyOf(answer) == KeyOf(f)
    ensures var e := Route(r, answer, Cause.Answer, up);
            forall o :: o in e.outs ==> o.cause == Cause.Answer && o.frame.kind == kind && KeyOf(o.frame) == KeyOf(f)
  {
    hide Route, SelfDescription, Encodable;
    RouteFacts(r, answer, Cause.Answer, up);
  }

  lemma ClaimFacts(r: Router, f: Frame, ingress: bytes, session: Option<Key>, env: Env)
    requires KeyOf(f) !in r.seen && |r.seen| < SEEN_LIMIT
    ensures var e := Flood(r, f, ingress, session, env);
            && Claimed(r, e, f, env.now)
            && (forall i :: 1 <= i < |e.outs| ==> !IsFoundAnswer(e.outs[i]))
            && (forall o :: o in e.outs ==> FromFlood(f, o))
  {
    hide AnswerTo, Route, FanOut, Reject, Text, SelfDescription, RoutedOut, Encodable;
    var claimed := r.(seen := r.seen[KeyOf(f) := env.now + SEEN_LIFE]);
    AnswerToFacts(claimed, f, Found, session, env);
    var a := AnswerTo(claimed, f, Found, session, env);
    RouteFacts(a.0, a.1, Cause.Answer, env.up);
    AnswerOutFacts(a.0, a.1, f, Found, env.up);
    var answered := Route(a.0, a.1, Cause.Answer, env.up);
    FanOutFacts(answered.router, f, ingress, answered.router.edges, env.up);
    var rest := FanOut(answered.router, f, ingress, answered.router.edges, env.up);
    forall o | o in rest.outs
      ensures !IsFoundAnswer(o) && FromFlood(f, o)
    {
      var e :| e in answered.router.edges && e.name != ingress && SpreadOut(answered.router, f, e, o);
    }
  }
}
