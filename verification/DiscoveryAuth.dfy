/** Discovery with authentication required (src/control_router.hpp): nothing is
    remembered, disclosed or spread before the proof, and what follows the proof is
    the unauthenticated step on the frame that was held back. */
module DiscoveryAuth {
  import opened Bytes
  import opened ControlRoute
  import opened ControlRouter
  import opened RouterFacts
  import opened DiscoveryRuns
  import A = ControlAuth

  /** The input is a proof for flood `k` that the router verifies. */
  ghost predicate ProvesAt(r: Router, input: Input, k: FloodKey) {
    && input.Arrive? && Admitted(r, input.ingress, input.frame)
    && input.frame.kind.Discover? && input.frame.destination == [] && input.frame.auth != []
    && KeyOf(input.frame) == k
    && ProvesFor(Handled(r, input.ingress, input.frame, input.env).0,
                 Handled(r, input.ingress, input.frame, input.env).1, input.env)
  }

  ghost predicate ProvesFor(r: Router, f: Frame, env: Env) {
    && Addressed(r, f).Some? && Canonical(f).Some?
    && Checked(r, f, Addressed(r, f).value, Canonical(f).value, env).1
  }

  /** The input starts flood `k` from this very router. */
  ghost predicate Roots(r: Router, input: Input, k: FloodKey) {
    input.Begin? && k == FloodKey(r.instance, input.request)
  }

  ghost predicate Licensed(r: Router, input: Input, k: FloodKey) {
    Roots(r, input, k) || ProvesAt(r, input, k)
  }

  predicate Discloses(o: Out) { o.cause == Cause.Answer || o.cause == Spread }

  /** A step remembers, answers and spreads only licensed floods. */
  ghost predicate Gated(r: Router, input: Input, e: Effect) {
    && (forall k :: k in e.router.seen ==> k in r.seen || Licensed(r, input, k))
    && (forall o :: o in e.outs && Discloses(o) ==> Licensed(r, input, KeyOf(o.frame)))
    && e.router.required == r.required && e.router.instance == r.instance
  }

  lemma PlainGated(r: Router, input: Input, base: Router, f: Frame, cause: Cause, up: set<bytes>)
    requires base.seen.Keys <= r.seen.Keys && base.required == r.required && base.instance == r.instance
    requires cause == Relay || cause == Demand || cause == Proof
    ensures Gated(r, input, Route(base, f, cause, up))
  {
    hide Route, Encodable, Licensed;
    RouteFacts(base, f, cause, up);
  }

  lemma FloodGated(r: Router, input: Input, base: Router, f: Frame, ingress: bytes, session: Option<Key>, env: Env)
    requires base.seen.Keys <= r.seen.Keys && base.required == r.required && base.instance == r.instance
    requires Licensed(r, input, KeyOf(f))
    ensures Gated(r, input, Flood(base, f, ingress, session, env))
  {
    hide Flood, Licensed;
    FloodFacts(base, f, ingress, session, env);
    FloodFrame(base, f, ingress, session, env);
  }

  /** What floods and demands leave alone. */
  predicate SameIdentity(a: Router, b: Router) {
    a.required == b.required && a.instance == b.instance && a.edges == b.edges && a.allowed == b.allowed
  }

  lemma FloodFrame(r: Router, f: Frame, ingress: bytes, session: Option<Key>, env: Env)
    ensures var e := Flood(r, f, ingress, session, env).router;
            SameIdentity(r, e) && SameParked(r.parkedIn, e.parkedIn)
  {
    hide AnswerTo, Route, Reject, FanOut, Text, Quota, SameParked;
    var key := KeyOf(f);
    assert SameParked(r.parkedIn, r.parkedIn) by { SameParkedSelf(r.parkedIn); }
    if key in r.seen {
      var counted := r.(alternatives := r.alternatives[key := Quota(r, key, env.now)]);
      AnswerFrame(counted, f, AltPath, session, env);
    } else if |r.seen| >= SEEN_LIMIT {
      RejectFacts(r, f, Text("discovery_busy"), env.up);
    } else {
      ClaimFrame(r, f, ingress, session, env);
    }
  }

  lemma ClaimFrame(r: Router, f: Frame, ingress: bytes, session: Option<Key>, env: Env)
    requires KeyOf(f) !in r.seen && |r.seen| < SEEN_LIMIT
    ensures var e := Flood(r, f, ingress, session, env).router;
            SameIdentity(r, e) && SameParked(r.parkedIn, e.parkedIn)
  {
    hide AnswerTo, Route, FanOut, SelfDescription, SameParked, RoutedOut, SpreadOut;
    var claimed := r.(seen := r.seen[KeyOf(f) := env.now + SEEN_LIFE]);
    AnswerFrame(claimed, f, Found, session, env);
    var a := AnswerTo(claimed, f, Found, session, env);
    var answered := Route(a.0, a.1, Cause.Answer, env.up);
    FanOutFacts(answered.router, f, ingress, answered.router.edges, env.up);
  }

  lemma SameParkedSelf(m: map<Key, Parked>)
    ensures SameParked(m, m)
  {
  }

  lemma AnswerFrame(r: Router, f: Frame, kind: Kind, session: Option<Key>, env: Env)
    ensures var a := AnswerTo(r, f, kind, session, env); var e := Route(a.0, a.1, Cause.Answer, env.up);
            && SameIdentity(r, a.0) && SameIdentity(r, e.router)
            && SameParked(r.parkedIn, a.0.parkedIn) && e.router.parkedIn == a.0.parkedIn
  {
    hide AnswerTo, Route, SelfDescription, SameParked, RoutedOut;
    AnswerToFacts(r, f, kind, session, env);
    var a := AnswerTo(r, f, kind, session, env);
    RouteFacts(a.0, a.1, Cause.Answer, env.up);
  }

  /** Parked requests are the earlier ones, possibly with `f` from `ingress` added. */
  predicate ParkedOrNew(a: map<Key, Parked>, b: map<Key, Parked>, f: Frame, ingress: bytes) {
    forall n :: n in b ==> if n in a then b[n] == a[n] else b[n].request == f && b[n].ingress == ingress
  }

  /** A demand keeps the router's identity, remembers nothing and discloses nothing. */
  predicate Demanded(r: Router, e: Effect, f: Frame, ingress: bytes) {
    && SameIdentity(r, e.router) && e.router.seen == r.seen
    && (forall o :: o in e.outs ==> !Discloses(o))
    && ParkedOrNew(r.parkedIn, e.router.parkedIn, f, ingress)
  }

  lemma DemandFrame(r: Router, f: Frame, ingress: bytes, env: Env)
    ensures Demanded(r, DemandProof(r, f, ingress, env), f, ingress)
  {
    hide Park, ParkedOrNew;
    var paced := Paced(r, env.now);
    ParkedSame(r.parkedIn, f, ingress);
    ParkFrame(paced.(challenges := paced.challenges + 1), f, ingress, env);
  }

  lemma ParkFrame(r: Router, f: Frame, ingress: bytes, env: Env)
    ensures Demanded(r, Park(r, f, ingress, env), f, ingress)
  {
    hide Route, A.IssueChallenge, A.DecodeChallenge, ParkedOrNew;
    ParkedSame(r.parkedIn, f, ingress);
    var issued := A.IssueChallenge(env.crypto, A.Initial(r.authConfig, f.origin), f.request, READ_CAPABILITY, env.now,
                                   env.entropy);
    var c := A.DecodeChallenge(issued.1);
    if c.Some? && c.value.n !in r.parkedIn {
      var p := Parked(issued.0, f, ingress, env.now + SEEN_LIFE);
      DemandOut(r.(parkedIn := r.parkedIn[c.value.n := p]), Response(f, Kind.Challenge, issued.1), env.up);
      ParkedNew(r.parkedIn, c.value.n, p);
    }
  }

  lemma ParkedNew(m: map<Key, Parked>, n: Key, p: Parked)
    requires n !in m
    ensures ParkedOrNew(m, m[n := p], p.request, p.ingress)
  {
  }

  lemma ParkedSame(m: map<Key, Parked>, f: Frame, ingress: bytes)
    ensures ParkedOrNew(m, m, f, ingress)
  {
  }

  lemma DemandOut(r: Router, f: Frame, up: set<bytes>)
    ensures var e := Route(r, f, Demand, up);
            && SameIdentity(r, e.router) && e.router.seen == r.seen && e.router.parkedIn == r.parkedIn
            && forall o :: o in e.outs ==> !Discloses(o)
  {
    hide Route, Encodable;
    RouteFacts(r, f, Demand, up);
  }

  lemma ProveGated(r: Router, input: Input, base: Router, f: Frame, env: Env)
    requires base.seen.Keys <= r.seen.Keys && base.required == r.required && base.instance == r.instance
    requires ProvesFor(base, f, env) ==> Licensed(r, input, KeyOf(f))
    ensures Gated(r, input, Prove(base, f, env))
  {
    hide Flood, Canonical, A.Verify, Licensed;
    if ProvesFor(base, f, env) {
      var n := Addressed(base, f).value;
      var checked := Checked(base, f, n, Canonical(f).value, env).0;
      var parked := base.parkedIn[n];
      FloodGated(r, input, checked, parked.request, parked.ingress, Some(n), env);
    }
  }

  lemma ReceiveGated(r: Router, input: Input)
    requires r.required && input.Arrive?
    ensures Gated(r, input, Step(r, input))
  {
    hide Route, Reject, Prove, DemandProof, Text, Gated, Licensed, ProvesFor, Flood;
    var f, env := input.frame, input.env;
    if !Admitted(r, input.ingress, f) {
      RefusedGated(r, input);
    } else {
      var h := Handled(r, input.ingress, f, env);
      if !(f.kind.Discover? && f.destination == []) {
        PlainGated(r, input, h.0, h.1, Relay, env.up);
      } else if f.auth == [] {
        DemandFrame(h.0, h.1, input.ingress, env);
        SilentGated(r, input, DemandProof(h.0, h.1, input.ingress, env));
      } else {
        assert ProvesFor(h.0, h.1, env) ==> Licensed(r, input, KeyOf(h.1)) by { Licence(r, input); }
        ProveGated(r, input, h.0, h.1, env);
      }
    }
  }

  lemma Licence(r: Router, input: Input)
    requires input.Arrive? && Admitted(r, input.ingress, input.frame)
    requires input.frame.kind.Discover? && input.frame.destination == [] && input.frame.auth != []
    ensures var h := Handled(r, input.ingress, input.frame, input.env);
            ProvesFor(h.0, h.1, input.env) ==> Licensed(r, input, KeyOf(h.1))
  {
    hide ProvesFor;
  }

  lemma SilentGated(r: Router, input: Input, e: Effect)
    requires e.router.seen.Keys <= r.seen.Keys && e.router.required == r.required && e.router.instance == r.instance
    requires forall o :: o in e.outs ==> !Discloses(o)
    ensures Gated(r, input, e)
  {
  }

  lemma RefusedGated(r: Router, input: Input)
    requires input.Arrive? && !Admitted(r, input.ingress, input.frame)
    ensures Gated(r, input, Step(r, input))
  {
    hide Route, Reject, Text, DiscoverRemote, Licensed, Tick;
    RejectFacts(r, input.frame, Text("reply_path_limit"), input.env.up);
  }

  lemma VouchGated(r: Router, input: Input)
    requires input.Vouch?
    ensures Gated(r, input, Step(r, input))
  {
    hide Route, Canonical, A.AcceptChallenge, A.Protect, A.DecodeChallenge, Gated;
    var t, env, f := Tick(r, input.env.now), input.env, input.frame;
    var e := AnswerChallenge(r, f, env);
    if e.1 {
      var c := A.DecodeChallenge(f.data).value;
      var accepted := A.AcceptChallenge(env.crypto, A.Initial(t.authConfig, f.origin), f.request, f.data, env.now);
      var bare := DiscoveryFrame(f.origin, f.request, f.command, f.replyPath);
      var signed := A.Protect(env.crypto, accepted.0, f.request, Canonical(bare).value, false);
      var proof := bare.(auth := signed.1);
      PlainGated(r, input, t.(parkedOut := t.parkedOut[c.n := Parked(signed.0, proof, [], env.now + SEEN_LIFE)]),
                 proof, Proof, env.up);
    } else {
      SilentGated(r, input, e.0);
    }
  }

  lemma StepGated(r: Router, input: Input)
    requires r.required
    ensures Gated(r, input, Step(r, input))
  {
    hide Route, Flood, Receive, AnswerChallenge, VerifyAnswer, Gated, SetEdge;
    match input {
      case Arrive(_, _, _) => ReceiveGated(r, input);
      case Emit(f, env) => PlainGated(r, input, Tick(r, env.now), f, Relay, env.up);
      case Begin(request, env) =>
        if r.allowed {
          FloodGated(r, input, Tick(r, env.now), DiscoveryFrame(r.instance, request, [], []), [], None, env);
        } else {
          SilentGated(r, input, Step(r, input));
        }
      case Vouch(_, _) => VouchGated(r, input);
      case Believe(f, env) => BelieveFrame(r, f, env); SilentGated(r, input, Step(r, input));
      case Attach(name, g, p, l) => AttachFrame(r, name, g, p, l); SilentGated(r, input, Step(r, input));
      case Clock(now) => SilentGated(r, input, Step(r, input));
    }
  }

  lemma BelieveFrame(r: Router, f: Frame, env: Env)
    ensures var b := VerifyAnswer(r, f, env).0;
            b.seen == Tick(r, env.now).seen && b.required == r.required && b.instance == r.instance
                && b.parkedIn == Tick(r, env.now).parkedIn
  {
    hide Canonical, A.VerifyReply;
  }

  lemma AttachFrame(r: Router, name: bytes, generation: nat, peer: bool, limit: nat)
    ensures var b := SetEdge(r, name, generation, peer, limit);
            b.seen == r.seen && b.required == r.required && b.instance == r.instance && b.parkedIn == r.parkedIn
  {
    hide Reattached;
  }

  // ---------------------------------------------------------------- runs

  lemma {:induction false} RequiredStays(r: Router, inputs: seq<Input>)
    requires r.required
    ensures After(r, inputs).required && After(r, inputs).instance == r.instance
  {
    hide Step;
    if inputs != [] {
      var before := inputs[..|inputs| - 1];
      RequiredStays(r, before);
      StepGated(After(r, before), inputs[|inputs| - 1]);
    }
  }

  /** Every flood that a run has come to remember was begun here or proved in the run. */
  lemma {:induction false} RememberedWasLicensed(r: Router, inputs: seq<Input>, k: FloodKey)
    requires r.required && k !in r.seen && k in After(r, inputs).seen
    ensures exists i :: 0 <= i < |inputs| && Licensed(After(r, inputs[..i]), inputs[i], k)
  {
    hide Step, Licensed;
    var last := |inputs| - 1;
    var before := inputs[..last];
    RequiredStays(r, before);
    StepGated(After(r, before), inputs[last]);
    if k in After(r, before).seen {
      RememberedWasLicensed(r, before, k);
      var i :| 0 <= i < |before| && Licensed(After(r, before[..i]), before[i], k);
      assert before[..i] == inputs[..i] && before[i] == inputs[i];
    } else {
      assert Licensed(After(r, inputs[..last]), inputs[last], k);
    }
  }

  /** In every run of a router that requires authentication, a frame that answers or
      spreads a discovery leaves it only in the step that begins that very discovery
      locally or verifies a proof for that very origin and request. */
  lemma ProofBeforeDisclosure(r: Router, inputs: seq<Input>, i: nat, o: Out)
    requires r.required && i < |inputs| && o in OutsAt(r, inputs, i) && Discloses(o)
    ensures Licensed(After(r, inputs[..i]), inputs[i], KeyOf(o.frame))
  {
    hide Step, Licensed;
    RequiredStays(r, inputs[..i]);
    StepGated(After(r, inputs[..i]), inputs[i]);
  }

  // ---------------------------------------------------------------- the step after the proof

  /** Routing looks at nothing but whether the router is enabled and at its edges. */
  lemma RouteAlike(a: Router, b: Router, f: Frame, cause: Cause, up: set<bytes>)
    requires a.allowed == b.allowed && a.edges == b.edges
    ensures Route(a, f, cause, up).outs == Route(b, f, cause, up).outs
            && Route(a, f, cause, up).ok == Route(b, f, cause, up).ok
    decreases if Quiet(f.kind) then 0 else 1, 1
  {
    hide Text, Encodable, EncodedSize;
    if !Quiet(f.kind) {
      RejectAlike(a, b, f, Text("target_not_found"), up);
      RejectAlike(a, b, f, Text("hop_limit"), up);
      if f.destination != [] && f.remaining > 1 { RejectAlike(a, b, Popped(f), Text("path_mtu_exceeded"), up); }
    }
  }

  lemma RejectAlike(a: Router, b: Router, f: Frame, reason: bytes, up: set<bytes>)
    requires a.allowed == b.allowed && a.edges == b.edges && !Quiet(f.kind)
    ensures Reject(a, f, reason, up).outs == Reject(b, f, reason, up).outs
            && Reject(a, f, reason, up).ok == Reject(b, f, reason, up).ok
    decreases 1, 0
  {
    hide Text, Encodable, EncodedSize;
    RouteAlike(a, b, Response(f, RouteError, reason), Refusal, up);
  }

  lemma {:induction false} FanOutAlike(a: Router, b: Router, f: Frame, ingress: bytes, edges: seq<Edge>, up: set<bytes>)
    requires a.allowed == b.allowed && a.edges == b.edges
    ensures FanOut(a, f, ingress, edges, up).outs == FanOut(b, f, ingress, edges, up).outs
    ensures FanOut(a, f, ingress, edges, up).ok == FanOut(b, f, ingress, edges, up).ok
    decreases |edges|
  {
    hide Text, Encodable, EncodedSize, Route, Reject, Trace, Quiet;
    if edges != [] {
      if edges[0].name == ingress {
        FanOutAlike(a, b, f, ingress, edges[1..], up);
      } else {
        SpreadOneAlike(a, b, f, edges[0], up);
        SpreadOneFacts(a, f, edges[0], up);
        SpreadOneFacts(b, f, edges[0], up);
        FanOutAlike(SpreadOne(a, f, edges[0], up).router, SpreadOne(b, f, edges[0], up).router, f, ingress, edges[1..],
                    up);
      }
    }
  }

  lemma SpreadOneAlike(a: Router, b: Router, f: Frame, e: Edge, up: set<bytes>)
    requires a.allowed == b.allowed && a.edges == b.edges
    ensures SpreadOne(a, f, e, up).outs == SpreadOne(b, f, e, up).outs
            && SpreadOne(a, f, e, up).ok == SpreadOne(b, f, e, up).ok
  {
    hide Text, Encodable, EncodedSize, Route, Trace;
    RouteAlike(a, b, Branch(f, e), Spread, up);
    if !Quiet(f.kind) { RejectAlike(a, b, f, Text("discovery_path_limit"), up); }
  }

  function Spreads(outs: seq<Out>): seq<Out> {
    if outs == [] then [] else (if outs[0].cause == Cause.Answer then [] else [outs[0]]) + Spreads(outs[1..])
  }

  lemma {:induction false} SpreadsConcat(a: seq<Out>, b: seq<Out>)
    ensures Spreads(a + b) == Spreads(a) + Spreads(b)
  {
    if a == [] {
      assert a + b == b;
    } else {
      SpreadsConcat(a[1..], b);
      assert (a + b)[1..] == a[1..] + b;
      Assoc(if a[0].cause == Cause.Answer then [] else [a[0]], Spreads(a[1..]), Spreads(b));
    }
  }

  function Bare(o: Out): Out {
    match o
    case Sent(edge, f, cause) => Sent(edge, f.(auth := []), cause)
    case Delivered(f, cause) => Delivered(f.(auth := []), cause)
  }

  /** With its proof the answer cannot be put on its way: there is nothing to sign, or it
      cannot be encoded, or it exceeds the limit of the connection it is to take. */
  predicate Unprotectable(edges: seq<Edge>, answer: Frame, proof: bytes) {
    || Canonical(answer).None?
    || (answer.destination != [] && answer.remaining > 1 && Resolve(edges, answer.destination[0]).Some?
        && var next := Popped(answer.(auth := proof));
           !Encodable(next) || EncodedSize(next) > Resolve(edges, answer.destination[0]).value.limit)
  }

  /** A protected answer takes the way of the bare one, unless its proof stands in the way. */
  lemma ProtectedAnswer(a: Router, b: Router, answer: Frame, proof: bytes, up: set<bytes>)
    requires a.allowed == b.allowed && a.edges == b.edges && answer.auth == [] && Quiet(answer.kind)
    ensures var p, q := Route(a, answer.(auth := proof), Cause.Answer, up), Route(b, answer, Cause.Answer, up);
            && (p.ok ==> q.ok) && |p.outs| <= |q.outs| <= 1
            && (p.outs != [] ==> q.outs == [Bare(p.outs[0])])
            && ((p.outs == [] && q.outs != []) || (!p.ok && q.ok) ==> Unprotectable(a.edges, answer, proof))
  {
    hide Text;
    RejectQuiet(a, answer.(auth := proof), Text("target_not_found"), up);
    RejectQuiet(a, answer.(auth := proof), Text("hop_limit"), up);
    RejectQuiet(b, answer, Text("target_not_found"), up);
    RejectQuiet(b, answer, Text("hop_limit"), up);
    if answer.destination != [] && answer.remaining > 1 {
      RejectQuiet(a, Popped(answer.(auth := proof)), Text("path_mtu_exceeded"), up);
      RejectQuiet(b, Popped(answer), Text("path_mtu_exceeded"), up);
    }
  }

  /** The router that answers, its entry or quota already counted, and what it answers with. */
  function Answering(r: Router, f: Frame, now: nat): (Router, Kind) {
    var key := KeyOf(f);
    if key in r.seen then (r.(alternatives := r.alternatives[key := Quota(r, key, now)]), AltPath)
    else (r.(seen := r.seen[key := now + SEEN_LIFE]), Found)
  }

  /** The answer to a proved request cannot carry its proof. */
  predicate Excused(r: Router, f: Frame, n: Key, env: Env) {
    var base := Answering(r, f, env.now);
    var answer := AnswerTo(base.0, f, base.1, Some(n), env).1;
    Unprotectable(r.edges, answer.(auth := []), answer.auth)
  }

  /** One effect does what the other does, but for the proofs of its answers; where a proof
      stands in the way of an answer, the answer, or the whole step, may be missing. */
  ghost predicate Mirrors(a: Effect, p: Effect, excused: bool) {
    && a.router.seen == p.router.seen && a.router.alternatives == p.router.alternatives
    && a.router.edges == p.router.edges
    && (a.ok ==> p.ok && Spreads(a.outs) == Spreads(p.outs))
    && (!a.ok && p.ok ==> a.outs == [] && excused)
    && (!a.ok && !p.ok ==> Spreads(a.outs) <= Spreads(p.outs))
    && (forall o :: o in a.outs && o.cause == Cause.Answer ==> Bare(o) in p.outs)
    && (forall o :: o in p.outs && o.cause == Cause.Answer ==> excused || Carries(a.outs, o))
  }

  ghost predicate Carries(outs: seq<Out>, o: Out) {
    exists q :: q in outs && q.cause == Cause.Answer && Bare(q) == o
  }

  /** The step that a verified proof triggers is the unauthenticated step on the frame and
      ingress that were held back: it remembers the same floods, counts the same repeats
      and spreads the same frames in the same order; only its answer carries a proof. */
  lemma ProvedStepRefinesPlain(r: Router, f: Frame, ingress: bytes, n: Key, env: Env)
    requires n in r.parkedIn
    ensures Mirrors(Flood(r, f, ingress, Some(n), env), Flood(r, f, ingress, None, env), Excused(r, f, n, env))
  {
    hide AnswerTo, Route, Reject, FanOut, Text, Quota, SelfDescription, Encodable, Unprotectable, Excused, Mirrors;
    var key := KeyOf(f);
    if key !in r.seen {
      if |r.seen| < SEEN_LIMIT {
        ClaimedMirrors(r, f, ingress, n, env);
      } else {
        RejectFacts(r, f, Text("discovery_busy"), env.up);
        SelfMirrors(Reject(r, f, Text("discovery_busy"), env.up), Excused(r, f, n, env));
      }
    } else if Quota(r, key, env.now).1 <= ALTERNATIVES_PER_SECOND {
      AnswerMirrors(r, f, n, env);
    } else {
      SelfMirrors(Drop(Answering(r, f, env.now).0), Excused(r, f, n, env));
    }
  }

  lemma SelfMirrors(e: Effect, excused: bool)
    requires forall o :: o in e.outs ==> o.cause != Cause.Answer
    ensures Mirrors(e, e, excused)
  {
  }

  /** The answer and its way, as a step of its own. */
  function Replied(r: Router, f: Frame, kind: Kind, session: Option<Key>, env: Env): Effect {
    var a := AnswerTo(r, f, kind, session, env);
    if !a.2 then Effect(a.0, [], false) else Route(a.0, a.1, Cause.Answer, env.up)
  }

  ghost predicate RepliesAlike(r: Router, x: Effect, y: Effect, excused: bool) {
    && (x.ok ==> y.ok) && |x.outs| <= |y.outs| <= 1 && (x.outs != [] ==> x.ok && y.outs == [Bare(x.outs[0])])
    && ((x.outs == [] && y.outs != []) || (!x.ok && y.ok) ==> excused)
    && (forall o :: o in x.outs ==> o.cause == Cause.Answer) && (forall o :: o in y.outs ==> o.cause == Cause.Answer)
    && x.router.seen == r.seen == y.router.seen && x.router.alternatives == r.alternatives == y.router.alternatives
    && x.router.edges == r.edges == y.router.edges && x.router.allowed == r.allowed == y.router.allowed
  }

  /** Both answers, side by side. */
  lemma AnswerRefines(r: Router, f: Frame, kind: Kind, n: Key, env: Env)
    requires n in r.parkedIn && (kind == Found || kind == AltPath)
    ensures var answer := AnswerTo(r, f, kind, Some(n), env).1;
            RepliesAlike(r, Replied(r, f, kind, Some(n), env), Replied(r, f, kind, None, env),
                         Unprotectable(r.edges, answer.(auth := []), answer.auth))
  {
    hide AnswerTo, Route, SelfDescription, Encodable, RoutedOut, Unprotectable;
    AnswerToFacts(r, f, kind, Some(n), env);
    AnswerToFacts(r, f, kind, None, env);
    var a, p := AnswerTo(r, f, kind, Some(n), env), AnswerTo(r, f, kind, None, env);
    RouteFacts(a.0, a.1, Cause.Answer, env.up);
    RouteFacts(p.0, p.1, Cause.Answer, env.up);
    AnswerOutFacts(a.0, a.1, f, kind, env.up);
    AnswerOutFacts(p.0, p.1, f, kind, env.up);
    assert a.1 == p.1.(auth := a.1.auth) && p.1 == a.1.(auth := []);
    ProtectedAnswer(a.0, p.0, p.1, a.1.auth, env.up);
    if !a.2 { UnsignedAnswer(r, f, kind, n, env); }
  }

  lemma UnsignedAnswer(r: Router, f: Frame, kind: Kind, n: Key, env: Env)
    requires n in r.parkedIn && !AnswerTo(r, f, kind, Some(n), env).2
    ensures var answer := AnswerTo(r, f, kind, Some(n), env).1; Unprotectable(r.edges, answer.(auth := []), answer.auth)
  {
    hide A.Protect, SelfDescription, Encodable;
    var answer := AnswerTo(r, f, kind, Some(n), env).1;
    assert answer.auth == [] && answer.(auth := []) == answer;
  }

  lemma AnswerMirrors(r: Router, f: Frame, n: Key, env: Env)
    requires n in r.parkedIn && KeyOf(f) in r.seen
    ensures var base := Answering(r, f, env.now).0;
            Mirrors(Replied(base, f, AltPath, Some(n), env), Replied(base, f, AltPath, None, env),
                    Excused(r, f, n, env))
  {
    hide AnswerTo, Route, Quota, Unprotectable, Replied;
    var base := Answering(r, f, env.now).0;
    AnswerRefines(base, f, AltPath, n, env);
    var x, y := Replied(base, f, AltPath, Some(n), env), Replied(base, f, AltPath, None, env);
    NoSpreads(x.outs);
    NoSpreads(y.outs);
    AnswersMirror(x.outs, y.outs);
  }

  lemma {:induction false} NoSpreads(outs: seq<Out>)
    requires forall o :: o in outs ==> o.cause == Cause.Answer
    ensures Spreads(outs) == []
  {
    if outs != [] { NoSpreads(outs[1..]); }
  }

  lemma AnswersMirror(x: seq<Out>, y: seq<Out>)
    requires |x| <= |y| <= 1 && (x != [] ==> y == [Bare(x[0])]) && forall o :: o in x ==> o.cause == Cause.Answer
    ensures forall o :: o in x ==> Bare(o) in y
    ensures x != [] ==> forall o :: o in y ==> Carries(x, o)
  {
    if x != [] {
      assert x[0] in x && y[0] in y;
      forall o | o in y ensures Carries(x, o) { assert o == Bare(x[0]); }
    }
  }

  lemma ClaimedMirrors(r: Router, f: Frame, ingress: bytes, n: Key, env: Env)
    requires n in r.parkedIn && KeyOf(f) !in r.seen && |r.seen| < SEEN_LIMIT
    ensures Mirrors(Flood(r, f, ingress, Some(n), env), Flood(r, f, ingress, None, env), Excused(r, f, n, env))
  {
    hide AnswerTo, Route, FanOut, Unprotectable, Mirrors, RepliesAlike;
    var base := Answering(r, f, env.now).0;
    AnswerRefines(base, f, Found, n, env);
    var x, y := Replied(base, f, Found, Some(n), env), Replied(base, f, Found, None, env);
    FloodsAre(r, f, ingress, Some(n), env);
    FloodsAre(r, f, ingress, None, env);
    SpreadMirrors(base, x, y, f, ingress, env.up, Excused(r, f, n, env));
  }

  /** An answer, then the fan-out unless the answer could not be made. */
  function ThenSpread(x: Effect, f: Frame, ingress: bytes, up: set<bytes>): Effect {
    if !x.ok then x
    else
      var rest := FanOut(x.router, f, ingress, x.router.edges, up);
      Effect(rest.router, x.outs + rest.outs, rest.ok)
  }

  lemma FloodsAre(r: Router, f: Frame, ingress: bytes, session: Option<Key>, env: Env)
    requires KeyOf(f) !in r.seen && |r.seen| < SEEN_LIMIT
    ensures Flood(r, f, ingress, session, env)
            == ThenSpread(Replied(Answering(r, f, env.now).0, f, Found, session, env), f, ingress, env.up)
  {
    hide AnswerTo, Route, FanOut;
  }

  lemma SpreadMirrors(base: Router, x: Effect, y: Effect, f: Frame, ingress: bytes, up: set<bytes>, excused: bool)
    requires RepliesAlike(base, x, y, excused)
    ensures Mirrors(ThenSpread(x, f, ingress, up), ThenSpread(y, f, ingress, up), excused)
  {
    hide FanOut, Carries;
    FanOutAlike(x.router, y.router, f, ingress, base.edges, up);
    FanOutFacts(x.router, f, ingress, base.edges, up);
    FanOutFacts(y.router, f, ingress, base.edges, up);
    var s, t := FanOut(x.router, f, ingress, base.edges, up), FanOut(y.router, f, ingress, base.edges, up);
    NoSpreads(x.outs);
    NoSpreads(y.outs);
    AnswersMirror(x.outs, y.outs);
    SpreadsConcat(x.outs, s.outs);
    SpreadsConcat(y.outs, t.outs);
    NoAnswers(x.router, f, ingress, base.edges, s.outs);
    CarriedOn(x.outs, s.outs);
    assert Spreads([]) == [];
  }

  lemma NoAnswers(r: Router, f: Frame, ingress: bytes, edges: seq<Edge>, outs: seq<Out>)
    requires forall o :: o in outs ==> exists e :: e in edges && e.name != ingress && SpreadOut(r, f, e, o)
    ensures forall o :: o in outs ==> o.cause != Cause.Answer
  {
  }

  lemma CarriedOn(x: seq<Out>, more: seq<Out>)
    ensures forall o :: Carries(x, o) ==> Carries(x + more, o)
  {
    forall o | Carries(x, o) ensures Carries(x + more, o) {
      var q :| q in x && q.cause == Cause.Answer && Bare(q) == o;
      assert q in x + more;
    }
  }

  /** Nothing in the proof packet's routing fields has any influence. */
  lemma ProofRoutingIsIgnored(r: Router, f: Frame, destination: Path, replyPath: Path, remaining: byte, env: Env)
    ensures Prove(r, f.(destination := destination, replyPath := replyPath, remaining := remaining), env)
            == Prove(r, f, env)
  {
    hide Flood, A.Verify;
    var g := f.(destination := destination, replyPath := replyPath, remaining := remaining);
    assert DiscoveryCore(g) == DiscoveryCore(f);
    assert Canonical(g) == Canonical(f);
  }

  // ---------------------------------------------------------------- what is held back

  /** The parked request `p` is the frame that this input delivered without a proof. */
  ghost predicate ParkedBy(r: Router, input: Input, p: Parked) {
    && input.Arrive? && Admitted(r, input.ingress, input.frame) && input.frame.auth == [] && input.frame.kind.Discover?
    && p.request == Handled(r, input.ingress, input.frame, input.env).1 && p.ingress == input.ingress
  }

  ghost predicate ParksFairly(r: Router, input: Input, after: map<Key, Parked>) {
    forall n :: n in after ==>
      || (n in r.parkedIn && after[n].request == r.parkedIn[n].request && after[n].ingress == r.parkedIn[n].ingress)
      || ParkedBy(r, input, after[n])
  }

  lemma SubParks(r: Router, input: Input, after: map<Key, Parked>, base: map<Key, Parked>)
    requires SameParked(base, after)
    requires forall n :: n in base ==> n in r.parkedIn && base[n] == r.parkedIn[n]
    ensures ParksFairly(r, input, after)
  {
  }

  lemma ProveParks(r: Router, f: Frame, env: Env)
    ensures SameParked(r.parkedIn, Prove(r, f, env).router.parkedIn)
  {
    hide Flood, Canonical, A.Verify;
    if ProvesFor(r, f, env) {
      var n := Addressed(r, f).value;
      FloodFrame(Checked(r, f, n, Canonical(f).value, env).0, r.parkedIn[n].request, r.parkedIn[n].ingress, Some(n),
                 env);
    }
  }

  lemma RouteParks(r: Router, f: Frame, cause: Cause, up: set<bytes>)
    ensures Route(r, f, cause, up).router.parkedIn == r.parkedIn
  {
    hide Route;
    RouteFacts(r, f, cause, up);
  }

  lemma RefusedParks(r: Router, input: Input)
    requires input.Arrive? && !Admitted(r, input.ingress, input.frame)
    ensures Step(r, input).router.parkedIn == r.parkedIn
  {
    hide Route, Reject, Text, DiscoverRemote, Tick;
    RejectFacts(r, input.frame, Text("reply_path_limit"), input.env.up);
  }

  lemma ReceiveParks(r: Router, input: Input)
    requires input.Arrive?
    ensures ParksFairly(r, input, Step(r, input).router.parkedIn)
  {
    hide Route, Reject, DiscoverRemote, Text, ParksFairly, SameParked;
    var f, env := input.frame, input.env;
    if !Admitted(r, input.ingress, f) {
      RefusedParks(r, input);
      SameParkedSelf(r.parkedIn);
      SubParks(r, input, r.parkedIn, r.parkedIn);
    } else {
      var h := Handled(r, input.ingress, f, env);
      if f.kind.Discover? && f.destination == [] {
        RemoteParks(r, input, h.0, h.1);
      } else {
        SameParkedSelf(h.0.parkedIn);
        RouteParks(h.0, h.1, Relay, env.up);
        SubParks(r, input, h.0.parkedIn, h.0.parkedIn);
      }
    }
  }

  lemma RemoteParks(r: Router, input: Input, base: Router, f: Frame)
    requires input.Arrive? && Admitted(r, input.ingress, input.frame) && input.frame.kind.Discover?
    requires (base, f) == Handled(r, input.ingress, input.frame, input.env)
    ensures ParksFairly(r, input, DiscoverRemote(base, f, input.ingress, input.env).router.parkedIn)
  {
    hide Prove, DemandProof, ParksFairly, Flood, SameParked, ParkedOrNew;
    if f.auth != [] {
      ProveParks(base, f, input.env);
      SubParks(r, input, Prove(base, f, input.env).router.parkedIn, base.parkedIn);
    } else if base.required {
      DemandFrame(base, f, input.ingress, input.env);
      DemandParks(r, input, DemandProof(base, f, input.ingress, input.env).router.parkedIn);
    } else {
      FloodFrame(base, f, input.ingress, None, input.env);
      SubParks(r, input, Flood(base, f, input.ingress, None, input.env).router.parkedIn, base.parkedIn);
    }
  }

  lemma DemandParks(r: Router, input: Input, after: map<Key, Parked>)
    requires input.Arrive? && Admitted(r, input.ingress, input.frame) && input.frame.auth == []
             && input.frame.kind.Discover?
    requires var h := Handled(r, input.ingress, input.frame, input.env);
             ParkedOrNew(h.0.parkedIn, after, h.1, input.ingress)
    ensures ParksFairly(r, input, after)
  {
  }

  lemma StepParks(r: Router, input: Input)
    ensures ParksFairly(r, input, Step(r, input).router.parkedIn)
  {
    hide Route, Flood, Receive, AnswerChallenge, VerifyAnswer, SetEdge, SameParked, Canonical, A.AcceptChallenge;
    match input {
      case Arrive(_, _, _) => ReceiveParks(r, input);
      case Emit(f, env) => RouteParks(Tick(r, env.now), f, Relay, env.up);
      case Begin(request, env) =>
        var t := Tick(r, env.now);
        FloodFrame(t, DiscoveryFrame(r.instance, request, [], []), [], None, env);
        if r.allowed { SubParks(r, input, Step(r, input).router.parkedIn, t.parkedIn); }
      case Vouch(f, env) => VouchParks(r, f, env);
      case Believe(f, env) => BelieveFrame(r, f, env);
      case Attach(name, g, p, l) => AttachFrame(r, name, g, p, l);
      case Clock(_) =>
    }
  }

  lemma VouchParks(r: Router, f: Frame, env: Env)
    ensures AnswerChallenge(r, f, env).0.router.parkedIn == Tick(r, env.now).parkedIn
  {
    hide Route, Canonical, A.AcceptChallenge, A.Protect, A.DecodeChallenge;
    var t := Tick(r, env.now);
    var c := A.DecodeChallenge(f.data);
    var accepted := A.AcceptChallenge(env.crypto, A.Initial(t.authConfig, f.origin), f.request, f.data, env.now);
    var bare := DiscoveryFrame(f.origin, f.request, f.command, f.replyPath);
    if AnswerChallenge(r, f, env).1 {
      var signed := A.Protect(env.crypto, accepted.0, f.request, Canonical(bare).value, false);
      var proof := bare.(auth := signed.1);
      RouteParks(t.(parkedOut := t.parkedOut[c.value.n := Parked(signed.0, proof, [], env.now + SEEN_LIFE)]), proof,
                 Proof, env.up);
    }
  }

  /** Every held-back request is a frame that the run received without proof, with the
      connection it came in by: the step after the proof continues exactly that branch. */
  lemma {:induction false} ParkedWasReceived(r: Router, inputs: seq<Input>, n: Key)
    requires r.parkedIn == map[] && n in After(r, inputs).parkedIn
    ensures exists i :: 0 <= i < |inputs| && ParkedBy(After(r, inputs[..i]), inputs[i], After(r, inputs).parkedIn[n])
  {
    hide Step, ParkedBy;
    var last := |inputs| - 1;
    var before := inputs[..last];
    var s := After(r, before);
    StepParks(s, inputs[last]);
    var p := After(r, inputs).parkedIn[n];
    if ParkedBy(s, inputs[last], p) {
      assert ParkedBy(After(r, inputs[..last]), inputs[last], p);
    } else {
      ParkedWasReceived(r, before, n);
      var i :| 0 <= i < |before| && ParkedBy(After(r, before[..i]), before[i], s.parkedIn[n]);
      assert before[..i] == inputs[..i] && before[i] == inputs[i];
      ParkedByFields(After(r, inputs[..i]), inputs[i], s.parkedIn[n], p);
    }
  }

  lemma ParkedByFields(r: Router, input: Input, p: Parked, q: Parked)
    requires ParkedBy(r, input, p) && p.request == q.request && p.ingress == q.ingress
    ensures ParkedBy(r, input, q)
  {
  }

  // ---------------------------------------------------------------- a proved step of a run

  /** The input proves a held-back discovery. */
  ghost predicate Proving(r: Router, input: Input) {
    && input.Arrive? && Admitted(r, input.ingress, input.frame)
    && input.frame.kind.Discover? && input.frame.destination == [] && input.frame.auth != []
    && ProvesFor(Handled(r, input.ingress, input.frame, input.env).0,
                 Handled(r, input.ingress, input.frame, input.env).1, input.env)
  }

  /** The router at that moment, the proof checked. */
  ghost function Convinced(r: Router, input: Input): Router
    requires Proving(r, input)
  {
    var h := Handled(r, input.ingress, input.frame, input.env);
    Checked(h.0, h.1, Addressed(h.0, h.1).value, Canonical(h.1).value, input.env).0
  }

  /** In every run, a step that verifies a proof does what the unauthenticated step would
      have done with a frame that an earlier input of the run delivered without proof, by the
      connection it came in by, but for the proofs of its answers. */
  lemma ProvedStepsContinue(r: Router, inputs: seq<Input>, i: nat)
    requires r.parkedIn == map[] && i < |inputs| && Proving(After(r, inputs[..i]), inputs[i])
    ensures exists j, held, n ::
              && 0 <= j < i && ParkedBy(After(r, inputs[..j]), inputs[j], held)
              && var s := After(r, inputs[..i]);
                 Mirrors(Step(s, inputs[i]),
                         Flood(Convinced(s, inputs[i]), held.request, held.ingress, None, inputs[i].env),
                         Excused(Convinced(s, inputs[i]), held.request, n, inputs[i].env))
  {
    hide Step, Flood, Mirrors, Excused, A.Verify, Canonical, Handled;
    var s, input := After(r, inputs[..i]), inputs[i];
    var n, held := ProvedStepIs(s, input);
    ProvedStepRefinesPlain(Convinced(s, input), held.request, held.ingress, n, input.env);
    ParkedWasReceived(r, inputs[..i], n);
    var j :| 0 <= j < i && ParkedBy(After(r, inputs[..i][..j]), inputs[..i][j], s.parkedIn[n]);
    assert inputs[..i][..j] == inputs[..j] && inputs[..i][j] == inputs[j];
    assert ParkedBy(After(r, inputs[..j]), inputs[j], held);
  }

  lemma ProvedStepIs(r: Router, input: Input) returns (n: Key, parked: Parked)
    requires Proving(r, input)
    ensures n in r.parkedIn && r.parkedIn[n] == parked && n in Convinced(r, input).parkedIn
    ensures Step(r, input) == Flood(Convinced(r, input), parked.request, parked.ingress, Some(n), input.env)
  {
    hide Flood, A.Verify, Canonical, Route, Reject, Text;
    var h := Handled(r, input.ingress, input.frame, input.env);
    n := Addressed(h.0, h.1).value;
    parked := h.0.parkedIn[n];
  }
}
