/** Whole runs of one router (src/control_router.hpp): a discovery is answered and
    spread at most once while it is remembered, and, where authentication is required,
    never before the matching proof has been verified. */
module DiscoveryRuns {
  import opened Bytes
  import opened ControlRoute
  import opened ControlRouter
  import opened RouterFacts
  import A = ControlAuth

  datatype Input =
    | Arrive(ingress: bytes, frame: Frame, env: Env)
    | Emit(frame: Frame, env: Env)
    | Begin(request: Id, env: Env)
    | Vouch(frame: Frame, env: Env)
    | Believe(frame: Frame, env: Env)
    | Attach(name: bytes, generation: nat, peer: bool, limit: nat)
    | Clock(now: nat)

  function Step(r: Router, input: Input): Effect {
    match input
    case Arrive(ingress, f, env) => Receive(r, ingress, f, env)
    case Emit(f, env) => Send(r, f, env)
    case Begin(request, env) => BeginDiscovery(r, request, env)
    case Vouch(f, env) => AnswerChallenge(r, f, env).0
    case Believe(f, env) => Effect(VerifyAnswer(r, f, env).0, [], true)
    case Attach(name, generation, peer, limit) => Effect(SetEdge(r, name, generation, peer, limit), [], true)
    case Clock(now) => Effect(Tick(r, now), [], true)
  }

  function TimeOf(input: Input): Option<nat> {
    match input
    case Attach(_, _, _, _) => None
    case Clock(now) => Some(now)
    case _ => Some(input.env.now)
  }

  ghost function After(r: Router, inputs: seq<Input>): Router {
    if inputs == [] then r else Step(After(r, inputs[..|inputs| - 1]), inputs[|inputs| - 1]).router
  }

  /** What the i-th input of a run made the router emit. */
  ghost function OutsAt(r: Router, inputs: seq<Input>, i: nat): seq<Out>
    requires i < |inputs|
  {
    Step(After(r, inputs[..i]), inputs[i]).outs
  }

  /** The clock never runs backwards. */
  ghost predicate Chronological(inputs: seq<Input>) {
    forall i, j :: 0 <= i < j < |inputs| && TimeOf(inputs[i]).Some? && TimeOf(inputs[j]).Some? ==>
      TimeOf(inputs[i]).value <= TimeOf(inputs[j]).value
  }

  // ---------------------------------------------------------------- one step

  /** The remembered floods that survive up to the time of an input. */
  ghost function Remembered(r: Router, input: Input): map<FloodKey, nat> {
    match TimeOf(input)
    case None => r.seen
    case Some(now) => Tick(r, now).seen
  }

  /** Remembered floods stay remembered, and own frames belong to newly remembered ones. */
  ghost predicate Disciplined(r: Router, input: Input, e: Effect) {
    && (forall k :: k in Remembered(r, input) ==> k in e.router.seen && e.router.seen[k] == r.seen[k])
    && (forall o :: o in e.outs && IsOwn(o) ==>
          && TimeOf(input).Some? && KeyOf(o.frame) !in Remembered(r, input)
          && KeyOf(o.frame) in e.router.seen && e.router.seen[KeyOf(o.frame)] == TimeOf(input).value + SEEN_LIFE)
    && (forall i :: 1 <= i < |e.outs| ==> !IsFoundAnswer(e.outs[i]))
  }

  lemma RelayDisciplined(r: Router, input: Input, f: Frame, cause: Cause, up: set<bytes>, now: nat, base: Router)
    requires TimeOf(input) == Some(now) && base.seen == Tick(r, now).seen
    requires cause == Relay || cause == Demand || cause == Proof
    ensures Disciplined(r, input, Route(base, f, cause, up))
  {
    hide Route, Encodable, Resolve, Quiet;
    RouteFacts(base, f, cause, up);
  }

  lemma FloodDisciplined(r: Router, input: Input, f: Frame, ingress: bytes, session: Option<Key>, env: Env,
                         base: Router)
    requires TimeOf(input) == Some(env.now) && base.seen == Tick(r, env.now).seen
    ensures Disciplined(r, input, Flood(base, f, ingress, session, env))
  {
    hide Flood;
    FloodFacts(base, f, ingress, session, env);
  }

  lemma RemoteDisciplined(r: Router, input: Input, f: Frame, ingress: bytes, env: Env, base: Router)
    requires TimeOf(input) == Some(env.now) && base.seen == Tick(r, env.now).seen
    ensures Disciplined(r, input, DiscoverRemote(base, f, ingress, env))
  {
    hide Flood, Route, Canonical, A.Verify, A.IssueChallenge, A.DecodeChallenge, Disciplined;
    if !base.required && f.auth == [] {
      FloodDisciplined(r, input, f, ingress, None, env, base);
    } else if f.auth == [] {
      ChallengeDisciplined(r, input, f, ingress, env, base);
    } else {
      ProveDisciplined(r, input, f, env, base);
    }
  }

  lemma QuietDisciplined(r: Router, input: Input, e: Effect)
    requires e.outs == [] && TimeOf(input).Some?
    requires e.router.seen == r.seen || e.router.seen == Tick(r, TimeOf(input).value).seen
    ensures Disciplined(r, input, e)
  {
  }

  lemma ChallengeDisciplined(r: Router, input: Input, f: Frame, ingress: bytes, env: Env, base: Router)
    requires TimeOf(input) == Some(env.now) && base.seen == Tick(r, env.now).seen
    ensures Disciplined(r, input, DemandProof(base, f, ingress, env))
  {
    hide Park, Disciplined;
    var paced := Paced(base, env.now);
    QuietDisciplined(r, input, Effect(paced, [], true));
    ParkDisciplined(r, input, f, ingress, env, paced.(challenges := paced.challenges + 1));
  }

  lemma ParkDisciplined(r: Router, input: Input, f: Frame, ingress: bytes, env: Env, base: Router)
    requires TimeOf(input) == Some(env.now) && base.seen == Tick(r, env.now).seen
    ensures Disciplined(r, input, Park(base, f, ingress, env))
  {
    hide Route, A.IssueChallenge, A.DecodeChallenge, Disciplined;
    QuietDisciplined(r, input, Effect(base, [], true));
    var issued := A.IssueChallenge(env.crypto, A.Initial(base.authConfig, f.origin), f.request, READ_CAPABILITY,
                                   env.now, env.entropy);
    var c := A.DecodeChallenge(issued.1);
    if c.Some? {
      var parked := base.(parkedIn := base.parkedIn[c.value.n := Parked(issued.0, f, ingress, env.now + SEEN_LIFE)]);
      RelayDisciplined(r, input, Response(f, Kind.Challenge, issued.1), Demand, env.up, env.now, parked);
    }
  }

  lemma ProveDisciplined(r: Router, input: Input, f: Frame, env: Env, base: Router)
    requires TimeOf(input) == Some(env.now) && base.seen == Tick(r, env.now).seen
    ensures Disciplined(r, input, Prove(base, f, env))
  {
    hide Flood, Canonical, A.Verify, Disciplined;
    var n := Addressed(base, f);
    if n.Some? && Canonical(f).Some? && Checked(base, f, n.value, Canonical(f).value, env).1 {
      var parked := base.parkedIn[n.value];
      FloodDisciplined(r, input, parked.request, parked.ingress, n, env,
                       Checked(base, f, n.value, Canonical(f).value, env).0);
    } else {
      QuietDisciplined(r, input, Prove(base, f, env));
    }
  }

  /** The router and the frame that a received frame is handled with. */
  function Handled(r: Router, ingress: bytes, f: Frame, env: Env): (Router, Frame)
    requires IndexOf(r.edges, ingress) < |r.edges|
  {
    var known := WithToken(r, IndexOf(r.edges, ingress), env.token);
    (Tick(known, env.now), f.(replyPath := [Link(known.edges[IndexOf(r.edges, ingress)].token)] + f.replyPath))
  }

  predicate Admitted(r: Router, ingress: bytes, f: Frame) {
    r.allowed && IndexOf(r.edges, ingress) < |r.edges| && |f.replyPath| < MAX_HOPS
  }

  lemma ReceiveDisciplined(r: Router, input: Input)
    requires input.Arrive?
    ensures Disciplined(r, input, Step(r, input))
  {
    hide Route, Reject, DiscoverRemote, Text, Disciplined;
    var f, env := input.frame, input.env;
    if Admitted(r, input.ingress, f) {
      var h := Handled(r, input.ingress, f, env);
      if f.kind.Discover? && f.destination == [] {
        RemoteDisciplined(r, input, h.1, input.ingress, env, h.0);
      } else {
        RelayDisciplined(r, input, h.1, Relay, env.up, env.now, h.0);
      }
    } else {
      RefusedDisciplined(r, input);
    }
  }

  lemma RefusedDisciplined(r: Router, input: Input)
    requires input.Arrive? && !Admitted(r, input.ingress, input.frame)
    ensures Disciplined(r, input, Step(r, input))
  {
    hide Route, Reject, DiscoverRemote, Text;
    RejectFacts(r, input.frame, Text("reply_path_limit"), input.env.up);
  }

  lemma VouchDisciplined(r: Router, input: Input)
    requires input.Vouch?
    ensures Disciplined(r, input, Step(r, input))
  {
    hide Route, Canonical, A.AcceptChallenge, A.Protect, A.DecodeChallenge, Disciplined;
    var t, env, f := Tick(r, input.env.now), input.env, input.frame;
    var e := AnswerChallenge(r, f, env);
    if e.1 {
      var c := A.DecodeChallenge(f.data).value;
      var accepted := A.AcceptChallenge(env.crypto, A.Initial(t.authConfig, f.origin), f.request, f.data, env.now);
      var bare := DiscoveryFrame(f.origin, f.request, f.command, f.replyPath);
      var signed := A.Protect(env.crypto, accepted.0, f.request, Canonical(bare).value, false);
      var proof := bare.(auth := signed.1);
      RelayDisciplined(r, input, proof, Proof, env.up, env.now,
                       t.(parkedOut := t.parkedOut[c.n := Parked(signed.0, proof, [], env.now + SEEN_LIFE)]));
    } else {
      QuietDisciplined(r, input, e.0);
    }
  }

  lemma StepDisciplined(r: Router, input: Input)
    ensures Disciplined(r, input, Step(r, input))
  {
    hide Route, Flood, Receive, AnswerChallenge, VerifyAnswer, Canonical, A.VerifyReply;
    match input {
      case Arrive(_, _, _) => ReceiveDisciplined(r, input);
      case Emit(f, env) => RelayDisciplined(r, input, f, Relay, env.up, env.now, Tick(r, env.now));
      case Begin(request, env) =>
        FloodDisciplined(r, input, DiscoveryFrame(r.instance, request, [], []), [], None, env, Tick(r, env.now));
      case Vouch(_, _) => VouchDisciplined(r, input);
      case Believe(f, env) => VerifyAnswerFrame(r, f, env);
      case Attach(_, _, _, _) =>
      case Clock(_) =>
    }
  }

  lemma VerifyAnswerFrame(r: Router, f: Frame, env: Env)
    ensures VerifyAnswer(r, f, env).0.seen == Tick(r, env.now).seen
  {
    hide Canonical, A.VerifyReply;
  }

  // ---------------------------------------------------------------- at most once per life

  /** A flood remembered until `until` is still remembered at every earlier time. */
  lemma {:induction false} StaysRemembered(r: Router, inputs: seq<Input>, k: FloodKey, until: nat)
    requires k in r.seen && r.seen[k] == until
    requires forall i :: 0 <= i < |inputs| && TimeOf(inputs[i]).Some? ==> TimeOf(inputs[i]).value < until
    ensures k in After(r, inputs).seen && After(r, inputs).seen[k] == until
  {
    hide Step, Tick;
    if inputs != [] {
      var before := inputs[..|inputs| - 1];
      StaysRemembered(r, before, k, until);
      var s, last := After(r, before), inputs[|inputs| - 1];
      StepDisciplined(s, last);
      assert k in Remembered(s, last) by { SurvivesTick(s, last, k); }
    }
  }

  lemma SurvivesTick(r: Router, input: Input, k: FloodKey)
    requires k in r.seen && (TimeOf(input).Some? ==> TimeOf(input).value < r.seen[k])
    ensures k in Remembered(r, input)
  {
  }

  lemma {:induction false} AfterSplit(r: Router, inputs: seq<Input>, i: nat)
    requires i <= |inputs|
    ensures After(r, inputs) == After(After(r, inputs[..i]), inputs[i..])
  {
    hide Step;
    if i == |inputs| {
      assert inputs[..i] == inputs && inputs[i..] == [];
    } else {
      var last := |inputs| - 1;
      AfterSplit(r, inputs[..last], i);
      assert inputs[..last][..i] == inputs[..i];
      assert inputs[i..][..last - i] == inputs[..last][i..];
    }
  }

  ghost predicate OwnAt(r: Router, inputs: seq<Input>, i: nat, k: FloodKey)
    requires i < |inputs|
  {
    exists o :: o in OutsAt(r, inputs, i) && IsOwn(o) && KeyOf(o.frame) == k
  }

  /** In every run, two steps that answer FOUND to or spread the same (origin, request)
      lie at least a whole remembering period apart. What a single step answers and spreads
      is bounded by `SpreadOnce.EveryStepSpreadsOnce`. */
  lemma AtMostOncePerLife(r: Router, inputs: seq<Input>, i: nat, j: nat, k: FloodKey)
    requires i < j < |inputs| && Chronological(inputs)
    requires OwnAt(r, inputs, i, k) && OwnAt(r, inputs, j, k)
    ensures TimeOf(inputs[i]).Some? && TimeOf(inputs[j]).Some?
    ensures TimeOf(inputs[j]).value >= TimeOf(inputs[i]).value + SEEN_LIFE
  {
    hide Step, Tick;
    var s, t := After(r, inputs[..i]), After(r, inputs[..j]);
    StepDisciplined(s, inputs[i]);
    StepDisciplined(t, inputs[j]);
    var until := TimeOf(inputs[i]).value + SEEN_LIFE;
    var next := After(r, inputs[..i + 1]);
    assert inputs[..i + 1][..i] == inputs[..i];
    assert k in next.seen && next.seen[k] == until;
    if TimeOf(inputs[j]).value < until {
      var between := inputs[..j][i + 1..];
      AfterSplit(r, inputs[..j], i + 1);
      assert inputs[..j][..i + 1] == inputs[..i + 1];
      forall m | 0 <= m < |between| && TimeOf(between[m]).Some? ensures TimeOf(between[m]).value < until {
        assert between[m] == inputs[i + 1 + m];
      }
      StaysRemembered(next, between, k, until);
      SurvivesTick(t, inputs[j], k);
    }
  }
}
