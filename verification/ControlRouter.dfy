/** The source-routed CONTROL router (src/control_router.hpp) as a function from a
    state and an input to a state and the frames it emits. Every emitted frame carries
    the reason for which it was emitted, so that theorems can speak of a router's own
    answers and fan-out as opposed to what it relays for others. */
module ControlRouter {
  import opened Bytes
  import opened ControlRoute
  import A = ControlAuth

  const SEEN_LIMIT := 256
  const SESSION_LIMIT := 128
  const CHALLENGES_PER_SECOND := 32
  const ALTERNATIVES_PER_SECOND := 32
  /** Milliseconds. */
  const SEEN_LIFE := 30_000
  const SECOND := 1_000
  const READ_CAPABILITY: bv64 := 1
  /** "TUNTOM-DISCOVERY-v1" with its final zero byte. */
  const DISCOVERY_LABEL: bytes := [84, 85, 78, 84, 79, 77, 45, 68, 73, 83, 67, 79, 86, 69, 82, 89, 45, 118, 49, 0]

  /** One attached connection. A zero token means that none has been assigned yet. */
  datatype Edge = Edge(name: bytes, generation: nat, token: Id, peer: bool, limit: nat)

  datatype FloodKey = FloodKey(origin: Id, request: Id)

  function KeyOf(f: Frame): FloodKey { FloodKey(f.origin, f.request) }

  /** A discovery held back behind a challenge, or one answered with a proof. */
  datatype Parked = Parked(auth: A.State, request: Frame, ingress: bytes, expires: nat)

  datatype Router = Router(
    instance: Id, component: bytes, allowed: bool, required: bool, authConfig: A.Config,
    edges: seq<Edge>, seen: map<FloodKey, nat>, alternatives: map<FloodKey, (nat, nat)>,
    parkedIn: map<Key, Parked>, parkedOut: map<Key, Parked>, rateEpoch: nat, challenges: nat, dropped: nat)

  /** Why a frame left the router. */
  datatype Cause = Relay | Refusal | Answer | Spread | Demand | Proof

  datatype Out = Sent(edge: bytes, frame: Frame, cause: Cause) | Delivered(frame: Frame, cause: Cause)

  /** `ok` is false when encoding threw and the rest of the call was abandoned. */
  datatype Effect = Effect(router: Router, outs: seq<Out>, ok: bool)

  /** What the surroundings contribute to a step: the clock, fresh randomness, the
      cryptography and the connections that take a datagram at this moment. */
  datatype Env = Env(now: nat, token: Id, entropy: Option<Key>, crypto: A.Crypto, up: set<bytes>)

  function Drop(r: Router): Effect {
    Effect(r.(dropped := r.dropped + 1), [], true)
  }

  // ---------------------------------------------------------------- routing

  predicate Matches(e: Edge, hop: Hop) {
    || (hop.kind.PeerHop? && e.peer)
    || (hop.kind.PortHop? && !e.peer && e.name == hop.value)
    || (hop.kind.LinkHop? && Link(e.token) == hop)
  }

  /** The first edge, in name order, that a hop designates. */
  function Resolve(edges: seq<Edge>, hop: Hop): (r: Option<Edge>)
    ensures r.Some? ==> r.value in edges && Matches(r.value, hop)
    ensures r.None? ==> forall e :: e in edges ==> !Matches(e, hop)
  {
    if edges == [] then None
    else if Matches(edges[0], hop) then Some(edges[0])
    else Resolve(edges[1..], hop)
  }

  /** Kinds whose failure is never reported back. */
  predicate Quiet(k: Kind) {
    k.Challenge? || k.RouteError? || k.Reply? || k.Confirmed? || k.Found? || k.AltPath?
  }

  function Popped(f: Frame): Frame
    requires f.destination != [] && f.remaining > 0
  {
    f.(destination := f.destination[1..], remaining := f.remaining - 1)
  }

  function Reject(r: Router, f: Frame, reason: bytes, up: set<bytes>): Effect
    decreases if Quiet(f.kind) then 0 else 1, 0
  {
    if Quiet(f.kind) then Drop(r)
    else Route(r, Response(f, RouteError, reason), Refusal, up)
  }

  function Route(r: Router, f: Frame, cause: Cause, up: set<bytes>): Effect
    decreases if Quiet(f.kind) then 0 else 1, 1
  {
    if !r.allowed then Drop(r)
    else if f.destination == [] then Effect(r, [Delivered(f, cause)], true)
    else match Resolve(r.edges, f.destination[0])
      case None => Reject(r, f, Text("target_not_found"), up)
      case Some(e) =>
        if f.remaining <= 1 then Reject(r, f, Text("hop_limit"), up)
        else
          var next := Popped(f);
          if !Encodable(next) then Effect(r, [], false)
          else if EncodedSize(next) > e.limit then Reject(r, next, Text("path_mtu_exceeded"), up)
          else if e.name in up then Effect(r, [Sent(e.name, next, cause)], true)
          else Drop(r)
  }

  // ---------------------------------------------------------------- discovery

  /** `%`, `/` and tab are escaped inside a traced port name. */
  function Escape(name: bytes): bytes {
    if name == [] then []
    else
      var b := name[0];
      (if b == 0x25 || b == 0x2f || b == 0x09 then Text("%") + [UpperHex(b / 16), UpperHex(b % 16)] else [b])
      + Escape(name[1..])
  }

  function UpperHex(n: int): byte
    requires 0 <= n < 16
  {
    if n < 10 then 0x30 + n else 0x37 + n
  }

  function HopTo(e: Edge): Hop {
    if e.peer then Peer() else Port(e.name)
  }

  function Trace(command: bytes, e: Edge): bytes {
    command + (if command == [] then [] else Text("/"))
        + (if e.peer then Text("peer") else Text("port:") + Escape(e.name))
  }

  /** The request as it goes on through one more connection: without proof, since every
      next node must issue its own challenge. */
  function Branch(f: Frame, e: Edge): Frame {
    f.(auth := [], destination := [HopTo(e)], command := Trace(f.command, e))
  }

  function Canonical(f: Frame): Option<bytes> {
    if Encodable(DiscoveryCore(f)) then Some(DISCOVERY_LABEL + FrameBytes(DiscoveryCore(f))) else None
  }

  function SelfDescription(r: Router): bytes {
    Text(HexText(r.instance)) + Text("\t") + r.component + Text("\t")
    + Text(if r.allowed then "control,discover" else "local") + Text("\n")
  }

  function SpreadOne(r: Router, f: Frame, e: Edge, up: set<bytes>): Effect {
    var next := Branch(f, e);
    if |next.command| > 256 then Reject(r, f, Text("discovery_path_limit"), up)
    else Route(r, next, Spread, up)
  }

  /** Sends the request on through every edge but the one it came in by. */
  function FanOut(r: Router, f: Frame, ingress: bytes, edges: seq<Edge>, up: set<bytes>): Effect
    decreases |edges|
  {
    if edges == [] then Effect(r, [], true)
    else if edges[0].name == ingress then FanOut(r, f, ingress, edges[1..], up)
    else
      var one := SpreadOne(r, f, edges[0], up);
      if !one.ok then one
      else
        var rest := FanOut(one.router, f, ingress, edges[1..], up);
        Effect(rest.router, one.outs + rest.outs, rest.ok)
  }

  /** The quota of repeated answers per request and second. */
  function Quota(r: Router, key: FloodKey, now: nat): (nat, nat) {
    var q := if key in r.alternatives then r.alternatives[key] else (0, 0);
    if now >= q.0 then (now + SECOND, 1) else (q.0, q.1 + 1)
  }

  /** Answers a request whose (origin, request) pair is recorded, protected by the
      parked session if it was proved. */
  function AnswerTo(r: Router, f: Frame, kind: Kind, session: Option<Key>, env: Env): (Router, Frame, bool) {
    var answer := Response(f, kind, SelfDescription(r));
    if session.None? || session.value !in r.parkedIn then (r, answer, true)
    else match Canonical(answer)
      case None => (r, answer, false)
      case Some(message) =>
        var parked := r.parkedIn[session.value];
        var signed := A.Protect(env.crypto, parked.auth, f.request, message, true);
        (r.(parkedIn := r.parkedIn[session.value := parked.(auth := signed.0)]), answer.(auth := signed.1), true)
  }

  /** The part of discovery that follows any authentication. */
  function Flood(r: Router, f: Frame, ingress: bytes, session: Option<Key>, env: Env): Effect {
    var key := KeyOf(f);
    if key !in r.seen then
      if |r.seen| >= SEEN_LIMIT then Reject(r, f, Text("discovery_busy"), env.up)
      else
        var claimed := r.(seen := r.seen[key := env.now + SEEN_LIFE]);
        var a := AnswerTo(claimed, f, Found, session, env);
        if !a.2 then Effect(a.0, [], false)
        else
          var answered := Route(a.0, a.1, Answer, env.up);
          if !answered.ok then answered
          else
            var rest := FanOut(answered.router, f, ingress, answered.router.edges, env.up);
            Effect(rest.router, answered.outs + rest.outs, rest.ok)
    else
      var quota := Quota(r, key, env.now);
      var counted := r.(alternatives := r.alternatives[key := quota]);
      if quota.1 > ALTERNATIVES_PER_SECOND then Drop(counted)
      else
        var a := AnswerTo(counted, f, AltPath, session, env);
        if !a.2 then Effect(a.0, [], false) else Route(a.0, a.1, Answer, env.up)
  }

  /** The challenge budget starts anew every second. */
  function Paced(r: Router, now: nat): Router {
    if now >= r.rateEpoch then r.(rateEpoch := now + SECOND, challenges := 0) else r
  }

  /** Holds a frame back behind a new challenge, and sends the challenge. */
  function Park(r: Router, f: Frame, ingress: bytes, env: Env): Effect {
    var issued := A.IssueChallenge(env.crypto, A.Initial(r.authConfig, f.origin), f.request, READ_CAPABILITY, env.now,
                                   env.entropy);
    match A.DecodeChallenge(issued.1)
    case None => Effect(r, [], true)
    case Some(c) =>
      if c.n in r.parkedIn then Effect(r, [], true)
      else
        var parked := Parked(issued.0, f, ingress, env.now + SEEN_LIFE);
        Route(r.(parkedIn := r.parkedIn[c.n := parked]), Response(f, Kind.Challenge, issued.1), Demand, env.up)
  }

  /** An unproved remote request: hold the frame back and demand a proof. */
  function DemandProof(r: Router, f: Frame, ingress: bytes, env: Env): Effect {
    var paced := Paced(r, env.now);
    if paced.challenges >= CHALLENGES_PER_SECOND || |paced.parkedIn| >= SESSION_LIMIT then Effect(paced, [], true)
    else Park(paced.(challenges := paced.challenges + 1), f, ingress, env)
  }

  /** The parked session that a proof packet addresses. */
  function Addressed(r: Router, f: Frame): Option<Key> {
    if |f.auth| != PROOF_SIZE || f.auth[..32] !in r.parkedIn then None
    else
      var original := r.parkedIn[f.auth[..32]].request;
      if f.origin == original.origin && f.request == original.request && f.command == original.command
      then Some(f.auth[..32]) else None
  }

  /** The outcome of checking a proof: the session state moves on, and it may verify. */
  function Checked(r: Router, f: Frame, n: Key, message: bytes, env: Env): (Router, bool)
    requires n in r.parkedIn
  {
    var parked := r.parkedIn[n];
    var v := A.Verify(env.crypto, parked.auth, f.request, message, f.auth, READ_CAPABILITY);
    (r.(parkedIn := r.parkedIn[n := parked.(auth := v.0)]), v.1.Some?)
  }

  function Prove(r: Router, f: Frame, env: Env): Effect {
    match Addressed(r, f)
    case None => Effect(r, [], true)
    case Some(n) =>
      match Canonical(f)
      case None => Effect(r, [], false)
      case Some(message) =>
        var checked := Checked(r, f, n, message, env);
        if !checked.1 then Effect(checked.0, [], true)
        else
          // Continue the original branch, not the proof packet's routing fields.
          Flood(checked.0, r.parkedIn[n].request, r.parkedIn[n].ingress, Some(n), env)
  }

  function DiscoverRemote(r: Router, f: Frame, ingress: bytes, env: Env): Effect {
    if !r.required && f.auth == [] then Flood(r, f, ingress, None, env)
    else if f.auth == [] then DemandProof(r, f, ingress, env)
    else Prove(r, f, env)
  }

  // ---------------------------------------------------------------- inputs

  function Unexpired(sessions: map<Key, Parked>, now: nat): map<Key, Parked> {
    map n | n in sessions && now < sessions[n].expires :: sessions[n]
  }

  function Tick(r: Router, now: nat): Router {
    r.(parkedIn := Unexpired(r.parkedIn, now), parkedOut := Unexpired(r.parkedOut, now),
       seen := map k | k in r.seen && now < r.seen[k] :: r.seen[k],
       alternatives := map k | k in r.alternatives && (k in r.seen ==> now < r.seen[k]) :: r.alternatives[k])
  }

  /** Index of the edge with a given name, or the number of edges. */
  function IndexOf(edges: seq<Edge>, name: bytes): (i: nat)
    ensures i <= |edges|
    ensures i < |edges| ==> edges[i].name == name
    ensures forall j :: 0 <= j < i ==> edges[j].name != name
  {
    if edges == [] then 0 else if edges[0].name == name then 0 else 1 + IndexOf(edges[1..], name)
  }

  /** The edge's token, assigned on first use, and the router that remembers it. */
  function WithToken(r: Router, i: nat, token: Id): Router
    requires i < |r.edges|
  {
    if r.edges[i].token != ZERO_ID then r
    else r.(edges := r.edges[i := r.edges[i].(token := token)])
  }

  /** A decoded frame arriving on a connection. The ingress comes from the transport. */
  function Receive(r: Router, ingress: bytes, f: Frame, env: Env): Effect {
    var i := IndexOf(r.edges, ingress);
    if !r.allowed || i == |r.edges| then Drop(r)
    else if |f.replyPath| >= MAX_HOPS then Reject(r, f, Text("reply_path_limit"), env.up)
    else
      var known := WithToken(r, i, env.token);
      var pushed := f.(replyPath := [Link(known.edges[i].token)] + f.replyPath);
      var ticked := Tick(known, env.now);
      if pushed.kind.Discover? && pushed.destination == [] then DiscoverRemote(ticked, pushed, ingress, env)
      else Route(ticked, pushed, Relay, env.up)
  }

  /** Arrival of raw bytes. */
  ghost function ReceiveBytes(r: Router, ingress: bytes, b: bytes, env: Env): Effect {
    if !r.allowed || Decoded(b).None? then Drop(r) else Receive(r, ingress, Decoded(b).value, env)
  }

  function Send(r: Router, f: Frame, env: Env): Effect {
    Route(Tick(r, env.now), f, Relay, env.up)
  }

  function DiscoveryFrame(origin: Id, request: Id, command: bytes, destination: Path): Frame {
    Frame(Discover, 0, MAX_HOPS, request, origin, 0, 0, destination, [], command, [], [])
  }

  /** `begin_discovery` without a path: the local root of a flood. */
  function BeginDiscovery(r: Router, request: Id, env: Env): Effect {
    if !r.allowed then Effect(r, [], false)
    else Flood(Tick(r, env.now), DiscoveryFrame(r.instance, request, [], []), [], None, env)
  }

  /** The originator proves itself to a node that challenged its discovery. */
  function AnswerChallenge(r0: Router, f: Frame, env: Env): (Effect, bool) {
    var r := Tick(r0, env.now);
    if !r.allowed || r.authConfig.signing == [] || f.origin != r.instance || !f.kind.Challenge?
       || |r.parkedOut| >= SESSION_LIMIT then (Effect(r, [], true), false)
    else match A.DecodeChallenge(f.data)
      case None => (Effect(r, [], true), false)
      case Some(c) =>
        if c.n in r.parkedOut then (Effect(r, [], true), false)
        else
          var accepted := A.AcceptChallenge(env.crypto, A.Initial(r.authConfig, f.origin), f.request, f.data, env.now);
          if !accepted.1 then (Effect(r, [], true), false)
          else
            var bare := DiscoveryFrame(f.origin, f.request, f.command, f.replyPath);
            match Canonical(bare)
            case None => (Effect(r, [], false), false)
            case Some(message) =>
              var signed := A.Protect(env.crypto, accepted.0, f.request, message, false);
              var proof := bare.(auth := signed.1);
              var parked := r.(parkedOut := r.parkedOut[c.n := Parked(signed.0, proof, [], env.now + SEEN_LIFE)]);
              (Route(parked, proof, Proof, env.up), true)
  }

  /** Whether an answer to one's own discovery may be believed. */
  function VerifyAnswer(r0: Router, f: Frame, env: Env): (Router, bool) {
    var r := Tick(r0, env.now);
    if !r.allowed || !(f.kind.Found? || f.kind.AltPath?) then (r, false)
    else if f.auth == [] then (r, !r.required && r.authConfig.signing == [])
    else if |f.auth| != PROOF_SIZE || f.auth[..32] !in r.parkedOut then (r, false)
    else
      var n := f.auth[..32];
      var parked := r.parkedOut[n];
      if f.origin != parked.request.origin || f.request != parked.request.request || f.command != parked.request.command
      then (r, false)
      else match Canonical(f)
        case None => (r, false)
        case Some(message) =>
          var v := A.VerifyReply(env.crypto, parked.auth, f.request, message, f.auth);
          (r.(parkedOut := r.parkedOut[n := parked.(auth := v.0)]), v.1)
  }

  // ---------------------------------------------------------------- edges

  /** Byte order of names, as the source's ordered map keeps them. */
  predicate Before(a: bytes, b: bytes) {
    b != [] && (a == [] || a[0] < b[0] || (a[0] == b[0] && Before(a[1..], b[1..])))
  }

  predicate Ordered(edges: seq<Edge>) {
    forall i, j :: 0 <= i < j < |edges| ==> Before(edges[i].name, edges[j].name)
  }

  function Upsert(edges: seq<Edge>, e: Edge): seq<Edge> {
    if edges == [] then [e]
    else if edges[0].name == e.name then [e] + edges[1..]
    else if Before(e.name, edges[0].name) then [e] + edges
    else [edges[0]] + Upsert(edges[1..], e)
  }

  function Remove(edges: seq<Edge>, name: bytes): seq<Edge> {
    if edges == [] then []
    else if edges[0].name == name then edges[1..]
    else [edges[0]] + Remove(edges[1..], name)
  }

  /** A changed generation is a new connection: it starts without a token. */
  function Reattached(edges: seq<Edge>, name: bytes, generation: nat, peer: bool, limit: nat): seq<Edge> {
    if generation == 0 then Remove(edges, name)
    else
      var i := IndexOf(edges, name);
      if i == |edges| || edges[i].generation != generation
        then Upsert(edges, Edge(name, generation, ZERO_ID, peer, limit))
      else edges[i := edges[i].(limit := limit)]
  }

  function SetEdge(r: Router, name: bytes, generation: nat, peer: bool, limit: nat): Router {
    r.(edges := Reattached(r.edges, name, generation, peer, limit))
  }
}
