/** The router as the object it is (src/control_router.hpp): a table of connections, maps of
    remembered floods and held-back requests, and methods that change them in place and
    hand frames to the connections. Every method is proved against the functions of
    `ControlRouter`, about which the theorems speak. */
module RouterObject {
  import opened Bytes
  import opened ControlRoute
  import R = ControlRouter
  import A = ControlAuth
  import E = EdgeTable

  /** A held-back or answered discovery, other than those of one request. */
  function Unreleased(sessions: map<Key, R.Parked>, request: Id): map<Key, R.Parked> {
    map n | n in sessions && sessions[n].request.request != request :: sessions[n]
  }

  /** The edges whose names are to stay, in order. */
  function Retained(edges: seq<R.Edge>, names: set<bytes>): seq<R.Edge> {
    if edges == [] then [] else (if edges[0].name in names then [edges[0]] else []) + Retained(edges[1..], names)
  }

  lemma {:induction false} RetainedAppend(edges: seq<R.Edge>, e: R.Edge, names: set<bytes>)
    ensures Retained(edges + [e], names) == Retained(edges, names) + (if e.name in names then [e] else [])
  {
    if edges == [] {
      assert edges + [e] == [e] && [e][1..] == [];
    } else {
      assert (edges + [e])[1..] == edges[1..] + [e];
      RetainedAppend(edges[1..], e, names);
      Assoc(if edges[0].name in names then [edges[0]] else [], Retained(edges[1..], names),
            if e.name in names then [e] else []);
    }
  }

  /** Retaining keeps the order and exactly the named edges. */
  lemma {:induction false} RetainedIsExact(edges: seq<R.Edge>, names: set<bytes>)
    requires R.Ordered(edges)
    ensures R.Ordered(Retained(edges, names))
    ensures forall e :: e in Retained(edges, names) <==> e in edges && e.name in names
  {
    hide R.Ordered, R.Before;
    if edges == [] {
    } else {
      var head, rest := edges[0], edges[1..];
      assert edges == [head] + rest;
      E.ConsOrdered(head, rest);
      RetainedIsExact(rest, names);
      if head.name in names {
        E.ConsOrdered(head, Retained(rest, names));
      } else {
        assert Retained(edges, names) == Retained(rest, names);
      }
    }
  }

  lemma {:induction false} EscapeAppend(name: bytes, b: byte)
    ensures R.Escape(name + [b]) == R.Escape(name) + R.Escape([b])
  {
    if name == [] {
      assert name + [b] == [b];
    } else {
      assert (name + [b])[1..] == name[1..] + [b];
      EscapeAppend(name[1..], b);
      Assoc(R.Escape([name[0]]), R.Escape(name[1..]), R.Escape([b]));
      assert [name[0]][1..] == [];
    }
  }

  /** `escape`: percent-escapes the characters that structure a traced path. */
  method EscapeName(name: bytes) returns (out: bytes)
    ensures out == R.Escape(name)
  {
    out := [];
    for i := 0 to |name|
      invariant out == R.Escape(name[..i])
    {
      EscapeAppend(name[..i], name[i]);
      assert name[..i + 1] == name[..i] + [name[i]] && [name[i]][1..] == [];
      var c := name[i];
      if c == 0x25 || c == 0x2f || c == 0x09 {
        out := out + (Text("%") + [R.UpperHex(c / 16), R.UpperHex(c % 16)]);
      } else {
        out := out + [c];
      }
    }
    assert name[..|name|] == name;
  }

  /** Erases while iterating the sessions whose time has come. */
  method EraseExpired(sessions: map<Key, R.Parked>, now: nat) returns (left: map<Key, R.Parked>)
    ensures left == R.Unexpired(sessions, now)
  {
    left := sessions;
    var todo := sessions.Keys;
    while todo != {}
      invariant todo <= sessions.Keys
      invariant forall n :: n in left <==> n in sessions && (n in todo || now < sessions[n].expires)
      invariant forall n :: n in left ==> left[n] == sessions[n]
      decreases |todo|
    {
      var n :| n in todo;
      if now >= sessions[n].expires { left := left - {n}; }
      todo := todo - {n};
    }
    assert left == R.Unexpired(sessions, now);
  }

  /** Forgets floods whose time has come, and with each the quota of repeated answers. */
  method Forget(seen: map<R.FloodKey, nat>, alternatives: map<R.FloodKey, (nat, nat)>, now: nat)
    returns (left: map<R.FloodKey, nat>, quotas: map<R.FloodKey, (nat, nat)>)
    ensures left == map k | k in seen && now < seen[k] :: seen[k]
    ensures quotas == map k | k in alternatives && (k in seen ==> now < seen[k]) :: alternatives[k]
  {
    left, quotas := seen, alternatives;
    var todo := seen.Keys;
    while todo != {}
      invariant todo <= seen.Keys
      invariant forall k :: k in left <==> k in seen && (k in todo || now < seen[k])
      invariant forall k :: k in left ==> left[k] == seen[k]
      invariant forall k :: k in quotas <==> k in alternatives && (k in seen && k !in todo ==> now < seen[k])
      invariant forall k :: k in quotas ==> quotas[k] == alternatives[k]
      decreases |todo|
    {
      var k :| k in todo;
      if now >= seen[k] { quotas, left := quotas - {k}, left - {k}; }
      todo := todo - {k};
    }
  }

  class Router {
    const instance: Id
    const component: bytes
    const allowed: bool
    const required: bool
    const authConfig: A.Config
    var edges: seq<R.Edge>
    var seen: map<R.FloodKey, nat>
    var alternatives: map<R.FloodKey, (nat, nat)>
    var parkedIn: map<Key, R.Parked>
    var parkedOut: map<Key, R.Parked>
    var rateEpoch: nat
    var challenges: nat
    var dropped: nat
    /** Everything handed to a connection or to the application, in order. */
    var log: seq<R.Out>

    ghost function State(): R.Router
      reads this
    {
      R.Router(instance, component, allowed, required, authConfig, edges, seen, alternatives, parkedIn, parkedOut,
               rateEpoch, challenges, dropped)
    }

    /** The object did what the effect says, starting from `before` and a log. */
    ghost predicate Did(before: seq<R.Out>, e: R.Effect, ok: bool)
      reads this
    {
      State() == e.router && log == before + e.outs && ok == e.ok
    }

    constructor (instance: Id, component: bytes, allowed: bool, required: bool, authConfig: A.Config)
      ensures State() == R.Router(instance, component, allowed, required, authConfig, [], map[], map[], map[], map[],
                                  0, 0, 0)
      ensures log == []
    {
      this.instance, this.component, this.allowed, this.required, this.authConfig := instance, component, allowed,
          required, authConfig;
      edges, seen, alternatives, parkedIn, parkedOut := [], map[], map[], map[], map[];
      rateEpoch, challenges, dropped, log := 0, 0, 0, [];
    }

    /** `resolve`: the first edge, in name order, that a hop designates. */
    method Resolve(hop: Hop) returns (found: Option<R.Edge>)
      ensures found == R.Resolve(edges, hop)
    {
      for i := 0 to |edges|
        invariant R.Resolve(edges, hop) == R.Resolve(edges[i..], hop)
      {
        assert edges[i..][1..] == edges[i + 1..];
        if R.Matches(edges[i], hop) { return Some(edges[i]); }
      }
      return None;
    }

    method Reject(f: Frame, reason: bytes, up: set<bytes>) returns (ok: bool)
      modifies `dropped, `log
      ensures Did(old(log), R.Reject(old(State()), f, reason, up), ok)
      decreases if R.Quiet(f.kind) then 0 else 1, 0
    {
      if R.Quiet(f.kind) {
        dropped := dropped + 1;
        return true;
      }
      ok := Route(Response(f, RouteError, reason), R.Refusal, up);
    }

    method Route(f: Frame, cause: R.Cause, up: set<bytes>) returns (ok: bool)
      modifies `dropped, `log
      ensures Did(old(log), R.Route(old(State()), f, cause, up), ok)
      decreases if R.Quiet(f.kind) then 0 else 1, 1
    {
      hide FrameBytes, Encodable, EncodedSize, Text, R.Reject;
      if !allowed {
        dropped := dropped + 1;
        return true;
      }
      if f.destination == [] {
        log := log + [R.Delivered(f, cause)];
        return true;
      }
      var edge := Resolve(f.destination[0]);
      if edge.None? {
        ok := Reject(f, Text("target_not_found"), up);
        return;
      }
      if f.remaining <= 1 {
        ok := Reject(f, Text("hop_limit"), up);
        return;
      }
      var next := R.Popped(f);
      var image := Encode(next);
      if image.None? { return false; }
      ImageSize(next);
      if |image.value| > edge.value.limit {
        ok := Reject(next, Text("path_mtu_exceeded"), up);
      } else if edge.value.name in up {
        log := log + [R.Sent(edge.value.name, next, cause)];
        return true;
      } else {
        dropped := dropped + 1;
        return true;
      }
    }

    /** `edge`: attach, renew or detach a connection. */
    method SetEdge(name: bytes, generation: nat, peer: bool, limit: nat)
      modifies `edges
      ensures State() == R.SetEdge(old(State()), name, generation, peer, limit)
    {
      if generation == 0 {
        edges := R.Remove(edges, name);
        return;
      }
      var i := R.IndexOf(edges, name);
      if i == |edges| || edges[i].generation != generation {
        edges := R.Upsert(edges, R.Edge(name, generation, ZERO_ID, peer, limit));
      } else {
        edges := edges[i := edges[i].(limit := limit)];
      }
    }

    /** `retain`: keeps the named connections only. */
    method Retain(names: set<bytes>)
      modifies `edges
      ensures State() == old(State()).(edges := Retained(old(edges), names))
    {
      var kept := [];
      for i := 0 to |edges|
        invariant edges == old(edges) && kept == Retained(edges[..i], names)
      {
        RetainedAppend(edges[..i], edges[i], names);
        assert edges[..i + 1] == edges[..i] + [edges[i]];
        if edges[i].name in names { kept := kept + [edges[i]]; }
      }
      assert edges[..|edges|] == edges;
      edges := kept;
    }

    method Tick(now: nat)
      modifies `parkedIn, `parkedOut, `seen, `alternatives
      ensures State() == R.Tick(old(State()), now)
    {
      parkedIn := EraseExpired(parkedIn, now);
      parkedOut := EraseExpired(parkedOut, now);
      seen, alternatives := Forget(seen, alternatives, now);
    }

    /** `release_discovery`: ends the proofs given for a request. */
    method ReleaseDiscovery(request: Id)
      modifies `parkedOut
      ensures State() == old(State()).(parkedOut := Unreleased(old(parkedOut), request))
    {
      var all := parkedOut;
      var todo := all.Keys;
      while todo != {}
        invariant todo <= all.Keys
        invariant forall n :: n in parkedOut <==> n in all && (n in todo || all[n].request.request != request)
        invariant forall n :: n in parkedOut ==> parkedOut[n] == all[n]
        decreases |todo|
      {
        var n :| n in todo;
        if all[n].request.request == request { parkedOut := parkedOut - {n}; }
        todo := todo - {n};
      }
      assert parkedOut == Unreleased(all, request);
    }

    // ---------------------------------------------------------------- discovery

    /** The trace of the path so far, extended by one connection. */
    method Extended(command: bytes, e: R.Edge) returns (r: bytes)
      ensures r == R.Trace(command, e)
    {
      if e.peer {
        r := command + (if command == [] then [] else Text("/")) + Text("peer");
      } else {
        var name := EscapeName(e.name);
        r := command + (if command == [] then [] else Text("/")) + (Text("port:") + name);
      }
    }

    method SpreadOne(f: Frame, e: R.Edge, up: set<bytes>) returns (ok: bool)
      modifies `dropped, `log
      ensures Did(old(log), R.SpreadOne(old(State()), f, e, up), ok)
    {
      hide R.Route, R.Reject, R.Trace, Text;
      var command := Extended(f.command, e);
      var next := f.(auth := [], destination := [R.HopTo(e)], command := command);
      if |next.command| > 256 {
        ok := Reject(f, Text("discovery_path_limit"), up);
      } else {
        ok := Route(next, R.Spread, up);
      }
    }

    /** The fan-out loop over the connections, in name order. */
    method FanOut(f: Frame, ingress: bytes, up: set<bytes>) returns (ok: bool)
      modifies `dropped, `log
      ensures Did(old(log), R.FanOut(old(State()), f, ingress, old(edges), up), ok)
    {
      hide R.SpreadOne;
      var i := 0;
      ok := true;
      while i < |edges|
        invariant 0 <= i <= |edges| && ok
        invariant var all := R.FanOut(old(State()), f, ingress, edges, up);
                  var rest := R.FanOut(State(), f, ingress, edges[i..], up);
                  all.router == rest.router && old(log) + all.outs == log + rest.outs && all.ok == rest.ok
        decreases |edges| - i
      {
        assert edges[i..][0] == edges[i] && edges[i..][1..] == edges[i + 1..];
        if edges[i].name != ingress {
          ghost var before, was := State(), log;
          ok := SpreadOne(f, edges[i], up);
          ghost var one := R.SpreadOne(before, f, edges[i], up);
          if !ok { return; }
          ghost var rest := R.FanOut(one.router, f, ingress, edges[i + 1..], up);
          assert was + (one.outs + rest.outs) == (was + one.outs) + rest.outs;
        }
        i := i + 1;
      }
      assert edges[i..] == [];
    }

    /** The answer of this router, protected by the session the request was proved in. */
    method AnswerTo(f: Frame, kind: Kind, session: Option<Key>, env: R.Env) returns (answer: Frame, ok: bool)
      modifies `parkedIn
      ensures (State(), answer, ok) == R.AnswerTo(old(State()), f, kind, session, env)
    {
      hide A.Protect, R.Canonical;
      var body := Text(HexText(instance)) + Text("\t") + component + Text("\t")
                  + Text(if allowed then "control,discover" else "local") + Text("\n");
      answer, ok := Response(f, kind, body), true;
      if session.Some? && session.value in parkedIn {
        var message := R.Canonical(answer);
        if message.None? { return answer, false; }
        var parked := parkedIn[session.value];
        var signed := A.Protect(env.crypto, parked.auth, f.request, message.value, true);
        parkedIn := parkedIn[session.value := parked.(auth := signed.0)];
        answer := answer.(auth := signed.1);
      }
    }

    /** `discover`, after authentication. */
    method Flood(f: Frame, ingress: bytes, session: Option<Key>, env: R.Env) returns (ok: bool)
      modifies this
      ensures Did(old(log), R.Flood(old(State()), f, ingress, session, env), ok)
    {
      hide R.Route, R.Reject, Text, R.FanOut, R.AnswerTo;
      var key := R.KeyOf(f);
      if key !in seen {
        if |seen| >= R.SEEN_LIMIT {
          ok := Reject(f, Text("discovery_busy"), env.up);
          return;
        }
        seen := seen[key := env.now + R.SEEN_LIFE];
        ok := FloodFirst(f, ingress, session, env);
      } else {
        var quota := if key in alternatives then alternatives[key] else (0, 0);
        if env.now >= quota.0 { quota := (env.now + R.SECOND, 0); }
        quota := (quota.0, quota.1 + 1);
        alternatives := alternatives[key := quota];
        if quota.1 > R.ALTERNATIVES_PER_SECOND {
          dropped := dropped + 1;
          return true;
        }
        var answer;
        answer, ok := AnswerTo(f, AltPath, session, env);
        if ok { ok := Route(answer, R.Answer, env.up); }
      }
    }

    /** Answers once and fans out, the flood being recorded. */
    method FloodFirst(f: Frame, ingress: bytes, session: Option<Key>, env: R.Env) returns (ok: bool)
      modifies `parkedIn, `dropped, `log
      ensures var a := R.AnswerTo(old(State()), f, Found, session, env);
              if !a.2 then Did(old(log), R.Effect(a.0, [], false), ok)
              else
                var answered := R.Route(a.0, a.1, R.Answer, env.up);
                if !answered.ok then Did(old(log), answered, ok)
                else
                  var rest := R.FanOut(answered.router, f, ingress, answered.router.edges, env.up);
                  Did(old(log), R.Effect(rest.router, answered.outs + rest.outs, rest.ok), ok)
    {
      hide R.Route, R.FanOut, R.AnswerTo;
      var answer;
      answer, ok := AnswerTo(f, Found, session, env);
      if !ok { return; }
      ok := Route(answer, R.Answer, env.up);
      if !ok { return; }
      ok := FanOut(f, ingress, env.up);
    }

    /** The first half of `discover` for a request without proof. */
    method DemandProof(f: Frame, ingress: bytes, env: R.Env) returns (ok: bool)
      modifies this
      ensures Did(old(log), R.DemandProof(old(State()), f, ingress, env), ok)
    {
      hide R.Park;
      if env.now >= rateEpoch { rateEpoch, challenges := env.now + R.SECOND, 0; }
      if challenges >= R.CHALLENGES_PER_SECOND || |parkedIn| >= R.SESSION_LIMIT { return true; }
      challenges := challenges + 1;
      ok := Park(f, ingress, env);
    }

    method Park(f: Frame, ingress: bytes, env: R.Env) returns (ok: bool)
      modifies `parkedIn, `dropped, `log
      ensures Did(old(log), R.Park(old(State()), f, ingress, env), ok)
    {
      hide R.Route, A.IssueChallenge, A.DecodeChallenge;
      var issued := A.IssueChallenge(env.crypto, A.Initial(authConfig, f.origin), f.request, R.READ_CAPABILITY,
                                     env.now, env.entropy);
      var c := A.DecodeChallenge(issued.1);
      if c.None? || c.value.n in parkedIn { return true; }
      parkedIn := parkedIn[c.value.n := R.Parked(issued.0, f, ingress, env.now + R.SEEN_LIFE)];
      ok := Route(Response(f, Kind.Challenge, issued.1), R.Demand, env.up);
    }

    /** The first half of `discover` for a request with a proof. */
    method Prove(f: Frame, env: R.Env) returns (ok: bool)
      modifies this
      ensures Did(old(log), R.Prove(old(State()), f, env), ok)
    {
      hide R.Flood, R.Canonical, A.Verify;
      if |f.auth| != PROOF_SIZE { return true; }
      var n := f.auth[..32];
      if n !in parkedIn { return true; }
      var parked := parkedIn[n];
      if f.origin != parked.request.origin || f.request != parked.request.request
        || f.command != parked.request.command {
        return true;
      }
      var message := R.Canonical(f);
      if message.None? { return false; }
      var v := A.Verify(env.crypto, parked.auth, f.request, message.value, f.auth, R.READ_CAPABILITY);
      parkedIn := parkedIn[n := parked.(auth := v.0)];
      if v.1.None? { return true; }
      ok := Flood(parked.request, parked.ingress, Some(n), env);
    }

    method DiscoverRemote(f: Frame, ingress: bytes, env: R.Env) returns (ok: bool)
      modifies this
      ensures Did(old(log), R.DiscoverRemote(old(State()), f, ingress, env), ok)
    {
      hide R.Flood, R.DemandProof, R.Prove;
      if !required && f.auth == [] {
        ok := Flood(f, ingress, None, env);
      } else if f.auth == [] {
        ok := DemandProof(f, ingress, env);
      } else {
        ok := Prove(f, env);
      }
    }

    // ---------------------------------------------------------------- inputs

    /** `receive`: bytes from a connection. */
    method Receive(ingress: bytes, b: bytes, env: R.Env) returns (ok: bool)
      modifies this
      ensures Did(old(log), R.ReceiveBytes(old(State()), ingress, b, env), ok)
    {
      hide R.Receive, Decoded;
      if !allowed {
        dropped := dropped + 1;
        return true;
      }
      var frame := Decode(b);
      if frame.None? {
        dropped := dropped + 1;
        return true;
      }
      ok := ReceiveFrame(ingress, frame.value, env);
    }

    method ReceiveFrame(ingress: bytes, frame: Frame, env: R.Env) returns (ok: bool)
      requires allowed
      modifies this
      ensures Did(old(log), R.Receive(old(State()), ingress, frame, env), ok)
    {
      hide R.Route, R.Reject, Text, R.DiscoverRemote, R.Tick, R.IndexOf;
      var f := frame;
      var i := R.IndexOf(edges, ingress);
      if i == |edges| {
        dropped := dropped + 1;
        return true;
      }
      if |f.replyPath| >= MAX_HOPS {
        ok := Reject(f, Text("reply_path_limit"), env.up);
        return;
      }
      if edges[i].token == ZERO_ID { edges := edges[i := edges[i].(token := env.token)]; }
      f := f.(replyPath := [Link(edges[i].token)] + f.replyPath);
      Tick(env.now);
      if f.kind.Discover? && f.destination == [] {
        ok := DiscoverRemote(f, ingress, env);
      } else {
        ok := Route(f, R.Relay, env.up);
      }
    }

    method Send(f: Frame, env: R.Env) returns (ok: bool)
      modifies this
      ensures Did(old(log), R.Send(old(State()), f, env), ok)
    {
      hide R.Route, R.Tick;
      Tick(env.now);
      ok := Route(f, R.Relay, env.up);
    }

    /** `begin_discovery` without a path; `request` is the fresh identifier drawn for it. */
    method BeginDiscovery(request: Id, env: R.Env) returns (ok: bool)
      modifies this
      ensures Did(old(log), R.BeginDiscovery(old(State()), request, env), ok)
    {
      hide R.Flood, R.Tick;
      if !allowed { return false; }
      Tick(env.now);
      assert State().allowed by { TickKeeps(old(State()), env.now); }
      ok := Flood(R.DiscoveryFrame(instance, request, [], []), [], None, env);
    }

    /** `answer_discovery_challenge`. */
    method AnswerChallenge(f: Frame, env: R.Env) returns (ok: bool, answered: bool)
      modifies this
      ensures var a := R.AnswerChallenge(old(State()), f, env); Did(old(log), a.0, ok) && answered == a.1
    {
      hide R.Route, R.Tick, R.Canonical, A.AcceptChallenge, A.Protect, A.DecodeChallenge;
      Tick(env.now);
      TickKeeps(old(State()), env.now);
      if !allowed || authConfig.signing == [] || f.origin != instance || !f.kind.Challenge?
        || |parkedOut| >= R.SESSION_LIMIT {
        return true, false;
      }
      var c := A.DecodeChallenge(f.data);
      if c.None? || c.value.n in parkedOut { return true, false; }
      var accepted := A.AcceptChallenge(env.crypto, A.Initial(authConfig, f.origin), f.request, f.data, env.now);
      if !accepted.1 { return true, false; }
      var proof := R.DiscoveryFrame(f.origin, f.request, f.command, f.replyPath);
      var message := R.Canonical(proof);
      if message.None? { return false, false; }
      var signed := A.Protect(env.crypto, accepted.0, f.request, message.value, false);
      proof := proof.(auth := signed.1);
      parkedOut := parkedOut[c.value.n := R.Parked(signed.0, proof, [], env.now + R.SEEN_LIFE)];
      ok := Route(proof, R.Proof, env.up);
      answered := true;
    }

    /** `verify_discovery_answer`. */
    method VerifyAnswer(f: Frame, env: R.Env) returns (believed: bool)
      modifies this
      ensures (State(), believed) == R.VerifyAnswer(old(State()), f, env) && log == old(log)
    {
      hide R.Tick, R.Canonical, A.VerifyReply;
      Tick(env.now);
      TickKeeps(old(State()), env.now);
      if !allowed || !(f.kind.Found? || f.kind.AltPath?) { return false; }
      if f.auth == [] { return !required && authConfig.signing == []; }
      if |f.auth| != PROOF_SIZE { return false; }
      var n := f.auth[..32];
      if n !in parkedOut { return false; }
      var parked := parkedOut[n];
      if f.origin != parked.request.origin || f.request != parked.request.request
        || f.command != parked.request.command {
        return false;
      }
      var message := R.Canonical(f);
      if message.None? { return false; }
      var v := A.VerifyReply(env.crypto, parked.auth, f.request, message.value, f.auth);
      parkedOut := parkedOut[n := parked.(auth := v.0)];
      return v.1;
    }
  }

  lemma ImageSize(f: Frame)
    requires Encodable(f)
    ensures AllValid(f.destination) && AllValid(f.replyPath) && |FrameBytes(f)| == EncodedSize(f)
  {
    FrameLength(f);
  }

  /** Ticking leaves the configuration alone. */
  lemma TickKeeps(r: R.Router, now: nat)
    ensures var t := R.Tick(r, now);
            t.allowed == r.allowed && t.required == r.required && t.instance == r.instance
                && t.authConfig == r.authConfig
  {
  }
}
