/** A conversation over a proved session among everything else that the two `Auth` objects
    do meanwhile (src/control_auth.hpp): the passage of time, other requests, rival
    challenges and rejected proofs leave its outcomes as they are. */
module AuthInterleaving {
  import opened Bytes
  import opened ControlAuth
  import opened AuthAgreement
  import R = AuthRuns
  import W = ReplayWindow

  /** An action of the conversation, or any operation of either party. */
  datatype Event = Talking(act: Action) | AtReceiver(op: R.Op) | AtAuthority(op: R.Op)

  function Turn(c: Crypto, t: Talk, request: Id, caps: bv64, ev: Event): Talk {
    match ev
    case Talking(act) => Act(c, t, request, caps, act).0
    case AtReceiver(op) => t.(receiver := R.Step(c, t.receiver, op).0)
    case AtAuthority(op) => t.(authority := R.Step(c, t.authority, op).0)
  }

  /** The operation does not end the receiver's session: no reset, no retirement of the
      request, no time beyond its life, no other proof accepted for the request. */
  ghost predicate SparesReceiver(c: Crypto, a: State, request: Id, n: Key, op: R.Op)
    requires n in a.incoming
  {
    match op
    case DoTick(now) => now < a.incoming[n].expires
    case DoChallenge(_, _, now, _) => now < a.incoming[n].expires
    case DoAccept(_, _, now) => now < a.incoming[n].expires
    case DoProtect(other, _, reply) => reply ==> other != request
    case DoVerify(other, _, _, _) => other != request || R.Step(c, a, op).1 == R.Principal(None)
    case DoVerifyReply(_, _, _) => true
    case DoRetire(other) => other != request
    case DoRelease(_) => true
    case DoReset => false
  }

  /** Nor does it end the authority's: other challenges are for other requests, and no other
      reply is accepted for the request. */
  ghost predicate SparesAuthority(c: Crypto, a: State, request: Id, op: R.Op)
    requires request in a.outgoing
  {
    match op
    case DoTick(now) => now < a.outgoing[request].expires
    case DoChallenge(_, _, now, _) => now < a.outgoing[request].expires
    case DoAccept(other, _, now) => other != request && now < a.outgoing[request].expires
    case DoProtect(other, _, reply) => reply || other != request
    case DoVerify(_, _, _, _) => true
    case DoVerifyReply(other, _, _) => other != request || R.Step(c, a, op).1 == R.Verdict(false)
    case DoRetire(_) => true
    case DoRelease(other) => other != request
    case DoReset => false
  }

  ghost predicate Spares(c: Crypto, t: Talk, request: Id, n: Key, ev: Event)
    requires request in t.authority.outgoing && n in t.receiver.incoming
  {
    match ev
    case Talking(_) => true
    case AtReceiver(op) => SparesReceiver(c, t.receiver, request, n, op)
    case AtAuthority(op) => SparesAuthority(c, t.authority, request, op)
  }

  // ---------------------------------------------------------------- the receiver's session

  /** The session is as it was, but for the working key that an unbound one may lose. */
  ghost predicate KeepsSession(a: State, b: State, request: Id, n: Key)
    requires n in a.incoming
  {
    && b.config == a.config && b.origin == a.origin
    && n in b.incoming && R.Settled(b.incoming[n]) == R.Settled(a.incoming[n])
    && (request in a.responding && a.responding[request] == n ==> request in b.responding && b.responding[request] == n)
  }

  lemma TickKeepsSession(a: State, request: Id, n: Key, now: nat)
    requires n in a.incoming && now < a.incoming[n].expires
    ensures KeepsSession(a, Tick(a, now), request, n) && Tick(a, now).incoming[n] == a.incoming[n]
  {
  }

  lemma ChallengeKeepsSession(c: Crypto, a: State, request: Id, n: Key, op: R.Op)
    requires n in a.incoming && (op.DoChallenge? || op.DoAccept?) && op.now < a.incoming[n].expires
    ensures KeepsSession(a, R.Step(c, a, op).0, request, n)
  {
    hide Tick, EncodeChallenge, DecodeChallenge, Derive, FirstSuiting, ChallengeFor;
    TickKeepsSession(a, request, n, op.now);
  }

  lemma ProtectKeepsSession(c: Crypto, a: State, request: Id, n: Key, op: R.Op)
    requires n in a.incoming && a.incoming[n].request == request && R.Bindings(a)
    requires op.DoProtect? && (op.reply ==> op.request != request)
    ensures KeepsSession(a, R.Step(c, a, op).0, request, n)
  {
    hide Sign;
  }

  lemma VerifyKeepsSession(c: Crypto, a: State, request: Id, n: Key, op: R.Op)
    requires n in a.incoming && a.incoming[n].request == request && request != ZERO_ID && op.DoVerify?
    requires op.request != request || R.Step(c, a, op).1 == R.Principal(None)
    ensures KeepsSession(a, R.Step(c, a, op).0, request, n)
  {
    hide W.Accept, Derive, MacTag, Authorized, ProofNumber;
    if R.Step(c, a, op).1 == R.Principal(None) {
      R.RejectedIsAlike(c, a, op.request, op.message, op.proof, op.caps);
    }
  }

  lemma ReceiverKeepsSession(c: Crypto, a: State, request: Id, n: Key, op: R.Op)
    requires n in a.incoming && a.incoming[n].request == request && request != ZERO_ID && R.Bindings(a)
    requires SparesReceiver(c, a, request, n, op)
    ensures KeepsSession(a, R.Step(c, a, op).0, request, n)
  {
    hide Tick, Verify, IssueChallenge, AcceptChallenge, Protect, Check, KeepsSession, R.Bindings;
    match op {
      case DoTick(now) => TickKeepsSession(a, request, n, now);
      case DoChallenge(_, _, _, _) => ChallengeKeepsSession(c, a, request, n, op);
      case DoAccept(_, _, _) => ChallengeKeepsSession(c, a, request, n, op);
      case DoProtect(_, _, _) => ProtectKeepsSession(c, a, request, n, op);
      case DoVerify(_, _, _, _) => VerifyKeepsSession(c, a, request, n, op);
      case DoVerifyReply(_, _, _) => OutgoingOnly(a, R.Step(c, a, op).0, request, n);
      case DoRetire(other) => RetireKeepsSession(a, request, n, other);
      case DoRelease(_) => OutgoingOnly(a, R.Step(c, a, op).0, request, n);
    }
  }

  lemma OutgoingOnly(a: State, b: State, request: Id, n: Key)
    requires n in a.incoming && b == a.(outgoing := b.outgoing)
    ensures KeepsSession(a, b, request, n)
  {
  }

  lemma RetireKeepsSession(a: State, request: Id, n: Key, other: Id)
    requires n in a.incoming && a.incoming[n].request == request && other != request
    ensures KeepsSession(a, Retire(a, other), request, n)
  {
  }

  // ---------------------------------------------------------------- the authority's session

  ghost predicate KeepsOutgoing(a: State, b: State, request: Id)
    requires request in a.outgoing
  {
    b.config == a.config && b.origin == a.origin && request in b.outgoing && b.outgoing[request] == a.outgoing[request]
  }

  lemma TickKeepsOutgoing(a: State, request: Id, now: nat)
    requires request in a.outgoing && now < a.outgoing[request].expires
    ensures KeepsOutgoing(a, Tick(a, now), request)
  {
  }

  lemma VerifyReplyKeepsOutgoing(c: Crypto, a: State, request: Id, op: R.Op)
    requires request in a.outgoing && op.DoVerifyReply?
    requires op.request != request || R.Step(c, a, op).1 == R.Verdict(false)
    ensures KeepsOutgoing(a, R.Step(c, a, op).0, request)
  {
    hide MacTag, W.Accept, ProofNumber;
    if |op.proof| == PROOF_SIZE && op.request in a.outgoing {
      RefusedIsUnchanged(a.outgoing[op.request].rx, ProofNumber(op.proof));
    }
  }

  lemma AuthorityKeepsSession(c: Crypto, a: State, request: Id, op: R.Op)
    requires request in a.outgoing && SparesAuthority(c, a, request, op)
    ensures KeepsOutgoing(a, R.Step(c, a, op).0, request)
  {
    hide Tick, Check, Sign, Derive, DecodeChallenge, EncodeChallenge, FirstSuiting, ChallengeFor, Addressed, KeyFor;
    match op {
      case DoTick(now) => TickKeepsOutgoing(a, request, now);
      case DoChallenge(_, _, now, _) => TickKeepsOutgoing(a, request, now);
      case DoAccept(_, _, now) => TickKeepsOutgoing(a, request, now);
      case DoProtect(_, _, _) =>
      case DoVerify(_, _, _, _) =>
      case DoVerifyReply(_, _, _) => VerifyReplyKeepsOutgoing(c, a, request, op);
      case DoRetire(_) =>
      case DoRelease(_) =>
    }
  }

  // ---------------------------------------------------------------- the link

  /** The parties are linked, and the receiver's entries are in order. */
  ghost predicate Talks(c: Crypto, t: Talk, request: Id, n: Key, caps: bv64) {
    Linked(c, t, request, n) && Covered(t, request, n, caps) && R.Bindings(t.receiver)
  }

  lemma ReceiverStays(c: Crypto, t: Talk, u: Talk, request: Id, n: Key, caps: bv64)
    requires Linked(c, t, request, n) && Covered(t, request, n, caps)
    requires u == t.(receiver := u.receiver) && KeepsSession(t.receiver, u.receiver, request, n)
    ensures Linked(c, u, request, n) && Covered(u, request, n, caps)
  {
    hide AllProve, W.Refines, Derive, Authorized;
  }

  lemma AuthorityStays(c: Crypto, t: Talk, u: Talk, request: Id, n: Key, caps: bv64)
    requires Linked(c, t, request, n) && Covered(t, request, n, caps)
    requires u == t.(authority := u.authority) && KeepsOutgoing(t.authority, u.authority, request)
    ensures Linked(c, u, request, n) && Covered(u, request, n, caps)
  {
    hide AllProve, W.Refines, Paired, Authorized;
  }

  lemma ActKeepsBindings(c: Crypto, t: Talk, request: Id, caps: bv64, act: Action)
    requires R.Bindings(t.receiver)
    ensures R.Bindings(Act(c, t, request, caps, act).0.receiver)
  {
    hide Verify, Protect, VerifyReply, R.Bindings;
    match act {
      case Deliver(i) =>
        if i < |t.sent| {
          R.StepKeepsBindings(c, t.receiver, R.DoVerify(request, t.sent[i].message, t.sent[i].proof, caps));
        }
      case Answer(message) => R.StepKeepsBindings(c, t.receiver, R.DoProtect(request, message, true));
      case _ =>
    }
  }

  lemma TurnTalks(c: Crypto, t: Talk, request: Id, n: Key, caps: bv64, ev: Event)
    requires Talks(c, t, request, n, caps) && Spares(c, t, request, n, ev)
    ensures Talks(c, Turn(c, t, request, caps, ev), request, n, caps)
    ensures Abstract(Turn(c, t, request, caps, ev))
            == if ev.Talking? then IdealAct(Abstract(t), ev.act).0 else Abstract(t)
  {
    hide Act, R.Step, R.Bindings, SparesReceiver, SparesAuthority, Covered, IdealAct, KeepsSession, KeepsOutgoing;
    var u := Turn(c, t, request, caps, ev);
    match ev {
      case Talking(act) =>
        ActExact(c, t, request, n, caps, act);
        ActKeepsBindings(c, t, request, caps, act);
      case AtReceiver(op) =>
        SessionRequest(c, t, request, n);
        ReceiverKeepsSession(c, t.receiver, request, n, op);
        ReceiverStays(c, t, u, request, n, caps);
        R.StepKeepsBindings(c, t.receiver, op);
      case AtAuthority(op) =>
        AuthorityKeepsSession(c, t.authority, request, op);
        AuthorityStays(c, t, u, request, n, caps);
    }
  }

  lemma SessionRequest(c: Crypto, t: Talk, request: Id, n: Key)
    requires Linked(c, t, request, n)
    ensures request != ZERO_ID && t.receiver.incoming[n].request == request
  {
  }

  // ---------------------------------------------------------------- whole runs

  ghost predicate AllSpare(c: Crypto, t: Talk, request: Id, n: Key, caps: bv64, events: seq<Event>)
    decreases |events|
  {
    events != [] ==>
      && request in t.authority.outgoing && n in t.receiver.incoming && Spares(c, t, request, n, events[0])
      && AllSpare(c, Turn(c, t, request, caps, events[0]), request, n, caps, events[1..])
  }

  /** The outcomes of the conversation, whatever lies between its actions. */
  function Verdicts(c: Crypto, t: Talk, request: Id, caps: bv64, events: seq<Event>): seq<bool>
    decreases |events|
  {
    if events == [] then []
    else
      (if events[0].Talking? then [Act(c, t, request, caps, events[0].act).1] else [])
      + Verdicts(c, Turn(c, t, request, caps, events[0]), request, caps, events[1..])
  }

  function Conversation(events: seq<Event>): seq<Action>
    decreases |events|
  {
    if events == [] then []
    else (if events[0].Talking? then [events[0].act] else []) + Conversation(events[1..])
  }

  lemma {:induction false} VerdictsExact(c: Crypto, t: Talk, request: Id, n: Key, caps: bv64, events: seq<Event>)
    requires Talks(c, t, request, n, caps) && AllSpare(c, t, request, n, caps, events)
    ensures Verdicts(c, t, request, caps, events) == IdealOutcomes(Abstract(t), Conversation(events))
    decreases |events|
  {
    hide Linked, Covered, R.Bindings, Turn, Act, IdealAct, Spares;
    if events != [] {
      var u := Turn(c, t, request, caps, events[0]);
      TurnTalks(c, t, request, n, caps, events[0]);
      VerdictsExact(c, u, request, n, caps, events[1..]);
      if events[0].Talking? {
        ActExact(c, t, request, n, caps, events[0].act);
        var script := Conversation(events);
        assert script[0] == events[0].act && script[1..] == Conversation(events[1..]);
      } else {
        assert Conversation(events) == Conversation(events[1..]);
        assert Verdicts(c, t, request, caps, events) == Verdicts(c, u, request, caps, events[1..]);
      }
    }
  }

  /** Two-party agreement in full. Two objects with any pasts complete a challenge. Then,
      among any other operations of both that do not end the session, in any conversation,
      whatever is delayed, reordered, lost or repeated, a message verifies if and only if it
      was not delivered before and fewer than 64 later ones were, and so does every reply. */
  lemma AgreementAmongOthers(c: Crypto, mine: Config, yours: Config, origin: Id, pastA: seq<R.Op>, pastR: seq<R.Op>,
                             request: Id, caps: bv64, t1: nat, t2: nat, secret: Key, events: seq<Event>)
    requires Commutes(c) && WellKeyed(c, mine)
    requires var t := Handshake(c, mine, yours, origin, pastA, pastR, request, caps, t1, t2, secret);
             t.Some? && AllSpare(c, t.value, request, c.publicKey(secret), caps, events)
    requires var t := Handshake(c, mine, yours, origin, pastA, pastR, request, caps, t1, t2, secret).value;
             request in t.authority.outgoing
             && Authorized(yours, ChallengeFor(yours, c.publicKey(secret), caps),
                           t.authority.outgoing[request].authority, caps)
    ensures var t := Handshake(c, mine, yours, origin, pastA, pastR, request, caps, t1, t2, secret).value;
            Verdicts(c, t, request, caps, events) == IdealOutcomes(Ideal(0, {}, 0, {}), Conversation(events))
  {
    hide IssueChallenge, AcceptChallenge, Linked, R.Bindings, Authorized, R.Play, AllSpare;
    var a, r := R.Play(c, mine, origin, pastA).state, R.Play(c, yours, origin, pastR).state;
    var n := c.publicKey(secret);
    var t := Handshake(c, mine, yours, origin, pastA, pastR, request, caps, t1, t2, secret).value;
    Fixed(c, mine, origin, pastA);
    Fixed(c, yours, origin, pastR);
    HandshakeLinks(c, a, r, request, caps, t1, t2, secret);
    R.RunKeepsBindings(c, yours, origin, pastR);
    R.StepKeepsBindings(c, r, R.DoChallenge(request, caps, t1, Some(secret)));
    IssuedSession(c, r, request, caps, t1, secret);
    VerdictsExact(c, t, request, n, caps, events);
  }

  /** The state of both after the challenge was issued and accepted. */
  ghost function Handshake(c: Crypto, mine: Config, yours: Config, origin: Id, pastA: seq<R.Op>, pastR: seq<R.Op>,
                           request: Id, caps: bv64, t1: nat, t2: nat, secret: Key): Option<Talk>
  {
    var a, r := R.Play(c, mine, origin, pastA).state, R.Play(c, yours, origin, pastR).state;
    var issued := IssueChallenge(c, r, request, caps, t1, Some(secret));
    var accepted := AcceptChallenge(c, a, request, issued.1, t2);
    if issued.1 != [] && accepted.1 then Some(Talk(accepted.0, issued.0, [], [], {}, {})) else None
  }

  /** Configuration and origin do not change in a run. */
  lemma {:induction false} Fixed(c: Crypto, config: Config, origin: Id, ops: seq<R.Op>)
    ensures var a := R.Play(c, config, origin, ops).state; a.config == config && a.origin == origin
  {
    hide R.Step, R.Issued, R.Accepted;
    if ops != [] {
      var before := ops[..|ops| - 1];
      Fixed(c, config, origin, before);
      StepFixed(c, R.Play(c, config, origin, before).state, ops[|ops| - 1]);
    }
  }

  lemma StepFixed(c: Crypto, a: State, op: R.Op)
    ensures R.Step(c, a, op).0.config == a.config && R.Step(c, a, op).0.origin == a.origin
  {
    hide Check, Sign, Derive, DecodeChallenge, EncodeChallenge, FirstSuiting, ChallengeFor, Addressed, KeyFor, Live,
        WithoutRequest;
  }

  lemma IssuedSession(c: Crypto, r: State, request: Id, caps: bv64, now: nat, secret: Key)
    requires IssueChallenge(c, r, request, caps, now, Some(secret)).1 != []
    ensures var after, n := IssueChallenge(c, r, request, caps, now, Some(secret)).0, c.publicKey(secret);
            after.config == r.config && n in after.incoming
                && after.incoming[n].challenge == ChallengeFor(r.config, n, caps)
  {
    hide EncodeChallenge, Live;
  }
}
