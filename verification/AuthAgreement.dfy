/** Two `Auth` objects that have completed one challenge behave as a pair of ideal
    replay-protected channels (src/control_auth.hpp). */
module AuthAgreement {
  import opened Bytes
  import opened ControlAuth
  import W = ReplayWindow

  /** Diffie-Hellman agreement, the one fact needed of X25519. */
  ghost predicate Commutes(c: Crypto) {
    forall a: Key, b: Key :: c.shared(a, c.publicKey(b)) == c.shared(b, c.publicKey(a))
  }

  /** Configured signing keys carry their own public key, as loading them sets it. */
  ghost predicate WellKeyed(c: Crypto, config: Config) {
    forall k :: k in config.signing ==> k.grant.pub == c.publicKey(k.secret)
  }

  datatype Wire = Wire(message: bytes, proof: bytes)

  /** The two parties, everything each has put on the wire, and what the other accepted. */
  datatype Talk = Talk(
    authority: State, receiver: State, sent: seq<Wire>, replies: seq<Wire>, got: set<u64>, heard: set<u64>)

  /** The authority speaks, a message arrives, the receiver answers once it has accepted
      something, an answer arrives;
      arrivals name any earlier item, so order, loss and duplication are arbitrary. */
  datatype Action = Say(message: bytes) | Deliver(i: nat) | Answer(message: bytes) | Return(j: nat)

  function Act(c: Crypto, t: Talk, request: Id, caps: bv64, act: Action): (Talk, bool) {
    match act
    case Say(message) =>
      var r := Protect(c, t.authority, request, message, false);
      if r.1 == [] then (t.(authority := r.0), false)
      else (t.(authority := r.0, sent := t.sent + [Wire(message, r.1)]), true)
    case Deliver(i) =>
      if i >= |t.sent| then (t, false)
      else
        var r := Verify(c, t.receiver, request, t.sent[i].message, t.sent[i].proof, caps);
        (t.(receiver := r.0, got := if r.1.Some? then t.got + {Number(i)} else t.got), r.1.Some?)
    case Answer(message) =>
      if t.got == {} then (t, false)
      else
        var r := Protect(c, t.receiver, request, message, true);
        if r.1 == [] then (t.(receiver := r.0), false)
        else (t.(receiver := r.0, replies := t.replies + [Wire(message, r.1)]), true)
    case Return(j) =>
      if j >= |t.replies| then (t, false)
      else
        var r := VerifyReply(c, t.authority, request, t.replies[j].message, t.replies[j].proof);
        (t.(authority := r.0, heard := if r.1 then t.heard + {Number(j)} else t.heard), r.1)
  }

  /** The sequence number of the i-th item of a direction. */
  function Number(i: nat): u64 {
    if i < U64_MAX then i + 1 else 0
  }

  // ---------------------------------------------------------------- the ideal channel pair

  datatype Ideal = Ideal(said: nat, got: set<u64>, answered: nat, heard: set<u64>)

  /** An item is taken if it was never taken before and fewer than 64 later ones were. */
  ghost predicate Timely(taken: set<u64>, num: u64) {
    num !in taken && forall m :: m in taken ==> m < num + 64
  }

  ghost function IdealAct(x: Ideal, act: Action): (Ideal, bool) {
    match act
    case Say(_) => if x.said < U64_MAX then (x.(said := x.said + 1), true) else (x, false)
    case Deliver(i) =>
      if i < x.said && Timely(x.got, Number(i)) then (x.(got := x.got + {Number(i)}), true) else (x, false)
    case Answer(_) =>
      if x.got != {} && x.answered < U64_MAX then (x.(answered := x.answered + 1), true) else (x, false)
    case Return(j) =>
      if j < x.answered && Timely(x.heard, Number(j)) then (x.(heard := x.heard + {Number(j)}), true) else (x, false)
  }

  ghost function Abstract(t: Talk): Ideal {
    Ideal(|t.sent|, t.got, |t.replies|, t.heard)
  }

  // ---------------------------------------------------------------- the link between the parties

  /** `w` is the proof with number `num` that a session key makes for its message. */
  ghost predicate Proves(c: Crypto, key: Tag, n: Key, authority: Key, w: Wire, num: u64, reply: bool) {
    var prefix := ProofPrefix(n, authority, num);
    w.proof == prefix + MacTag(c, key, w.message, prefix, reply)
  }

  ghost predicate AllProve(c: Crypto, key: Tag, n: Key, authority: Key, ws: seq<Wire>, reply: bool) {
    |ws| <= U64_MAX && forall i :: 0 <= i < |ws| ==> Proves(c, key, n, authority, ws[i], i + 1, reply)
  }

  /** Sender session `s`, receiver session `r`: same challenge, same key, matching roles. */
  ghost predicate Paired(c: Crypto, s: Session, r: Session, request: Id, origin: Id) {
    && request != ZERO_ID && r.request == request
    && s.challenge == r.challenge
    && KeyFor(c, r, s.authority, origin) == Some(s.key)
    && (r.bound ==> r.authority == s.authority)
  }

  ghost predicate Linked(c: Crypto, t: Talk, request: Id, n: Key) {
    && request in t.authority.outgoing && n in t.receiver.incoming
    && t.authority.origin == t.receiver.origin
    && t.authority.config.Enabled() && t.receiver.config.Enabled()
    && var s, r := t.authority.outgoing[request], t.receiver.incoming[n];
       && s.challenge.n == n && Paired(c, s, r, request, t.receiver.origin)
       && (r.bound <==> t.got != {})
       && (r.bound ==> request in t.receiver.responding && t.receiver.responding[request] == n)
       && |t.sent| == s.tx && AllProve(c, s.key, n, s.authority, t.sent, false)
       && |t.replies| == r.tx && AllProve(c, s.key, n, s.authority, t.replies, true)
       && W.Refines(r.rx, t.got) && W.Refines(s.rx, t.heard)
  }

  /** The receiver's grants cover what the authority will be checked for. */
  ghost predicate Covered(t: Talk, request: Id, n: Key, caps: bv64)
    requires request in t.authority.outgoing && n in t.receiver.incoming
  {
    Authorized(t.receiver.config, t.receiver.incoming[n].challenge, t.authority.outgoing[request].authority, caps)
  }

  /** Both ends derive one key from one challenge. */
  lemma SameKey(c: Crypto, secret: Key, signing: SigningKey, challenge: ChallengeData, origin: Id)
    requires Commutes(c) && signing.grant.pub == c.publicKey(signing.secret) && challenge.n == c.publicKey(secret)
    ensures Derive(c, secret, signing.grant.pub, challenge, signing.grant.pub, origin)
         == Derive(c, signing.secret, challenge.n, challenge, signing.grant.pub, origin)
  {
    assert c.shared(secret, c.publicKey(signing.secret)) == c.shared(signing.secret, c.publicKey(secret));
  }

  lemma {:induction false} FirstSuitingIsConfigured(signing: seq<SigningKey>, challenge: ChallengeData)
    ensures FirstSuiting(signing, challenge).Some? ==> FirstSuiting(signing, challenge).value in signing
  {
    if signing != [] && !Suits(signing[0], challenge) {
      FirstSuitingIsConfigured(signing[1..], challenge);
    }
  }

  lemma SignedProves(c: Crypto, s: Session, message: bytes, reply: bool)
    requires s.tx < U64_MAX
    ensures Proves(c, s.key, s.challenge.n, s.authority, Wire(message, Sign(c, s, message, reply).1), s.tx + 1, reply)
    ensures Sign(c, s, message, reply).1 != []
  {
    assert |Sign(c, s, message, reply).1| == PROOF_SIZE;
  }

  lemma AppendProves(c: Crypto, key: Tag, n: Key, authority: Key, ws: seq<Wire>, w: Wire, reply: bool)
    requires AllProve(c, key, n, authority, ws, reply) && |ws| < U64_MAX
    requires Proves(c, key, n, authority, w, |ws| + 1, reply)
    ensures AllProve(c, key, n, authority, ws + [w], reply)
  {
    hide Proves;
  }

  /** A genuine proof passes the tag comparison, so the window alone decides. */
  lemma GenuineCheck(c: Crypto, s: Session, w: Wire, n: Key, authority: Key, num: u64, reply: bool, taken: set<u64>)
    requires Proves(c, s.key, n, authority, w, num, reply) && num != 0 && W.Refines(s.rx, taken)
    ensures |w.proof| == PROOF_SIZE && w.proof[..32] == n && w.proof[32..64] == authority
    ensures var r := Check(c, s, w.message, w.proof, reply);
            && (r.0 <==> Timely(taken, num))
            && r.1 == s.(rx := r.1.rx) && W.Refines(r.1.rx, if r.0 then taken + {num} else taken)
            && (!r.0 ==> r.1 == s)
  {
    hide MacTag, W.Refines, W.Accept, ProofPrefix, ProofNumber;
    var prefix := ProofPrefix(n, authority, num);
    ProofFields(n, authority, num, MacTag(c, s.key, w.message, prefix, reply));
    W.AcceptRefines(s.rx, taken, num);
    TimelyIsAdmissible(s.rx, taken, num);
    RefusedIsUnchanged(s.rx, num);
  }

  lemma RefusedIsUnchanged(w: W.Window, num: u64)
    ensures !W.Accept(w, num).0 ==> W.Accept(w, num).1 == w
  {
  }

  lemma TimelyIsAdmissible(w: W.Window, taken: set<u64>, num: u64)
    requires W.Refines(w, taken) && num != 0
    ensures Timely(taken, num) <==> W.Admissible(taken, w.high, num)
  {
  }

  // ---------------------------------------------------------------- each action is exact

  lemma SayExact(c: Crypto, t: Talk, request: Id, n: Key, caps: bv64, message: bytes)
    requires Linked(c, t, request, n)
    ensures var r := Act(c, t, request, caps, Say(message)); var x := IdealAct(Abstract(t), Say(message));
            Linked(c, r.0, request, n) && r.1 == x.1 && Abstract(r.0) == x.0
  {
    hide Proves, W.Refines, KeyFor;
    var s := t.authority.outgoing[request];
    if s.tx < U64_MAX {
      SignedProves(c, s, message, false);
      AppendProves(c, s.key, n, s.authority, t.sent, Wire(message, Sign(c, s, message, false).1), false);
    } else {
      assert Act(c, t, request, caps, Say(message)).0.authority.outgoing == t.authority.outgoing;
    }
  }

  lemma AnswerExact(c: Crypto, t: Talk, request: Id, n: Key, caps: bv64, message: bytes)
    requires Linked(c, t, request, n)
    ensures var r := Act(c, t, request, caps, Answer(message)); var x := IdealAct(Abstract(t), Answer(message));
            Linked(c, r.0, request, n) && r.1 == x.1 && Abstract(r.0) == x.0
  {
    hide Proves, W.Refines;
    var r := t.receiver.incoming[n];
    if r.bound {
      var s := t.authority.outgoing[request];
      assert r.key == s.key && r.authority == s.authority;
      if r.tx < U64_MAX {
        SignedProves(c, r, message, true);
        AppendProves(c, s.key, n, s.authority, t.replies, Wire(message, Sign(c, r, message, true).1), true);
      } else {
        assert Act(c, t, request, caps, Answer(message)).0.receiver.incoming == t.receiver.incoming;
      }
    }
  }

  lemma ReturnExact(c: Crypto, t: Talk, request: Id, n: Key, caps: bv64, j: nat)
    requires Linked(c, t, request, n)
    ensures var r := Act(c, t, request, caps, Return(j)); var x := IdealAct(Abstract(t), Return(j));
            Linked(c, r.0, request, n) && r.1 == x.1 && Abstract(r.0) == x.0
  {
    hide Proves, W.Refines, KeyFor, Check, Timely;
    if j < |t.replies| {
      var s := t.authority.outgoing[request];
      GenuineCheck(c, s, t.replies[j], n, s.authority, j + 1, true, t.heard);
    }
  }

  lemma DeliverExact(c: Crypto, t: Talk, request: Id, n: Key, caps: bv64, i: nat)
    requires Linked(c, t, request, n) && Covered(t, request, n, caps)
    ensures var r := Act(c, t, request, caps, Deliver(i)); var x := IdealAct(Abstract(t), Deliver(i));
            Linked(c, r.0, request, n) && r.1 == x.1 && Abstract(r.0) == x.0 && Covered(r.0, request, n, caps)
  {
    hide Proves, W.Refines, Derive, Check, Timely, Authorized;
    if i < |t.sent| {
      var s, r := t.authority.outgoing[request], t.receiver.incoming[n];
      var keyed := r.(key := s.key);
      GenuineCheck(c, keyed, t.sent[i], n, s.authority, i + 1, false, t.got);
      assert Addressed(t.receiver, request, t.sent[i].proof, caps) == Some(r);
    }
  }

  lemma ActExact(c: Crypto, t: Talk, request: Id, n: Key, caps: bv64, act: Action)
    requires Linked(c, t, request, n) && Covered(t, request, n, caps)
    ensures var r := Act(c, t, request, caps, act); var x := IdealAct(Abstract(t), act);
            Linked(c, r.0, request, n) && r.1 == x.1 && Abstract(r.0) == x.0 && Covered(r.0, request, n, caps)
  {
    hide Linked, Authorized, Check, Verify;
    match act {
      case Say(message) => SayExact(c, t, request, n, caps, message); PolicyStays(c, t, request, n, caps, act);
      case Deliver(i) => DeliverExact(c, t, request, n, caps, i);
      case Answer(message) => AnswerExact(c, t, request, n, caps, message); PolicyStays(c, t, request, n, caps, act);
      case Return(j) => ReturnExact(c, t, request, n, caps, j); PolicyStays(c, t, request, n, caps, act);
    }
  }

  lemma PolicyStays(c: Crypto, t: Talk, request: Id, n: Key, caps: bv64, act: Action)
    requires Linked(c, t, request, n) && Covered(t, request, n, caps) && !act.Deliver?
    ensures var u := Act(c, t, request, caps, act).0;
            request in u.authority.outgoing && n in u.receiver.incoming && Covered(u, request, n, caps)
  {
    hide Authorized, MacTag, ProofPrefix, W.Accept, AllProve, Paired;
  }

  // ---------------------------------------------------------------- whole conversations

  function Outcomes(c: Crypto, t: Talk, request: Id, caps: bv64, script: seq<Action>): seq<bool>
    decreases |script|
  {
    if script == [] then []
    else
      var r := Act(c, t, request, caps, script[0]);
      [r.1] + Outcomes(c, r.0, request, caps, script[1..])
  }

  ghost function IdealOutcomes(x: Ideal, script: seq<Action>): seq<bool>
    decreases |script|
  {
    if script == [] then []
    else
      var r := IdealAct(x, script[0]);
      [r.1] + IdealOutcomes(r.0, script[1..])
  }

  lemma {:induction false} ConversationExact(c: Crypto, t: Talk, request: Id, n: Key, caps: bv64, script: seq<Action>)
    requires Linked(c, t, request, n) && Covered(t, request, n, caps)
    ensures Outcomes(c, t, request, caps, script) == IdealOutcomes(Abstract(t), script)
    decreases |script|
  {
    hide Linked, Covered, Act, IdealAct;
    if script != [] {
      ActExact(c, t, request, n, caps, script[0]);
      ConversationExact(c, Act(c, t, request, caps, script[0]).0, request, n, caps, script[1..]);
    }
  }

  /** An authority that accepts a live challenge is linked to the node that issued it. */
  lemma HandshakeLinks(c: Crypto, a: State, r: State, request: Id, caps: bv64, t1: nat, t2: nat, secret: Key)
    requires Commutes(c) && WellKeyed(c, a.config) && a.origin == r.origin
    requires var issued := IssueChallenge(c, r, request, caps, t1, Some(secret));
             issued.1 != [] && AcceptChallenge(c, a, request, issued.1, t2).1
    ensures var issued := IssueChallenge(c, r, request, caps, t1, Some(secret));
            var accepted := AcceptChallenge(c, a, request, issued.1, t2);
            Linked(c, Talk(accepted.0, issued.0, [], [], {}, {}), request, c.publicKey(secret))
  {
    hide Tick, Derive, EncodeChallenge, DecodeChallenge, Sum, Split, W.Refines, FirstSuiting;
    var issued := IssueChallenge(c, r, request, caps, t1, Some(secret));
    var n := c.publicKey(secret);
    var challenge := ChallengeFor(r.config, n, caps);
    assert Tick(r, t1).config == r.config && Tick(r, t1).origin == r.origin by { TickFrame(r, t1); }
    TickFrame(a, t2);
    assert issued.1 == EncodeChallenge(challenge);
    assert challenge.n != ZERO_KEY by {
      if n == ZERO_KEY { ZeroChallengeIsRefused(challenge); }
    }
    ChallengeRoundTrip(challenge);
    FirstSuitingIsConfigured(a.config.signing, challenge);
    var signing := FirstSuiting(a.config.signing, challenge).value;
    SameKey(c, secret, signing, challenge, a.origin);
    W.EmptyRefines();
  }

  lemma TickFrame(a: State, now: nat)
    ensures Tick(a, now).config == a.config && Tick(a, now).origin == a.origin
  {
  }

  lemma ZeroChallengeIsRefused(challenge: ChallengeData)
    requires challenge.n == ZERO_KEY
    ensures DecodeChallenge(EncodeChallenge(challenge)).None?
  {
    hide Be64, LoadBe64, ToBe, FromBe, Sum, Split;
    var parts := ChallengeParts(challenge);
    LoadStore64(challenge.caps);
    assert Lengths(parts) == CHALLENGE_LENS;
    ChallengeWidth();
    SplitJoin(parts, []);
    assert EncodeChallenge(challenge) + [] == EncodeChallenge(challenge);
  }

  /** Two-party agreement. Once the authority has accepted the receiver's challenge, in
      every conversation, whatever is delayed, reordered, lost or repeated: a message
      verifies if and only if it was not delivered before and fewer than 64 later
      messages were, and the same holds for every reply on its way back. */
  lemma Agreement(c: Crypto, a: State, r: State, request: Id, caps: bv64, t1: nat, t2: nat, secret: Key,
                  script: seq<Action>)
    requires Commutes(c) && WellKeyed(c, a.config) && a.origin == r.origin
    requires var issued := IssueChallenge(c, r, request, caps, t1, Some(secret));
             issued.1 != [] && AcceptChallenge(c, a, request, issued.1, t2).1
    requires var issued := IssueChallenge(c, r, request, caps, t1, Some(secret));
             var accepted := AcceptChallenge(c, a, request, issued.1, t2);
             request in accepted.0.outgoing
             && Authorized(r.config, ChallengeFor(r.config, c.publicKey(secret), caps),
                           accepted.0.outgoing[request].authority, caps)
    ensures var issued := IssueChallenge(c, r, request, caps, t1, Some(secret));
            var accepted := AcceptChallenge(c, a, request, issued.1, t2);
            Outcomes(c, Talk(accepted.0, issued.0, [], [], {}, {}), request, caps, script)
              == IdealOutcomes(Ideal(0, {}, 0, {}), script)
  {
    var issued := IssueChallenge(c, r, request, caps, t1, Some(secret));
    var accepted := AcceptChallenge(c, a, request, issued.1, t2);
    var t := Talk(accepted.0, issued.0, [], [], {}, {});
    HandshakeLinks(c, a, r, request, caps, t1, t2, secret);
    assert Covered(t, request, c.publicKey(secret), caps) by { TickFrame(r, t1); }
    ConversationExact(c, t, request, c.publicKey(secret), caps, script);
  }
}
