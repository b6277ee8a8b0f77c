/** What every run of one `Auth` object keeps (src/control_auth.hpp): at-most-once
    acceptance, unique bindings, and the inertness of rejected proofs. */
module AuthRuns {
  import opened Bytes
  import opened ControlAuth
  import W = ReplayWindow

  datatype Op =
    | DoTick(now: nat)
    | DoChallenge(request: Id, caps: bv64, now: nat, entropy: Option<Key>)
    | DoAccept(request: Id, challenge: bytes, now: nat)
    | DoProtect(request: Id, message: bytes, reply: bool)
    | DoVerify(request: Id, message: bytes, proof: bytes, caps: bv64)
    | DoVerifyReply(request: Id, message: bytes, proof: bytes)
    | DoRetire(request: Id)
    | DoRelease(request: Id)
    | DoReset

  datatype Answer = Nothing | Data(b: bytes) | Verdict(ok: bool) | Principal(authority: Option<Key>)

  function Step(c: Crypto, a: State, op: Op): (State, Answer) {
    match op
    case DoTick(now) => (Tick(a, now), Nothing)
    case DoChallenge(request, caps, now, entropy) =>
      var r := IssueChallenge(c, a, request, caps, now, entropy); (r.0, Data(r.1))
    case DoAccept(request, challenge, now) =>
      var r := AcceptChallenge(c, a, request, challenge, now); (r.0, Verdict(r.1))
    case DoProtect(request, message, reply) =>
      var r := Protect(c, a, request, message, reply); (r.0, Data(r.1))
    case DoVerify(request, message, proof, caps) =>
      var r := Verify(c, a, request, message, proof, caps); (r.0, Principal(r.1))
    case DoVerifyReply(request, message, proof) =>
      var r := VerifyReply(c, a, request, message, proof); (r.0, Verdict(r.1))
    case DoRetire(request) => (Retire(a, request), Nothing)
    case DoRelease(request) => (Release(a, request), Nothing)
    case DoReset => (Reset(a), Nothing)
  }

  /** The public key that an operation put into circulation. */
  ghost function Issued(c: Crypto, a: State, op: Op): Option<Key> {
    if op.DoChallenge? && op.entropy.Some? && Step(c, a, op).1 != Data([])
    then Some(c.publicKey(op.entropy.value)) else None
  }

  /** The (challenge, sequence number) pair that an operation accepted. */
  ghost function Accepted(c: Crypto, a: State, op: Op): Option<(Key, u64)> {
    if op.DoVerify? && |op.proof| == PROOF_SIZE && Step(c, a, op).1 != Principal(None)
    then Some((op.proof[..32], ProofNumber(op.proof))) else None
  }

  /** A run: where it led, what it issued and accepted, and whether every challenge
      key it issued was new. */
  datatype Trace = Trace(state: State, issued: set<Key>, accepted: seq<(Key, u64)>, novel: bool)

  ghost function Play(c: Crypto, config: Config, origin: Id, ops: seq<Op>): Trace {
    if ops == [] then Trace(Initial(config, origin), {}, [], true)
    else Advance(c, Play(c, config, origin, ops[..|ops| - 1]), ops[|ops| - 1])
  }

  ghost function Advance(c: Crypto, t: Trace, op: Op): Trace {
    var issue, accept := Issued(c, t.state, op), Accepted(c, t.state, op);
    Trace(Step(c, t.state, op).0,
          if issue.Some? then t.issued + {issue.value} else t.issued,
          if accept.Some? then t.accepted + [accept.value] else t.accepted,
          t.novel && (issue.Some? ==> issue.value !in t.issued))
  }

  // ---------------------------------------------------------------- the invariant

  ghost function Numbers(accepted: seq<(Key, u64)>, n: Key): set<u64> {
    set p | p in accepted && p.0 == n :: p.1
  }

  ghost predicate NoRepeat(accepted: seq<(Key, u64)>) {
    forall i, j :: 0 <= i < j < |accepted| ==> accepted[i] != accepted[j]
  }

  ghost predicate OneBinding(a: State) {
    forall n, m | n in a.incoming && m in a.incoming && a.incoming[n].bound && a.incoming[m].bound ::
      a.incoming[n].request == a.incoming[m].request ==> n == m
  }

  ghost predicate RespondingIsBound(a: State) {
    forall r :: r in a.responding ==>
      a.responding[r] in a.incoming && a.incoming[a.responding[r]].bound && a.incoming[a.responding[r]].request == r
  }

  ghost predicate SessionOk(n: Key, s: Session, issued: set<Key>, accepted: seq<(Key, u64)>) {
    && n in issued && s.challenge.n == n && s.request != ZERO_ID
    && W.Refines(s.rx, Numbers(accepted, n))
  }

  ghost predicate WindowsMatchLog(t: Trace) {
    && (forall n :: n in t.state.incoming ==> SessionOk(n, t.state.incoming[n], t.issued, t.accepted))
    && (forall p :: p in t.accepted ==> p.0 in t.issued)
  }

  ghost predicate Inv(t: Trace) {
    WindowsMatchLog(t) && NoRepeat(t.accepted) && OneBinding(t.state) && RespondingIsBound(t.state)
  }

  // ---------------------------------------------------------------- preservation

  /** Dropping sessions and their responding entries keeps everything. */
  lemma ShrinkKeeps(t: Trace, u: Trace)
    requires Inv(t) && u.issued == t.issued && u.accepted == t.accepted
    requires forall n :: n in u.state.incoming ==> n in t.state.incoming && u.state.incoming[n] == t.state.incoming[n]
    requires forall r :: r in u.state.responding ==>
               r in t.state.responding && u.state.responding[r] == t.state.responding[r]
                   && t.state.responding[r] in u.state.incoming
    ensures Inv(u)
  {
  }

  lemma RetireKeeps(t: Trace, request: Id)
    requires Inv(t)
    ensures Inv(t.(state := Retire(t.state, request)))
  {
    var u := t.(state := Retire(t.state, request));
    forall r | r in u.state.responding ensures t.state.responding[r] in u.state.incoming {
      assert r != request;
    }
    ShrinkKeeps(t, u);
  }

  /** A session under a key never issued before starts with an empty history. */
  lemma NewSessionKeeps(t: Trace, u: Trace, n: Key, s: Session)
    requires Inv(t) && n !in t.issued
    requires u.issued == t.issued + {n} && u.accepted == t.accepted
    requires u.state.incoming == t.state.incoming[n := s] && u.state.responding == t.state.responding
    requires s.challenge.n == n && s.request != ZERO_ID && !s.bound && s.rx == W.EMPTY
    ensures Inv(u)
  {
    hide W.Refines;
    assert Numbers(t.accepted, n) == {};
    W.EmptyRefines();
  }

  lemma ChallengeKeeps(c: Crypto, t: Trace, op: Op)
    requires Inv(t) && op.DoChallenge? && Advance(c, t, op).novel
    ensures Inv(Advance(c, t, op))
  {
    hide EncodeChallenge, Inv, Tick;
    var ticked := t.(state := Tick(t.state, op.now));
    TickKeeps(t, op.now);
    var u := Advance(c, t, op);
    if u.state.incoming == ticked.state.incoming {
      assert u.issued == t.issued;
      IdleKeeps(ticked, u);
    } else {
      var n := c.publicKey(op.entropy.value);
      var s := u.state.incoming[n];
      NonEmptyChallenge(s.challenge);
      NewSessionKeeps(ticked, u, n, s);
    }
  }

  lemma TickKeeps(t: Trace, now: nat)
    requires Inv(t)
    ensures Inv(t.(state := Tick(t.state, now)))
  {
    ShrinkKeeps(t, t.(state := Tick(t.state, now)));
  }

  lemma IdleKeeps(t: Trace, u: Trace)
    requires Inv(t) && u.issued == t.issued && u.accepted == t.accepted
    requires u.state.incoming == t.state.incoming && u.state.responding == t.state.responding
    ensures Inv(u)
  {
    hide W.Refines;
  }

  lemma NonEmptyChallenge(d: ChallengeData)
    ensures EncodeChallenge(d) != []
  {
    assert EncodeChallenge(d) == d.n + Join(ChallengeParts(d)[1..]);
  }

  lemma ProtectKeeps(c: Crypto, t: Trace, op: Op)
    requires Inv(t) && op.DoProtect?
    ensures Inv(Advance(c, t, op))
  {
    hide W.Refines, Sign, Inv, Issued, Accepted;
    var u := Advance(c, t, op);
    assert u.issued == t.issued && u.accepted == t.accepted by { ProtectIsSilent(c, t.state, op); }
    if op.reply && op.request in t.state.responding && t.state.responding[op.request] in t.state.incoming {
      SignKeeps(c, t.state.incoming[t.state.responding[op.request]], op.message, true);
    }
    CountersKeep(t, u);
  }

  lemma ProtectIsSilent(c: Crypto, a: State, op: Op)
    requires op.DoProtect?
    ensures Issued(c, a, op).None? && Accepted(c, a, op).None?
  {
  }

  lemma SignKeeps(c: Crypto, s: Session, message: bytes, reply: bool)
    ensures var r := Sign(c, s, message, reply).0;
            r.challenge == s.challenge && r.request == s.request && r.bound == s.bound && r.rx == s.rx
  {
    hide MacTag;
  }

  /** What is sent changes nothing that the invariant speaks of. */
  lemma CountersKeep(t: Trace, u: Trace)
    requires Inv(t) && u.issued == t.issued && u.accepted == t.accepted && u.state.responding == t.state.responding
    requires u.state.incoming.Keys == t.state.incoming.Keys
    requires forall n :: n in t.state.incoming ==>
               var r, s := u.state.incoming[n], t.state.incoming[n];
               r.challenge == s.challenge && r.request == s.request && r.bound == s.bound && r.rx == s.rx
    ensures Inv(u)
  {
    hide W.Refines;
  }

  lemma Extended(accepted: seq<(Key, u64)>, n: Key, num: u64, m: Key)
    ensures Numbers(accepted + [(n, num)], m) == if m == n then Numbers(accepted, n) + {num} else Numbers(accepted, m)
  {
    var longer := accepted + [(n, num)];
    forall x | x in Numbers(accepted, m) ensures x in Numbers(longer, m) {
      assert (m, x) in accepted && (m, x) in longer;
    }
    assert (n, num) in longer;
  }

  /** An accepted proof: the pair is new, the winner is the only binding of its request. */
  lemma AcceptedKeeps(c: Crypto, t: Trace, op: Op)
    requires Inv(t) && op.DoVerify? && Accepted(c, t.state, op).Some?
    ensures Inv(Advance(c, t, op))
  {
    hide W.Refines, W.Accept, Derive, MacTag, Authorized, ProofNumber, WindowsMatchLog;
    var u := Advance(c, t, op);
    var n, num := op.proof[..32], ProofNumber(op.proof);
    var s := t.state.incoming[n];
    assert SessionOk(n, s, t.issued, t.accepted) by { SessionIn(t, n); }
    var seen := Numbers(t.accepted, n);
    W.AcceptRefines(s.rx, seen, num);
    assert u.accepted == t.accepted + [(n, num)];
    assert u.state.incoming[n].rx == W.Accept(s.rx, num).1;
    assert (n, num) !in t.accepted by {
      assert num !in seen;
    }
    AcceptedWindows(c, t, op);
  }

  lemma SessionIn(t: Trace, n: Key)
    requires WindowsMatchLog(t) && n in t.state.incoming
    ensures SessionOk(n, t.state.incoming[n], t.issued, t.accepted)
  {
  }

  lemma AcceptedWindows(c: Crypto, t: Trace, op: Op)
    requires Inv(t) && op.DoVerify? && Accepted(c, t.state, op).Some?
    ensures WindowsMatchLog(Advance(c, t, op))
  {
    hide W.Refines, W.Accept, Derive, MacTag, Authorized, ProofNumber, OneBinding, RespondingIsBound, NoRepeat;
    var u := Advance(c, t, op);
    var n, num := op.proof[..32], ProofNumber(op.proof);
    var s := t.state.incoming[n];
    W.AcceptRefines(s.rx, Numbers(t.accepted, n), num);
    assert u.accepted == t.accepted + [(n, num)];
    assert u.state.incoming[n].rx == W.Accept(s.rx, num).1;
    forall m | m in u.state.incoming ensures SessionOk(m, u.state.incoming[m], u.issued, u.accepted) {
      Extended(t.accepted, n, num, m);
    }
  }

  lemma RejectedKeeps(c: Crypto, t: Trace, op: Op)
    requires Inv(t) && op.DoVerify? && Step(c, t.state, op).1 == Principal(None)
    ensures Inv(Advance(c, t, op))
  {
    hide Verify, Inv;
    var u := Advance(c, t, op);
    RejectedIsAlike(c, t.state, op.request, op.message, op.proof, op.caps);
    AlikeKeeps(t, u);
  }

  lemma AcceptedHasSize(c: Crypto, a: State, op: Op)
    requires op.DoVerify? && Step(c, a, op).1 != Principal(None)
    ensures |op.proof| == PROOF_SIZE
  {
    hide Check, KeyFor, Authorized;
  }

  lemma AlikeKeeps(t: Trace, u: Trace)
    requires Inv(t) && u.issued == t.issued && u.accepted == t.accepted && Alike(t.state, u.state)
    ensures Inv(u)
  {
    hide Inv;
    forall n | n in t.state.incoming
      ensures var r, s := u.state.incoming[n], t.state.incoming[n];
              r.challenge == s.challenge && r.request == s.request && r.bound == s.bound && r.rx == s.rx
    {
      assert Settled(t.state.incoming[n]) == Settled(u.state.incoming[n]);
    }
    CountersKeep(t, u);
  }

  lemma AdvanceKeeps(c: Crypto, t: Trace, op: Op)
    requires Inv(t) && Advance(c, t, op).novel
    ensures Inv(Advance(c, t, op))
  {
    hide Inv, Tick, Verify, IssueChallenge, Protect, Retire, Derive, EncodeChallenge, DecodeChallenge, Check;
    var u := Advance(c, t, op);
    match op {
      case DoTick(now) =>
        TickKeeps(t, now);
      case DoChallenge(_, _, _, _) =>
        ChallengeKeeps(c, t, op);
      case DoAccept(_, _, now) =>
        TickKeeps(t, now);
        IdleKeeps(if u.state.incoming == t.state.incoming && u.state.responding == t.state.responding then t
                  else t.(state := Tick(t.state, now)), u);
      case DoProtect(_, _, _) =>
        ProtectKeeps(c, t, op);
      case DoVerify(_, _, _, _) =>
        if Step(c, t.state, op).1 == Principal(None) {
          RejectedKeeps(c, t, op);
        } else {
          AcceptedHasSize(c, t.state, op);
          AcceptedKeeps(c, t, op);
        }
      case DoVerifyReply(_, _, _) =>
        IdleKeeps(t, u);
      case DoRetire(request) =>
        RetireKeeps(t, request);
      case DoRelease(_) =>
        IdleKeeps(t, u);
      case DoReset =>
        ShrinkKeeps(t, u);
    }
  }

  /** Over every run in which challenge keys are never repeated: no (challenge, sequence
      number) pair is accepted twice, a request has at most one bound session, and every
      responding entry names a live session bound to its own request. */
  lemma {:induction false} AtMostOnce(c: Crypto, config: Config, origin: Id, ops: seq<Op>)
    requires Play(c, config, origin, ops).novel
    ensures var t := Play(c, config, origin, ops);
            Inv(t) && NoRepeat(t.accepted) && OneBinding(t.state) && RespondingIsBound(t.state)
  {
    if ops != [] {
      var before := ops[..|ops| - 1];
      AtMostOnce(c, config, origin, before);
      AdvanceKeeps(c, Play(c, config, origin, before), ops[|ops| - 1]);
    }
  }

  // ---------------------------------------------------------------- rejected proofs are inert

  /** The part of the invariant that the answers depend on. */
  ghost predicate Bindings(a: State) {
    RespondingIsBound(a) && forall n :: n in a.incoming ==> a.incoming[n].request != ZERO_ID
  }

  /** A session without the working key that an unbound session is free to overwrite. */
  function Settled(s: Session): Session {
    if s.bound then s else s.(key := ZERO_ID)
  }

  /** Equal in everything that a later operation can observe. */
  ghost predicate Alike(a: State, b: State) {
    && a.config == b.config && a.origin == b.origin && a.outgoing == b.outgoing
    && a.responding == b.responding && a.nextChallenge == b.nextChallenge
    && a.incoming.Keys == b.incoming.Keys
    && forall n :: n in a.incoming ==> Settled(a.incoming[n]) == Settled(b.incoming[n])
  }

  lemma RejectedIsAlike(c: Crypto, a: State, request: Id, message: bytes, proof: bytes, caps: bv64)
    requires Verify(c, a, request, message, proof, caps).1.None?
    ensures Alike(a, Verify(c, a, request, message, proof, caps).0)
  {
    hide W.Accept, Derive, MacTag, Authorized, ProofNumber;
  }

  lemma TickAlike(a: State, b: State, now: nat)
    requires Alike(a, b)
    ensures Alike(Tick(a, now), Tick(b, now))
  {
    forall n | n in a.incoming
      ensures n in Live(a.incoming, now) <==> n in Live(b.incoming, now)
    {
      assert Settled(a.incoming[n]).expires == a.incoming[n].expires;
      assert Settled(b.incoming[n]).expires == b.incoming[n].expires;
    }
    var ta, tb := Tick(a, now), Tick(b, now);
    assert ta.incoming.Keys == tb.incoming.Keys;
    assert ta.responding == tb.responding;
  }

  lemma DropAlike(a: State, b: State, request: Id, keep: set<Key>)
    requires Alike(a, b)
    ensures Alike(a.(incoming := WithoutRequest(a.incoming, request, keep)),
                  b.(incoming := WithoutRequest(b.incoming, request, keep)))
  {
    forall n | n in a.incoming ensures a.incoming[n].request == b.incoming[n].request {
      assert Settled(a.incoming[n]).request == a.incoming[n].request;
      assert Settled(b.incoming[n]).request == b.incoming[n].request;
    }
    assert WithoutRequest(a.incoming, request, keep).Keys == WithoutRequest(b.incoming, request, keep).Keys;
  }

  lemma ChallengeAlike(c: Crypto, a: State, b: State, op: Op)
    requires Alike(a, b) && op.DoChallenge?
    ensures Step(c, a, op).1 == Step(c, b, op).1 && Alike(Step(c, a, op).0, Step(c, b, op).0)
  {
    hide Tick, EncodeChallenge, Alike, ChallengeFor, Challenged;
    TickAlike(a, b, op.now);
    var ta, tb := Tick(a, op.now), Tick(b, op.now);
    AlikeShape(a, b);
    AlikeShape(ta, tb);
    var later := op.now + CHALLENGE_SPACING;
    AlikeSpaced(ta, tb, later);
    if op.entropy.Some? {
      var n := c.publicKey(op.entropy.value);
      var s := Challenged(ChallengeFor(ta.config, n, op.caps), op.entropy.value, op.request, op.now);
      AlikeWith(ta.(nextChallenge := later), tb.(nextChallenge := later), n, s);
    }
  }

  lemma AlikeShape(a: State, b: State)
    requires Alike(a, b)
    ensures a.config == b.config && a.nextChallenge == b.nextChallenge
    ensures a.incoming.Keys == b.incoming.Keys && |a.incoming| == |b.incoming|
  {
    assert |a.incoming| == |a.incoming.Keys| && |b.incoming| == |b.incoming.Keys|;
  }

  lemma AlikeSpaced(a: State, b: State, later: nat)
    requires Alike(a, b)
    ensures Alike(a.(nextChallenge := later), b.(nextChallenge := later))
  {
  }

  lemma AlikeWith(a: State, b: State, n: Key, s: Session)
    requires Alike(a, b)
    ensures Alike(a.(incoming := a.incoming[n := s]), b.(incoming := b.incoming[n := s]))
  {
  }

  lemma AcceptAlike(c: Crypto, a: State, b: State, op: Op)
    requires Alike(a, b) && op.DoAccept?
    ensures Step(c, a, op).1 == Step(c, b, op).1 && Alike(Step(c, a, op).0, Step(c, b, op).0)
  {
    hide Tick, DecodeChallenge, FirstSuiting, Derive;
    TickAlike(a, b, op.now);
  }

  lemma ProtectAlike(c: Crypto, a: State, b: State, op: Op)
    requires Alike(a, b) && Bindings(a) && op.DoProtect?
    ensures Step(c, a, op).1 == Step(c, b, op).1 && Alike(Step(c, a, op).0, Step(c, b, op).0)
  {
    hide MacTag, ProofPrefix;
    if op.reply && op.request in a.responding {
      var n := a.responding[op.request];
      assert Settled(a.incoming[n]) == Settled(b.incoming[n]);
      assert a.incoming[n] == b.incoming[n];
    }
  }

  /** Both states check a proof with the same key, hence against the same session. */
  lemma KeyedAlike(c: Crypto, a: State, b: State, n: Key, authority: Key)
    requires Alike(a, b) && n in a.incoming
    ensures a.incoming[n].(key := ZERO_ID) == b.incoming[n].(key := ZERO_ID)
    ensures KeyFor(c, a.incoming[n], authority, a.origin) == KeyFor(c, b.incoming[n], authority, b.origin)
    ensures forall key: Tag :: a.incoming[n].(key := key) == b.incoming[n].(key := key)
  {
    hide Derive;
    var sa, sb := a.incoming[n], b.incoming[n];
    assert Settled(sa) == Settled(sb);
    forall key: Tag ensures sa.(key := key) == sb.(key := key) {
      assert sa.(key := ZERO_ID).(key := key) == sb.(key := ZERO_ID).(key := key);
    }
  }

  lemma AddressedAlike(a: State, b: State, request: Id, proof: bytes, caps: bv64)
    requires Alike(a, b)
    ensures Addressed(a, request, proof, caps).Some? <==> Addressed(b, request, proof, caps).Some?
  {
    hide Authorized;
    if |proof| == PROOF_SIZE && proof[..32] in a.incoming {
      assert Settled(a.incoming[proof[..32]]) == Settled(b.incoming[proof[..32]]);
    }
  }

  lemma VerifyAlike(c: Crypto, a: State, b: State, op: Op)
    requires Alike(a, b) && op.DoVerify?
    ensures Step(c, a, op).1 == Step(c, b, op).1 && Alike(Step(c, a, op).0, Step(c, b, op).0)
  {
    hide Alike, Check, KeyFor, Authorized, WithoutRequest;
    AddressedAlike(a, b, op.request, op.proof, op.caps);
    AlikeShape(a, b);
    if Addressed(a, op.request, op.proof, op.caps).Some? {
      var n, authority := op.proof[..32], op.proof[32..64];
      KeyedAlike(c, a, b, n, authority);
      var key := KeyFor(c, a.incoming[n], authority, a.origin);
      if key.Some? {
        var keyed := a.incoming[n].(key := key.value);
        var r := Check(c, keyed, op.message, op.proof, false);
        if r.0 {
          var winner := r.1.(bound := true, authority := authority, request := op.request, secret := ZERO_KEY);
          WinnerAlike(a, b, n, winner, op.request);
        } else {
          AlikeWith(a, b, n, keyed);
        }
      }
    }
  }

  lemma WinnerAlike(a: State, b: State, n: Key, winner: Session, request: Id)
    requires Alike(a, b)
    ensures Alike(a.(incoming := WithoutRequest(a.incoming[n := winner], request, {n}),
                     responding := a.responding[request := n]),
                  b.(incoming := WithoutRequest(b.incoming[n := winner], request, {n}),
                     responding := b.responding[request := n]))
  {
    var wa, wb := a.(incoming := a.incoming[n := winner]), b.(incoming := b.incoming[n := winner]);
    DropAlike(wa, wb, request, {n});
  }

  /** No operation can tell two alike states apart. */
  lemma StepAlike(c: Crypto, a: State, b: State, op: Op)
    requires Alike(a, b) && Bindings(a)
    ensures Step(c, a, op).1 == Step(c, b, op).1 && Alike(Step(c, a, op).0, Step(c, b, op).0)
  {
    hide Tick, Verify, IssueChallenge, AcceptChallenge, Protect, Check;
    match op {
      case DoTick(now) => TickAlike(a, b, now);
      case DoChallenge(_, _, _, _) => ChallengeAlike(c, a, b, op);
      case DoAccept(_, _, _) => AcceptAlike(c, a, b, op);
      case DoProtect(_, _, _) => ProtectAlike(c, a, b, op);
      case DoVerify(_, _, _, _) => VerifyAlike(c, a, b, op);
      case DoVerifyReply(_, _, _) =>
      case DoRetire(request) => DropAlike(a, b, request, {});
      case DoRelease(_) =>
      case DoReset =>
    }
  }

  lemma VerifyKeepsBindings(c: Crypto, a: State, op: Op)
    requires Bindings(a) && op.DoVerify?
    ensures Bindings(Step(c, a, op).0)
  {
    hide W.Accept, Derive, MacTag, Authorized, ProofNumber;
  }

  lemma ProtectKeepsBindings(c: Crypto, a: State, op: Op)
    requires Bindings(a) && op.DoProtect?
    ensures Bindings(Step(c, a, op).0)
  {
    hide MacTag, ProofPrefix;
  }

  lemma ChallengeKeepsBindings(c: Crypto, a: State, op: Op)
    requires Bindings(a) && (op.DoChallenge? || op.DoAccept?)
    ensures Bindings(Step(c, a, op).0)
  {
    hide Tick, Derive, EncodeChallenge, DecodeChallenge, FirstSuiting, ChallengeFor;
    TickKeepsBindings(a, op.now);
  }

  lemma TickKeepsBindings(a: State, now: nat)
    requires Bindings(a)
    ensures Bindings(Tick(a, now))
  {
  }

  lemma StepKeepsBindings(c: Crypto, a: State, op: Op)
    requires Bindings(a)
    ensures Bindings(Step(c, a, op).0)
  {
    hide Verify, Protect, IssueChallenge, AcceptChallenge, Check;
    if op.DoVerify? {
      VerifyKeepsBindings(c, a, op);
    } else if op.DoProtect? {
      ProtectKeepsBindings(c, a, op);
    } else if op.DoChallenge? || op.DoAccept? {
      ChallengeKeepsBindings(c, a, op);
    } else if op.DoRetire? {
      var b := Retire(a, op.request);
      forall r | r in b.responding
        ensures b.responding[r] in b.incoming && b.incoming[b.responding[r]].bound
                && b.incoming[b.responding[r]].request == r
      {
        assert r != op.request;
      }
    }
  }

  ghost function Answers(c: Crypto, a: State, ops: seq<Op>): seq<Answer>
    decreases |ops|
  {
    if ops == [] then [] else [Step(c, a, ops[0]).1] + Answers(c, Step(c, a, ops[0]).0, ops[1..])
  }

  lemma {:induction false} AlikeAnswers(c: Crypto, a: State, b: State, ops: seq<Op>)
    requires Alike(a, b) && Bindings(a)
    ensures Answers(c, a, ops) == Answers(c, b, ops)
    decreases |ops|
  {
    hide Step;
    if ops != [] {
      StepAlike(c, a, b, ops[0]);
      StepKeepsBindings(c, a, ops[0]);
      AlikeAnswers(c, Step(c, a, ops[0]).0, Step(c, b, ops[0]).0, ops[1..]);
    }
  }

  lemma {:induction false} RunKeepsBindings(c: Crypto, config: Config, origin: Id, ops: seq<Op>)
    ensures Bindings(Play(c, config, origin, ops).state)
  {
    if ops != [] {
      hide Step, Issued, Accepted;
      var before := ops[..|ops| - 1];
      RunKeepsBindings(c, config, origin, before);
      StepKeepsBindings(c, Play(c, config, origin, before).state, ops[|ops| - 1]);
    }
  }

  /** A proof that is turned down after any past leaves every later answer, of every
      operation in every continuation, as it would have been without it. */
  lemma RejectedProofIsInert(c: Crypto, config: Config, origin: Id, past: seq<Op>, rejected: Op, later: seq<Op>)
    requires rejected.DoVerify? && Step(c, Play(c, config, origin, past).state, rejected).1 == Principal(None)
    ensures var a := Play(c, config, origin, past).state;
            Answers(c, Step(c, a, rejected).0, later) == Answers(c, a, later)
  {
    hide Verify, Answers, Play;
    var a := Play(c, config, origin, past).state;
    RunKeepsBindings(c, config, origin, past);
    RejectedIsAlike(c, a, rejected.request, rejected.message, rejected.proof, rejected.caps);
    AlikeAnswers(c, a, Step(c, a, rejected).0, later);
  }
}
