/** Challenge/response authentication of CONTROL requests (src/control_auth.hpp).

    The functions give the session state machine over values; class `Auth` is the
    object that updates its maps in place and is proved against them. X25519 and the
    keyed hash are parameters: nothing is assumed of them here. */
module ControlAuth {
  import opened Bytes
  import W = ReplayWindow

  /** Milliseconds. */
  const LIFETIME := 120_000
  const CHALLENGE_SPACING := 20
  const MAX_INCOMING := 32
  const MAX_OUTGOING := 16
  const U64_MAX: u64 := 0xffff_ffff_ffff_ffff

  type Tag = s: bytes | |s| == 16 witness ZERO_ID

  /** "TUNTOM-CONTROL-KDF-v1" and "TUNTOM-CONTROL-MAC-v1", with their final zero byte. */
  const KDF_LABEL: bytes := [84, 85, 78, 84, 79, 77, 45, 67, 79, 78, 84, 82, 79, 76, 45, 75, 68, 70, 45, 118, 49, 0]
  const MAC_LABEL: bytes := [84, 85, 78, 84, 79, 77, 45, 67, 79, 78, 84, 82, 79, 76, 45, 77, 65, 67, 45, 118, 49, 0]

  /** Public key of a secret, Diffie-Hellman of a secret and a peer key (which refuses
      low-order keys), and the keyed hash. */
  datatype Crypto = Crypto(publicKey: Key -> Key, shared: (Key, Key) -> Option<Key>, mac: (Tag, bytes) -> Tag)

  datatype Grant = Grant(pub: Key, caps: bv64, levels: seq<u64>)

  datatype SigningKey = SigningKey(secret: Key, grant: Grant)

  datatype Config = Config(
    trusted: map<Key, Grant>, signing: seq<SigningKey>, authority: Key,
    caps: bv64, level: u64, allowTrusted: bool, allowAll: bool)
  {
    predicate Required() { allowTrusted }
    predicate Enabled() { allowTrusted || allowAll }
  }

  predicate HasCap(caps: bv64, i: nat)
    requires i < 64
  {
    (caps >> i) & 1 == 1
  }

  /** Every requested capability is granted, each at the required level. */
  predicate Allows(g: Grant, requested: bv64, level: u64) {
    && g.caps & requested == requested
    && forall i :: 0 <= i < 64 && HasCap(requested, i) ==> i < |g.levels| && g.levels[i] >= level
  }

  method CheckGrant(g: Grant, requested: bv64, level: u64) returns (ok: bool)
    requires |g.levels| == 64
    ensures ok <==> Allows(g, requested, level)
  {
    if g.caps & requested != requested { return false; }
    for i := 0 to 64
      invariant forall j :: 0 <= j < i && HasCap(requested, j) ==> g.levels[j] >= level
    {
      if HasCap(requested, i) && g.levels[i] < level { return false; }
    }
    return true;
  }

  // ---------------------------------------------------------------- challenges and proofs

  datatype ChallengeData = ChallengeData(n: Key, authority: Key, caps: bv64, level: u64)

  function Be64(x: bv64): bytes { ToBe(x as int, 8) }

  function LoadBe64(b: bytes): bv64
    requires |b| == 8
  {
    Widths();
    FromBe(b) as bv64
  }

  lemma LoadStore64(x: bv64)
    ensures |Be64(x)| == 8 && LoadBe64(Be64(x)) == x
  {
    Widths();
    FromToBe(x as int, 8);
  }

  function ChallengeParts(c: ChallengeData): seq<bytes> { [c.n, c.authority, Be64(c.caps), ToBe(c.level, 8)] }

  const CHALLENGE_LENS: seq<nat> := [32, 32, 8, 8]

  lemma ChallengeWidth()
    ensures Sum(CHALLENGE_LENS) == CHALLENGE_SIZE
  {
    var l := CHALLENGE_LENS;
    assert l[1..] == [32, 8, 8] && l[1..][1..] == [8, 8] && l[1..][1..][1..] == [8];
    assert Sum([8]) == 8;
    assert Sum([8, 8]) == 16;
    assert Sum([32, 8, 8]) == 48;
  }

  function EncodeChallenge(c: ChallengeData): bytes { Join(ChallengeParts(c)) }

  function DecodeChallenge(b: bytes): Option<ChallengeData> {
    if |b| != CHALLENGE_SIZE then None
    else
      ChallengeWidth();
      Widths();
      var p := Split(b, CHALLENGE_LENS);
      if p[0] == ZERO_KEY then None
      else Some(ChallengeData(p[0], p[1], LoadBe64(p[2]), FromBe(p[3])))
  }

  /** A challenge with a nonzero public key survives the wire. */
  lemma ChallengeRoundTrip(c: ChallengeData)
    requires c.n != ZERO_KEY
    ensures |EncodeChallenge(c)| == CHALLENGE_SIZE
    ensures DecodeChallenge(EncodeChallenge(c)) == Some(c)
  {
    hide Be64, LoadBe64, ToBe, FromBe, Sum, Split;
    var parts := ChallengeParts(c);
    assert Lengths(parts) == CHALLENGE_LENS by { LoadStore64(c.caps); }
    ChallengeWidth();
    SplitJoin(parts, []);
    assert EncodeChallenge(c) + [] == EncodeChallenge(c);
    LoadStore64(c.caps);
    Widths();
    FromToBe(c.level, 8);
  }

  /** What a proof says before its tag: the challenge, the authority, the sequence number. */
  function ProofPrefix(n: Key, authority: Key, num: u64): (p: bytes)
    ensures |p| == 72
  {
    n + authority + ToBe(num, 8)
  }

  function ProofNumber(proof: bytes): u64
    requires |proof| == PROOF_SIZE
  {
    Widths();
    FromBe(proof[64..72])
  }

  lemma ProofFields(n: Key, authority: Key, num: u64, tag: Tag)
    ensures var proof := ProofPrefix(n, authority, num) + tag;
            && |proof| == PROOF_SIZE && proof[..32] == n && proof[32..64] == authority
            && proof[..72] == ProofPrefix(n, authority, num) && proof[72..] == tag && ProofNumber(proof) == num
  {
    hide FromBe, ToBe;
    Widths();
    FromToBe(num, 8);
    var proof := ProofPrefix(n, authority, num) + tag;
    assert proof[64..72] == ToBe(num, 8);
  }

  // ---------------------------------------------------------------- keys and tags

  function Derive(c: Crypto, secret: Key, peer: Key, challenge: ChallengeData, authority: Key,
                  origin: Id): Option<Tag> {
    match c.shared(secret, peer)
    case None => None
    case Some(dh) => Some(c.mac(dh[..16], KDF_LABEL + dh + EncodeChallenge(challenge) + authority + origin))
  }

  function MacTag(c: Crypto, key: Tag, message: bytes, prefix: bytes, reply: bool): Tag {
    c.mac(key, MAC_LABEL + [if reply then 1 else 0] + prefix + message)
  }

  // ---------------------------------------------------------------- sessions

  datatype Session = Session(
    challenge: ChallengeData, secret: Key, key: Tag, authority: Key, request: Id,
    expires: nat, rx: W.Window, tx: u64, bound: bool)

  datatype State = State(
    config: Config, origin: Id, incoming: map<Key, Session>, outgoing: map<Id, Session>,
    responding: map<Id, Key>, nextChallenge: nat)

  function Initial(config: Config, origin: Id): State {
    State(config, origin, map[], map[], map[], 0)
  }

  /** Tag comparison first, replay window second: a wrong tag leaves the window alone. */
  function Check(c: Crypto, s: Session, message: bytes, proof: bytes, reply: bool): (bool, Session) {
    if |proof| != PROOF_SIZE || MacTag(c, s.key, message, proof[..72], reply) != proof[72..] then (false, s)
    else
      var r := W.Accept(s.rx, ProofNumber(proof));
      (r.0, s.(rx := r.1))
  }

  /** The next proof of a session; nothing once the counter is exhausted. */
  function Sign(c: Crypto, s: Session, message: bytes, reply: bool): (Session, bytes) {
    if s.tx == U64_MAX then (s, [])
    else
      var prefix := ProofPrefix(s.challenge.n, s.authority, s.tx + 1);
      (s.(tx := s.tx + 1), prefix + MacTag(c, s.key, message, prefix, reply))
  }

  function Live<K>(sessions: map<K, Session>, now: nat): map<K, Session> {
    map k | k in sessions && now < sessions[k].expires :: sessions[k]
  }

  function Tick(a: State, now: nat): State {
    var incoming := Live(a.incoming, now);
    a.(incoming := incoming, outgoing := Live(a.outgoing, now),
       responding := map r | r in a.responding && a.responding[r] in incoming :: a.responding[r])
  }

  function WithoutRequest(incoming: map<Key, Session>, request: Id, keep: set<Key>): map<Key, Session> {
    map k | k in incoming && (k in keep || incoming[k].request != request) :: incoming[k]
  }

  function Retire(a: State, request: Id): State {
    a.(responding := a.responding - {request}, incoming := WithoutRequest(a.incoming, request, {}))
  }

  function Release(a: State, request: Id): State {
    a.(outgoing := a.outgoing - {request})
  }

  function Reset(a: State): State {
    Initial(a.config, a.origin)
  }

  /** What a node asks for: a pinned authority, or any authority with enough rights. */
  function ChallengeFor(config: Config, n: Key, caps: bv64): ChallengeData {
    if !config.Required() then ChallengeData(n, ZERO_KEY, 0, 0)
    else if config.authority != ZERO_KEY then ChallengeData(n, config.authority, 0, 0)
    else ChallengeData(n, ZERO_KEY, caps | config.caps, config.level)
  }

  function Challenged(challenge: ChallengeData, secret: Key, request: Id, now: nat): Session {
    Session(challenge, secret, ZERO_ID, ZERO_KEY, request, now + LIFETIME, W.EMPTY, 0, false)
  }

  /** `entropy` is the random secret, or nothing when the system has none to give. */
  function IssueChallenge(c: Crypto, a0: State, request: Id, caps: bv64, now: nat,
                          entropy: Option<Key>): (State, bytes) {
    var a := Tick(a0, now);
    if request == ZERO_ID || !a.config.Enabled() || now < a.nextChallenge || |a.incoming| >= MAX_INCOMING then (a, [])
    else
      var b := a.(nextChallenge := now + CHALLENGE_SPACING);
      match entropy
      case None => (b, [])
      case Some(secret) =>
        var n := c.publicKey(secret);
        if n in b.incoming then (b, [])
        else
          var challenge := ChallengeFor(a.config, n, caps);
          (b.(incoming := b.incoming[n := Challenged(challenge, secret, request, now)]), EncodeChallenge(challenge))
  }

  predicate Suits(key: SigningKey, challenge: ChallengeData) {
    if challenge.authority != ZERO_KEY then key.grant.pub == challenge.authority
    else Allows(key.grant, challenge.caps, challenge.level)
  }

  /** The first configured key that suits a challenge. */
  function FirstSuiting(signing: seq<SigningKey>, challenge: ChallengeData): Option<SigningKey> {
    if signing == [] then None
    else if Suits(signing[0], challenge) then Some(signing[0])
    else FirstSuiting(signing[1..], challenge)
  }

  function AcceptChallenge(c: Crypto, a0: State, request: Id, b: bytes, now: nat): (State, bool) {
    if !a0.config.Enabled() || request == ZERO_ID then (a0, false)
    else
      var a := Tick(a0, now);
      match DecodeChallenge(b)
      case None => (a, false)
      case Some(challenge) =>
        if request in a.outgoing && a.outgoing[request].challenge.n == challenge.n then (a, false)
        else match FirstSuiting(a.config.signing, challenge)
          case None => (a, false)
          case Some(signing) =>
            var pub := signing.grant.pub;
            match Derive(c, signing.secret, challenge.n, challenge, pub, a.origin)
            case None => (a, false)
            case Some(key) =>
              if |a.outgoing| >= MAX_OUTGOING && request !in a.outgoing then (a, false)
              else
                var s := Session(challenge, ZERO_KEY, key, pub, request, now + LIFETIME, W.EMPTY, 0, false);
                (a.(outgoing := a.outgoing[request := s]), true)
  }

  function Protect(c: Crypto, a: State, request: Id, message: bytes, reply: bool): (State, bytes) {
    if !a.config.Enabled() then (a, [])
    else if reply then
      if request !in a.responding || a.responding[request] !in a.incoming then (a, [])
      else
        var n := a.responding[request];
        var r := Sign(c, a.incoming[n], message, true);
        (a.(incoming := a.incoming[n := r.0]), r.1)
    else if request !in a.outgoing then (a, [])
    else
      var r := Sign(c, a.outgoing[request], message, false);
      (a.(outgoing := a.outgoing[request := r.0]), r.1)
  }

  function VerifyReply(c: Crypto, a: State, request: Id, message: bytes, proof: bytes): (State, bool) {
    if !a.config.Enabled() || request !in a.outgoing || |proof| != PROOF_SIZE then (a, false)
    else
      var s := a.outgoing[request];
      if proof[..32] != s.challenge.n || proof[32..64] != s.authority then (a, false)
      else
        var r := Check(c, s, message, proof, true);
        (a.(outgoing := a.outgoing[request := r.1]), r.0)
  }

  /** The policy of a node that requires pinned authorities. */
  predicate Authorized(config: Config, challenge: ChallengeData, authority: Key, caps: bv64) {
    config.Required() ==>
      && authority in config.trusted
      && (challenge.authority != ZERO_KEY ==> challenge.authority == authority)
      && (challenge.authority == ZERO_KEY ==> Allows(config.trusted[authority], challenge.caps, challenge.level))
      && Allows(config.trusted[authority], caps | config.caps, config.level)
  }

  /** The key a proof is checked with: the bound one, or a fresh derivation. */
  function KeyFor(c: Crypto, s: Session, authority: Key, origin: Id): Option<Tag> {
    if s.bound then Some(s.key) else Derive(c, s.secret, authority, s.challenge, authority, origin)
  }

  /** The session that a proof addresses, if policy lets it be checked at all. */
  function Addressed(a: State, request: Id, proof: bytes, caps: bv64): Option<Session> {
    if !a.config.Enabled() || |proof| != PROOF_SIZE || proof[..32] !in a.incoming then None
    else
      var s := a.incoming[proof[..32]];
      if s.request != ZERO_ID && s.request != request then None
      else if !Authorized(a.config, s.challenge, proof[32..64], caps) then None
      else if s.bound && s.authority != proof[32..64] then None
      else Some(s)
  }

  function Verify(c: Crypto, a: State, request: Id, message: bytes, proof: bytes, caps: bv64): (State, Option<Key>) {
    match Addressed(a, request, proof, caps)
    case None => (a, None)
    case Some(s) =>
      var n, authority := proof[..32], proof[32..64];
      match KeyFor(c, s, authority, a.origin)
      case None => (a, None)
      case Some(key) =>
        var keyed := s.(key := key);
        var r := Check(c, keyed, message, proof, false);
        if !r.0 then (a.(incoming := a.incoming[n := keyed]), None)
        else
          var winner := r.1.(bound := true, authority := authority, request := request, secret := ZERO_KEY);
          (a.(incoming := WithoutRequest(a.incoming[n := winner], request, {n}),
              responding := a.responding[request := n]), Some(authority))
  }
}
