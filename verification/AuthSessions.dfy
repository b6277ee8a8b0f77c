/** The `Auth` object (src/control_auth.hpp): maps of sessions updated in place, each
    method proved against the state machine of module ControlAuth. */
module AuthSessions {
  import opened Bytes
  import C = ControlAuth
  import W = ReplayWindow

  ghost predicate WellFormed(config: C.Config) {
    forall k :: k in config.signing ==> |k.grant.levels| == 64
  }

  /** Erases the expired entries of a session table one by one. */
  method EraseExpired<K(==)>(sessions: map<K, C.Session>, now: nat) returns (kept: map<K, C.Session>)
    ensures kept == C.Live(sessions, now)
  {
    kept := sessions;
    var left := sessions.Keys;
    while left != {}
      invariant left <= sessions.Keys
      invariant kept == map k | k in sessions && (k in left || now < sessions[k].expires) :: sessions[k]
      decreases |left|
    {
      var k :| k in left;
      if now >= sessions[k].expires { kept := kept - {k}; }
      left := left - {k};
    }
  }

  method EraseRequest(incoming: map<Key, C.Session>, request: Id, keep: set<Key>) returns (kept: map<Key, C.Session>)
    ensures kept == C.WithoutRequest(incoming, request, keep)
  {
    kept := incoming;
    var left := incoming.Keys;
    while left != {}
      invariant left <= incoming.Keys
      invariant kept == map k | k in incoming
                && (k in left || k in keep || incoming[k].request != request) :: incoming[k]
      decreases |left|
    {
      var k :| k in left;
      if k !in keep && incoming[k].request == request { kept := kept - {k}; }
      left := left - {k};
    }
  }

  method EraseOrphans(responding: map<Id, Key>, incoming: map<Key, C.Session>) returns (kept: map<Id, Key>)
    ensures kept == map r | r in responding && responding[r] in incoming :: responding[r]
  {
    kept := responding;
    var left := responding.Keys;
    while left != {}
      invariant left <= responding.Keys
      invariant kept == map r | r in responding && (r in left || responding[r] in incoming) :: responding[r]
      decreases |left|
    {
      var r :| r in left;
      if responding[r] !in incoming { kept := kept - {r}; }
      left := left - {r};
    }
  }

  class Auth {
    const crypto: C.Crypto
    var config: C.Config
    var origin: Id
    var incoming: map<Key, C.Session>
    var outgoing: map<Id, C.Session>
    var responding: map<Id, Key>
    var nextChallenge: nat

    ghost function State(): C.State
      reads this
    {
      C.State(config, origin, incoming, outgoing, responding, nextChallenge)
    }

    constructor (crypto: C.Crypto, config: C.Config, origin: Id)
      ensures State() == C.Initial(config, origin) && this.crypto == crypto
    {
      this.crypto, this.config, this.origin := crypto, config, origin;
      incoming, outgoing, responding, nextChallenge := map[], map[], map[], 0;
    }

    method Reset()
      modifies this
      ensures State() == C.Reset(old(State()))
    {
      incoming, outgoing, responding, nextChallenge := map[], map[], map[], 0;
    }

    method ReleaseOutgoing(request: Id)
      modifies this
      ensures State() == C.Release(old(State()), request)
    {
      outgoing := outgoing - {request};
    }

    method Retire(request: Id)
      modifies this
      ensures State() == C.Retire(old(State()), request)
    {
      responding := responding - {request};
      incoming := EraseRequest(incoming, request, {});
    }

    method Tick(now: nat)
      modifies `incoming, `outgoing, `responding
      ensures State() == C.Tick(old(State()), now)
    {
      incoming := EraseExpired(incoming, now);
      outgoing := EraseExpired(outgoing, now);
      responding := EraseOrphans(responding, incoming);
    }

    /** Bounded challenge issue; an empty result means that nothing was issued. */
    method Challenge(request: Id, caps: bv64, now: nat, entropy: Option<Key>) returns (b: bytes)
      modifies this
      ensures var r := C.IssueChallenge(crypto, old(State()), request, caps, now, entropy);
              State() == r.0 && b == r.1
    {
      hide C.Tick, C.EncodeChallenge;
      Tick(now);
      if request == ZERO_ID || !config.Enabled() || now < nextChallenge || |incoming| >= C.MAX_INCOMING { return []; }
      nextChallenge := now + C.CHALLENGE_SPACING;
      if entropy.None? { return []; }
      var n := crypto.publicKey(entropy.value);
      if n in incoming { return []; }
      var challenge := C.ChallengeData(n, ZERO_KEY, 0, 0);
      if config.Required() {
        challenge := challenge.(authority := config.authority);
        if config.authority == ZERO_KEY {
          challenge := challenge.(caps := caps | config.caps, level := config.level);
        }
      }
      incoming := incoming[n := C.Challenged(challenge, entropy.value, request, now)];
      return C.EncodeChallenge(challenge);
    }

    method AcceptChallenge(request: Id, b: bytes, now: nat) returns (ok: bool)
      requires WellFormed(config)
      modifies this
      ensures var r := C.AcceptChallenge(crypto, old(State()), request, b, now);
              State() == r.0 && ok == r.1
    {
      hide C.Tick, C.DecodeChallenge, C.Derive, C.Allows;
      if !config.Enabled() || request == ZERO_ID { return false; }
      Tick(now);
      var decoded := C.DecodeChallenge(b);
      if decoded.None? { return false; }
      var challenge := decoded.value;
      if request in outgoing && outgoing[request].challenge.n == challenge.n { return false; }
      var i := 0;
      while i < |config.signing|
        invariant i <= |config.signing| && State() == C.Tick(old(State()), now)
        invariant C.FirstSuiting(config.signing, challenge) == C.FirstSuiting(config.signing[i..], challenge)
      {
        var key := config.signing[i];
        var suits := key.grant.pub == challenge.authority;
        if challenge.authority == ZERO_KEY {
          suits := C.CheckGrant(key.grant, challenge.caps, challenge.level);
        }
        assert config.signing[i..][1..] == config.signing[i + 1..];
        if suits {
          var derived := C.Derive(crypto, key.secret, challenge.n, challenge, key.grant.pub, origin);
          if derived.None? { return false; }
          if |outgoing| >= C.MAX_OUTGOING && request !in outgoing { return false; }
          outgoing := outgoing[request := C.Session(challenge, ZERO_KEY, derived.value, key.grant.pub, request,
                                                    now + C.LIFETIME, W.EMPTY, 0, false)];
          return true;
        }
        i := i + 1;
      }
      return false;
    }

    method Protect(request: Id, message: bytes, reply: bool) returns (proof: bytes)
      modifies this
      ensures var r := C.Protect(crypto, old(State()), request, message, reply);
              State() == r.0 && proof == r.1
    {
      if !config.Enabled() { return []; }
      if reply {
        if request !in responding || responding[request] !in incoming { return []; }
        var n := responding[request];
        var r := C.Sign(crypto, incoming[n], message, true);
        incoming := incoming[n := r.0];
        return r.1;
      }
      if request !in outgoing { return []; }
      var r := C.Sign(crypto, outgoing[request], message, false);
      outgoing := outgoing[request := r.0];
      return r.1;
    }

    method VerifyReply(request: Id, message: bytes, proof: bytes) returns (ok: bool)
      modifies this
      ensures var r := C.VerifyReply(crypto, old(State()), request, message, proof);
              State() == r.0 && ok == r.1
    {
      if !config.Enabled() || request !in outgoing || |proof| != PROOF_SIZE { return false; }
      var s := outgoing[request];
      if proof[..32] != s.challenge.n || proof[32..64] != s.authority { return false; }
      var r := C.Check(crypto, s, message, proof, true);
      outgoing := outgoing[request := r.1];
      return r.0;
    }

    method Verify(request: Id, message: bytes, proof: bytes, caps: bv64) returns (principal: Option<Key>)
      modifies this
      ensures var r := C.Verify(crypto, old(State()), request, message, proof, caps);
              State() == r.0 && principal == r.1
    {
      hide C.Derive, C.Check, C.Allows;
      if !config.Enabled() || |proof| != PROOF_SIZE { return None; }
      var n, authority := proof[..32], proof[32..64];
      if n !in incoming { return None; }
      var s := incoming[n];
      if s.request != ZERO_ID && s.request != request { return None; }
      if !C.Authorized(config, s.challenge, authority, caps) { return None; }
      if s.bound && s.authority != authority { return None; }
      if !s.bound {
        var derived := C.Derive(crypto, s.secret, authority, s.challenge, authority, origin);
        if derived.None? { return None; }
        s := s.(key := derived.value);
      }
      var r := C.Check(crypto, s, message, proof, false);
      if !r.0 {
        incoming := incoming[n := s];
        return None;
      }
      incoming := incoming[n := r.1.(bound := true, authority := authority, request := request, secret := ZERO_KEY)];
      responding := responding[request := n];
      incoming := EraseRequest(incoming, request, {n});
      return Some(authority);
    }
  }
}
