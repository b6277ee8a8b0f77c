/** Ascon-AEAD128 (src/ascon.hpp), the mode of section 4 of NIST SP 800-232, over an
    arbitrary permutation: the word-wise in-place implementation computes the padded-block
    definition, also when input and output overlap, decryption inverts encryption, accepts
    nothing else, and leaves nothing of a rejected message behind. */
module Ascon {
  type Block = b: seq<bv8> | |b| == 16 witness [0, 0, 0, 0, 0, 0, 0, 0, 0, 0, 0, 0, 0, 0, 0, 0]

  datatype Lanes = Lanes(s0: bv64, s1: bv64, s2: bv64, s3: bv64, s4: bv64)

  /** The permutation, by number of rounds. */
  type Permutation = (Lanes, nat) -> Lanes

  // ---------------------------------------------------------------- words and bytes

  /** The bytes of a little-endian word. */
  function WordBytes(x: bv64): (b: seq<bv8>)
    ensures |b| == 8
  {
    [(x & 0xff) as bv8, ((x >> 8) & 0xff) as bv8, ((x >> 16) & 0xff) as bv8, ((x >> 24) & 0xff) as bv8,
     ((x >> 32) & 0xff) as bv8, ((x >> 40) & 0xff) as bv8, ((x >> 48) & 0xff) as bv8, ((x >> 56) & 0xff) as bv8]
  }

  function Load(b: seq<bv8>): bv64
    requires |b| == 8
  {
    (b[0] as bv64) | ((b[1] as bv64) << 8) | ((b[2] as bv64) << 16) | ((b[3] as bv64) << 24)
    | ((b[4] as bv64) << 32) | ((b[5] as bv64) << 40) | ((b[6] as bv64) << 48) | ((b[7] as bv64) << 56)
  }

  /** `v` shifted to byte position `j` of a word. */
  function Shifted(v: bv8, j: nat): bv64
    requires j < 8
  {
    var x := v as bv64;
    if j == 0 then x else if j == 1 then x << 8 else if j == 2 then x << 16 else if j == 3 then x << 24
    else if j == 4 then x << 32 else if j == 5 then x << 40 else if j == 6 then x << 48 else x << 56
  }

  /** The word shifted down by `j` bytes, truncated to a byte. */
  function Lowered(x: bv64, j: nat): bv8
    requires j < 8
  {
    var y := if j == 0 then x else if j == 1 then x >> 8 else if j == 2 then x >> 16 else if j == 3 then x >> 24
             else if j == 4 then x >> 32 else if j == 5 then x >> 40 else if j == 6 then x >> 48 else x >> 56;
    (y & 0xff) as bv8
  }

  lemma LoadBytes(x: bv64)
    ensures Load(WordBytes(x)) == x
  {
  }

  lemma BytesLoad(b: seq<bv8>)
    requires |b| == 8
    ensures WordBytes(Load(b)) == b
  {
  }

  function Xor(a: seq<bv8>, b: seq<bv8>): (r: seq<bv8>)
    requires |a| == |b|
    ensures |r| == |a|
  {
    seq(|a|, i requires 0 <= i < |a| => a[i] ^ b[i])
  }

  /** Exclusive or of words, named so that proofs can treat it abstractly. */
  function XorWords(x: bv64, y: bv64): bv64 { x ^ y }

  lemma LoadXor(a: seq<bv8>, b: seq<bv8>)
    requires |a| == |b| == 8
    ensures Load(Xor(a, b)) == XorWords(Load(a), Load(b))
  {
  }

  lemma LoweredIs(x: bv64, j: nat)
    requires j < 8
    ensures Lowered(x, j) == WordBytes(x)[j]
  {
  }

  const ZEROS: seq<bv8> := [0, 0, 0, 0, 0, 0, 0, 0]

  lemma ShiftedLoad(v: bv8, j: nat)
    requires j < 8
    ensures Shifted(v, j) == Load(ZEROS[j := v])
  {
    if j < 2 {
    } else if j < 4 {
    } else if j < 6 {
    } else {
    }
  }

  lemma ShiftedBytes(v: bv8, j: nat)
    requires j < 8
    ensures WordBytes(Shifted(v, j)) == ZEROS[j := v]
  {
    hide WordBytes, Shifted, Load;
    ShiftedLoad(v, j);
    BytesLoad(ZEROS[j := v]);
  }

  lemma BytesXor(x: bv64, y: bv64)
    ensures WordBytes(XorWords(x, y)) == Xor(WordBytes(x), WordBytes(y))
  {
    hide WordBytes, Load, Xor, XorWords;
    LoadBytes(x);
    LoadBytes(y);
    LoadXor(WordBytes(x), WordBytes(y));
    BytesLoad(Xor(WordBytes(x), WordBytes(y)));
  }

  /** Bytes of `a` where the mask is clear, with those of `b` laid over. */
  function Laid(a: seq<bv8>, mask: seq<bv8>, b: seq<bv8>): (r: seq<bv8>)
    requires |a| == |mask| == |b|
    ensures |r| == |a|
  {
    seq(|a|, i requires 0 <= i < |a| => (a[i] & !mask[i]) | b[i])
  }

  function LaidWords(x: bv64, mask: bv64, y: bv64): bv64 { (x & !mask) | y }

  lemma LoadLaid(a: seq<bv8>, mask: seq<bv8>, b: seq<bv8>)
    requires |a| == |mask| == |b| == 8
    ensures Load(Laid(a, mask, b)) == LaidWords(Load(a), Load(mask), Load(b))
  {
  }

  /** Flipping by a shifted byte touches that byte alone. */
  lemma XorShifted(x: bv64, j: nat, v: bv8)
    requires j < 8
    ensures WordBytes(XorWords(x, Shifted(v, j))) == WordBytes(x)[j := WordBytes(x)[j] ^ v]
  {
    hide WordBytes, Shifted, XorWords, Xor;
    BytesXor(x, Shifted(v, j));
    ShiftedBytes(v, j);
    XorOne(WordBytes(x), j, v);
  }

  lemma XorOne(a: seq<bv8>, j: nat, v: bv8)
    requires |a| == 8 && j < 8
    ensures Xor(a, ZEROS[j := v]) == a[j := a[j] ^ v]
  {
    var r := Xor(a, ZEROS[j := v]);
    forall k | 0 <= k < 8 ensures r[k] == a[j := a[j] ^ v][k] {
      XorZero(a[k]);
    }
  }

  lemma XorZero(x: bv8)
    ensures x ^ 0 == x
  {
  }

  /** A byte of a word masked out and another put in its place. */
  function Replaced(x: bv64, j: nat, v: bv8): bv64
    requires j < 8
  {
    LaidWords(x, Shifted(255, j), Shifted(v, j))
  }

  lemma PutShifted(x: bv64, j: nat, v: bv8)
    requires j < 8
    ensures WordBytes(Replaced(x, j, v)) == WordBytes(x)[j := v]
  {
    hide WordBytes, Shifted, Load, Laid, LaidWords;
    var a := WordBytes(x);
    LoadBytes(x);
    ShiftedLoad(255, j);
    ShiftedLoad(v, j);
    LoadLaid(a, ZEROS[j := 255], ZEROS[j := v]);
    BytesLoad(Laid(a, ZEROS[j := 255], ZEROS[j := v]));
    LaidByte(a, j, v);
  }

  lemma LaidByte(a: seq<bv8>, j: nat, v: bv8)
    requires |a| == 8 && j < 8
    ensures Laid(a, ZEROS[j := 255], ZEROS[j := v]) == a[j := v]
  {
    var r := Laid(a, ZEROS[j := 255], ZEROS[j := v]);
    forall k | 0 <= k < 8 ensures r[k] == a[j := v][k] {
      MaskByte(a[k], v);
    }
  }

  lemma MaskByte(x: bv8, v: bv8)
    ensures (x & !255) | v == v && (x & !0) | 0 == x
  {
  }

  // ---------------------------------------------------------------- the mode

  /** The 16 bytes of the state that meet the data. */
  function Rate(s: Lanes): (r: seq<bv8>)
    ensures |r| == 16
  {
    WordBytes(s.s0) + WordBytes(s.s1)
  }

  function WithRate(s: Lanes, r: seq<bv8>): Lanes
    requires |r| == 16
  {
    s.(s0 := Load(r[..8]), s1 := Load(r[8..]))
  }

  lemma WithOwnRate(s: Lanes)
    ensures WithRate(s, Rate(s)) == s
  {
    hide WordBytes, Load;
    assert Rate(s)[..8] == WordBytes(s.s0) && Rate(s)[8..] == WordBytes(s.s1);
    LoadBytes(s.s0);
    LoadBytes(s.s1);
  }

  /** A final, partial block with the padding bit after it. */
  function Padded(m: seq<bv8>): (r: seq<bv8>)
    requires |m| < 16
    ensures |r| == 16
  {
    m + [1] + seq(15 - |m|, _ => 0)
  }

  function Absorb(p: Permutation, s: Lanes, ad: seq<bv8>): Lanes
    decreases |ad|
  {
    if |ad| < 16 then p(WithRate(s, Xor(Rate(s), Padded(ad))), 8)
    else Absorb(p, p(WithRate(s, Xor(Rate(s), ad[..16])), 8), ad[16..])
  }

  /** Ciphertext and final state; the final state has taken up the padded last block. */
  function Encipher(p: Permutation, s: Lanes, m: seq<bv8>): (r: (seq<bv8>, Lanes))
    ensures |r.0| == |m|
    decreases |m|
  {
    if |m| < 16 then (Xor(Rate(s)[..|m|], m), WithRate(s, Xor(Rate(s), Padded(m))))
    else
      var c := Xor(Rate(s), m[..16]);
      var rest := Encipher(p, p(WithRate(s, c), 8), m[16..]);
      (c + rest.0, rest.1)
  }

  /** Plaintext and final state: the ciphertext replaces the rate. */
  function Decipher(p: Permutation, s: Lanes, c: seq<bv8>): (r: (seq<bv8>, Lanes))
    ensures |r.0| == |c|
    decreases |c|
  {
    if |c| < 16 then
      (Xor(Rate(s)[..|c|], c), WithRate(s, c + Xor(Rate(s)[|c|..], [1] + seq(15 - |c|, _ => 0))))
    else
      var rest := Decipher(p, p(WithRate(s, c[..16]), 8), c[16..]);
      (Xor(Rate(s), c[..16]) + rest.0, rest.1)
  }

  datatype Context = Context(p: Permutation, k0: bv64, k1: bv64)

  function Start(x: Context, nonce: Block, ad: seq<bv8>): Lanes {
    var s := x.p(Lanes(0x00001000808c0001, x.k0, x.k1, Load(nonce[..8]), Load(nonce[8..])), 12);
    var keyed := s.(s3 := XorWords(s.s3, x.k0), s4 := XorWords(s.s4, x.k1));
    var absorbed := if ad == [] then keyed else Absorb(x.p, keyed, ad);
    absorbed.(s4 := XorWords(absorbed.s4, 0x8000000000000000))
  }

  function Tag(x: Context, s: Lanes): (t: Block) {
    var keyed := x.p(s.(s2 := XorWords(s.s2, x.k0), s3 := XorWords(s.s3, x.k1)), 12);
    WordBytes(XorWords(keyed.s3, x.k0)) + WordBytes(XorWords(keyed.s4, x.k1))
  }

  function Seal(x: Context, nonce: Block, ad: seq<bv8>, m: seq<bv8>): (seq<bv8>, Block) {
    var r := Encipher(x.p, Start(x, nonce, ad), m);
    (r.0, Tag(x, r.1))
  }

  function Unseal(x: Context, nonce: Block, ad: seq<bv8>, c: seq<bv8>): (seq<bv8>, Block) {
    var r := Decipher(x.p, Start(x, nonce, ad), c);
    (r.0, Tag(x, r.1))
  }

  // ---------------------------------------------------------------- inverse

  lemma XorTwice(r: seq<bv8>, m: seq<bv8>)
    requires |r| == |m|
    ensures Xor(r, Xor(r, m)) == m
  {
  }

  lemma LastBlock(s: Lanes, m: seq<bv8>)
    requires |m| < 16
    ensures var c := Xor(Rate(s)[..|m|], m);
            c + Xor(Rate(s)[|m|..], [1] + seq(15 - |m|, _ => 0)) == Xor(Rate(s), Padded(m))
  {
    hide Rate;
    JoinXor(Rate(s)[..|m|], m, Rate(s)[|m|..], [1] + seq(15 - |m|, _ => 0));
    assert Rate(s)[..|m|] + Rate(s)[|m|..] == Rate(s);
    assert m + ([1] + seq(15 - |m|, _ => 0)) == Padded(m);
  }

  lemma JoinXor(a: seq<bv8>, b: seq<bv8>, c: seq<bv8>, d: seq<bv8>)
    requires |a| == |b| && |c| == |d|
    ensures Xor(a, b) + Xor(c, d) == Xor(a + c, b + d)
  {
  }

  /** Deciphering walks through the very states of enciphering. */
  lemma {:induction false} DecipherInverts(p: Permutation, s: Lanes, m: seq<bv8>)
    ensures Decipher(p, s, Encipher(p, s, m).0) == (m, Encipher(p, s, m).1)
    decreases |m|
  {
    hide Rate, WithRate;
    if |m| < 16 {
      XorTwice(Rate(s)[..|m|], m);
      LastBlock(s, m);
    } else {
      var c := Xor(Rate(s), m[..16]);
      var next := p(WithRate(s, c), 8);
      var rest := Encipher(p, next, m[16..]);
      assert (c + rest.0)[..16] == c && (c + rest.0)[16..] == rest.0;
      DecipherInverts(p, next, m[16..]);
      XorTwice(Rate(s), m[..16]);
      assert m[..16] + m[16..] == m;
    }
  }

  /** And enciphering through those of deciphering: the two are mutually inverse. */
  lemma {:induction false} EncipherInverts(p: Permutation, s: Lanes, c: seq<bv8>)
    ensures Encipher(p, s, Decipher(p, s, c).0) == (c, Decipher(p, s, c).1)
    decreases |c|
  {
    hide Rate, WithRate;
    if |c| < 16 {
      var m := Xor(Rate(s)[..|c|], c);
      XorTwice(Rate(s)[..|c|], c);
      LastBlock(s, m);
    } else {
      var m := Xor(Rate(s), c[..16]);
      var next := p(WithRate(s, c[..16]), 8);
      var rest := Decipher(p, next, c[16..]);
      assert (m + rest.0)[..16] == m && (m + rest.0)[16..] == rest.0;
      XorTwice(Rate(s), c[..16]);
      EncipherInverts(p, next, c[16..]);
      assert c[..16] + c[16..] == c;
    }
  }

  /** What encryption produces is accepted and gives the message back. */
  lemma SealedOpens(x: Context, nonce: Block, ad: seq<bv8>, m: seq<bv8>)
    ensures var (c, tag) := Seal(x, nonce, ad, m); Unseal(x, nonce, ad, c) == (m, tag)
  {
    DecipherInverts(x.p, Start(x, nonce, ad), m);
  }

  /** Nothing else is accepted: a ciphertext and tag that check out are what encrypting
      the plaintext gives. */
  lemma OpenedWasSealed(x: Context, nonce: Block, ad: seq<bv8>, c: seq<bv8>)
    ensures Seal(x, nonce, ad, Unseal(x, nonce, ad, c).0) == (c, Unseal(x, nonce, ad, c).1)
  {
    EncipherInverts(x.p, Start(x, nonce, ad), c);
  }
}
