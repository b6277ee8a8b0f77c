/** Bytes, fixed-width integers and identifiers shared by every wire format, with
    the big-endian encoding that the C++ side writes and reads with shifts. */
module Bytes {
  type byte = x: int | 0 <= x < 256
  type bytes = seq<byte>
  type u32 = x: int | 0 <= x < 0x1_0000_0000
  type u64 = x: int | 0 <= x < 0x1_0000_0000_0000_0000

  const ZERO_ID: seq<byte> := [0, 0, 0, 0, 0, 0, 0, 0, 0, 0, 0, 0, 0, 0, 0, 0]
  const ZERO_KEY: seq<byte> := ZERO_ID + ZERO_ID

  /** Challenges and proofs on the wire. */
  const CHALLENGE_SIZE := 80
  const PROOF_SIZE := 88

  /** A request, instance or link-token identifier. */
  type Id = s: bytes | |s| == 16 witness ZERO_ID
  /** An X25519 key. */
  type Key = s: bytes | |s| == 32 witness ZERO_KEY

  datatype Option<+T> = None | Some(value: T)

  /** The bytes of an ASCII text. */
  function Text(s: string): bytes {
    seq(|s|, i requires 0 <= i < |s| => (s[i] as int) % 256)
  }

  function Pow256(w: nat): (p: nat)
    ensures p > 0
  {
    if w == 0 then 1 else 256 * Pow256(w - 1)
  }

  /** The `w` low-order bytes of `n`, most significant first. */
  function ToBe(n: nat, w: nat): (b: bytes)
    ensures |b| == w
    decreases w
  {
    if w == 0 then [] else ToBe(n / 256, w - 1) + [n % 256]
  }

  function FromBe(b: bytes): (n: nat)
    ensures n < Pow256(|b|)
  {
    if b == [] then 0 else FromBe(b[..|b| - 1]) * 256 + b[|b| - 1]
  }

  lemma {:induction false} FromToBe(n: nat, w: nat)
    requires n < Pow256(w)
    ensures FromBe(ToBe(n, w)) == n
    decreases w
  {
    if w > 0 {
      FromToBe(n / 256, w - 1);
      assert ToBe(n, w)[..w - 1] == ToBe(n / 256, w - 1);
    }
  }

  lemma {:induction false} ToFromBe(b: bytes)
    ensures ToBe(FromBe(b), |b|) == b
  {
    if b != [] {
      ToFromBe(b[..|b| - 1]);
      assert b == b[..|b| - 1] + [b[|b| - 1]];
    }
  }

  lemma Widths()
    ensures Pow256(2) == 0x1_0000
    ensures Pow256(4) == 0x1_0000_0000
    ensures Pow256(8) == 0x1_0000_0000_0000_0000
  {
    assert Pow256(1) == 256;
    assert Pow256(3) == 256 * Pow256(2);
    assert Pow256(5) == 256 * Pow256(4);
    assert Pow256(6) == 256 * Pow256(5);
    assert Pow256(7) == 256 * Pow256(6);
  }

  lemma Cut(a: bytes, b: bytes)
    ensures (a + b)[..|a|] == a && (a + b)[|a|..] == b
  {
  }

  // A wire layout is a list of parts; writing joins them, reading splits by length.

  function Join(parts: seq<bytes>): bytes {
    if parts == [] then [] else parts[0] + Join(parts[1..])
  }

  function Lengths(parts: seq<bytes>): (lens: seq<nat>)
    ensures |lens| == |parts|
    ensures forall i :: 0 <= i < |parts| ==> lens[i] == |parts[i]|
  {
    seq(|parts|, i requires 0 <= i < |parts| => |parts[i]|)
  }

  function Sum(lens: seq<nat>): (s: nat)
    ensures lens == [] ==> s == 0
  {
    if lens == [] then 0 else lens[0] + Sum(lens[1..])
  }

  function Split(b: bytes, lens: seq<nat>): (parts: seq<bytes>)
    requires Sum(lens) <= |b|
    ensures |parts| == |lens|
    ensures forall i :: 0 <= i < |lens| ==> |parts[i]| == lens[i]
    decreases |lens|
  {
    if lens == [] then [] else [b[..lens[0]]] + Split(b[lens[0]..], lens[1..])
  }

  lemma {:induction false} JoinLength(parts: seq<bytes>)
    ensures |Join(parts)| == Sum(Lengths(parts))
  {
    if parts != [] {
      JoinLength(parts[1..]);
      assert Lengths(parts)[1..] == Lengths(parts[1..]);
    }
  }

  /** What was written can be read back, whatever follows it. */
  lemma {:induction false} SplitJoin(parts: seq<bytes>, rest: bytes)
    ensures Sum(Lengths(parts)) == |Join(parts)|
    ensures Split(Join(parts) + rest, Lengths(parts)) == parts
  {
    JoinLength(parts);
    if parts != [] {
      var tail := Join(parts[1..]) + rest;
      assert Join(parts) + rest == parts[0] + tail;
      Cut(parts[0], tail);
      assert Lengths(parts)[1..] == Lengths(parts[1..]);
      SplitJoin(parts[1..], rest);
      assert parts == [parts[0]] + parts[1..];
    }
  }

  /** Reading a whole string and writing the parts gives the string again. */
  lemma {:induction false} JoinSplit(b: bytes, lens: seq<nat>)
    requires Sum(lens) == |b|
    ensures Join(Split(b, lens)) == b
    decreases |lens|
  {
    if lens != [] {
      JoinSplit(b[lens[0]..], lens[1..]);
      assert Split(b, lens)[1..] == Split(b[lens[0]..], lens[1..]);
      assert b == b[..lens[0]] + b[lens[0]..];
    }
  }

  lemma Assoc<T>(x: seq<T>, y: seq<T>, z: seq<T>)
    ensures x + y + z == x + (y + z)
  {
  }
}
