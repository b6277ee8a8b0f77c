/** Bounded decimal lengths (src/control_protocol.hpp) and their textual form. */
module ControlProtocol {
  import opened Bytes

  const CHUNK := 16384

  predicate IsDigit(c: byte) { 0x30 <= c <= 0x39 }

  predicate AllDigits(s: bytes) { forall i :: 0 <= i < |s| ==> IsDigit(s[i]) }

  /** The number that a string of digits denotes. */
  function Value(s: bytes): nat
    requires AllDigits(s)
  {
    if s == [] then 0 else Value(s[..|s| - 1]) * 10 + (s[|s| - 1] - 0x30)
  }

  lemma {:induction false} PrefixValue(s: bytes, i: nat)
    requires AllDigits(s) && i <= |s|
    ensures Value(s[..i]) <= Value(s)
    decreases |s|
  {
    if i < |s| {
      var front := s[..|s| - 1];
      assert front[..i] == s[..i];
      PrefixValue(front, i);
    } else {
      assert s[..i] == s;
    }
  }

  /** `control_length`: the value, exactly for nonempty digit strings within the limit. No
      intermediate value exceeds the limit, so a machine word that holds the limit
      suffices. */
  method ControlLength(s: bytes, maximum: nat) returns (r: Option<nat>)
    ensures r.Some? <==> s != [] && AllDigits(s) && Value(s) <= maximum
    ensures r.Some? ==> r.value == Value(s)
  {
    if s == [] { return None; }
    for i := 0 to |s|
      invariant AllDigits(s[..i])
    {
      if !IsDigit(s[i]) { return None; }
    }
    var value := 0;
    for i := 0 to |s|
      invariant AllDigits(s) && value == Value(s[..i]) <= maximum
    {
      var digit := s[i] - 0x30;
      assert s[..i + 1][..i] == s[..i];
      if digit > maximum || value > (maximum - digit) / 10 {
        PrefixValue(s, i + 1);
        return None;
      }
      value := value * 10 + digit;
    }
    assert s[..|s|] == s;
    return Some(value);
  }

  /** The decimal form of a number, without leading zeros. */
  function Decimal(n: nat): (s: bytes)
    ensures s != [] && AllDigits(s)
  {
    if n < 10 then [0x30 + n] else Decimal(n / 10) + [0x30 + n % 10]
  }

  lemma {:induction false} DecimalValue(n: nat)
    ensures Value(Decimal(n)) == n
  {
    if n < 10 {
      assert [0x30 + n][..0] == [];
    } else {
      DecimalValue(n / 10);
      var s := Decimal(n);
      assert s[..|s| - 1] == Decimal(n / 10);
    }
  }

  function Pow10(k: nat): nat { if k == 0 then 1 else 10 * Pow10(k - 1) }

  lemma {:induction false} DecimalLength(n: nat, k: nat)
    requires k > 0
    ensures |Decimal(n)| <= k <==> n < Pow10(k)
    decreases k
  {
    if k == 1 {
      assert Pow10(1) == 10;
    } else if n >= 10 {
      DecimalLength(n / 10, k - 1);
    } else {
      Pow10Above(k);
    }
  }

  lemma {:induction false} Pow10Above(k: nat)
    requires k > 0
    ensures Pow10(k) >= 10
  {
    if k > 1 { Pow10Above(k - 1); }
  }

  // ---------------------------------------------------------------- chunks

  /** A text cut into pieces of at most `CHUNK` bytes. */
  function Chunks(s: bytes): (r: seq<bytes>)
    ensures forall p :: p in r ==> 1 <= |p| <= CHUNK
    decreases |s|
  {
    if s == [] then [] else if |s| <= CHUNK then [s] else [s[..CHUNK]] + Chunks(s[CHUNK..])
  }

  lemma {:induction false} JoinChunks(s: bytes)
    ensures Join(Chunks(s)) == s
    decreases |s|
  {
    if |s| > CHUNK {
      JoinChunks(s[CHUNK..]);
      assert ([s[..CHUNK]] + Chunks(s[CHUNK..]))[1..] == Chunks(s[CHUNK..]);
    } else if s != [] {
      assert [s][1..] == [];
    }
  }

  lemma {:induction false} JoinConcat(a: seq<bytes>, b: seq<bytes>)
    ensures Join(a + b) == Join(a) + Join(b)
  {
    if a == [] {
      assert a + b == b;
    } else {
      assert (a + b)[1..] == a[1..] + b;
      JoinConcat(a[1..], b);
      Assoc(a[0], Join(a[1..]), Join(b));
    }
  }
}
