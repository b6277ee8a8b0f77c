/** The IPv4 header checksum and the compensation of a spent hop (src/ip.hpp). */
module Ip {
  import opened Bytes

  const HEADER_MIN := 20

  function Word(s: bytes, i: nat): nat
    requires i < |s|
  {
    var high: int := s[i];
    high * 256 + (if i + 1 < |s| then s[i + 1] else 0)
  }

  /** The sum of the 16-bit words; an odd last octet is a high one. */
  function Total(s: bytes): nat
    decreases |s|
  {
    if s == [] then 0 else Word(s, 0) + Total(if |s| == 1 then [] else s[2..])
  }

  /** The ones' complement sum of a number of words: the total, with every carry out of 16
      bits added back. Zero stays zero, every other total has a value from 1 to 65535. */
  function Ones(n: nat): nat { if n == 0 then 0 else (n - 1) % 65535 + 1 }

  function Checksum(s: bytes): nat { 65535 - Ones(Total(s)) }

  // ---------------------------------------------------------------- folding

  function Fold(n: nat): nat { n % 65536 + n / 65536 }

  lemma FoldKeeps(n: nat)
    ensures Ones(Fold(n)) == Ones(n) && (n >= 65536 ==> Fold(n) < n) && (n > 0 ==> Fold(n) > 0)
  {
    var low, high := n % 65536, n / 65536;
    assert n == 65535 * high + Fold(n);
    if n > 0 && Fold(n) > 0 { ModShift(Fold(n) - 1, high); }
  }

  lemma {:induction false} ModShift(a: nat, k: nat)
    ensures (65535 * k + a) % 65535 == a % 65535
  {
  }

  lemma OnesSmall(n: nat)
    requires n < 65536
    ensures Ones(n) == n
  {
  }

  /** Adding to a folded sum is adding to the total. */
  lemma OnesAdd(a: nat, b: nat, c: nat)
    requires Ones(a) == Ones(b)
    ensures Ones(a + c) == Ones(b + c)
  {
    if a != 0 && b != 0 {
      SameMod(a - 1, b - 1, c);
    }
  }

  lemma SameMod(a: nat, b: nat, c: nat)
    requires a % 65535 == b % 65535
    ensures (a + c) % 65535 == (b + c) % 65535
  {
    var q, p := a / 65535, b / 65535;
    var m := a % 65535;
    assert a + c == 65535 * q + (m + c) && b + c == 65535 * p + (m + c);
    ModShift(m + c, q);
    ModShift(m + c, p);
  }

  /** Folds until the sum fits 16 bits. */
  method FoldAll(n: nat) returns (r: nat)
    ensures r < 65536 && r == Ones(n)
  {
    hide Ones, Fold;
    r := n;
    while r >= 65536
      invariant Ones(r) == Ones(n)
      decreases r
    {
      FoldKeeps(r);
      r := FoldOnce(r);
    }
    OnesSmall(r);
  }

  method FoldOnce(n: nat) returns (r: nat)
    ensures r == Fold(n)
  {
    r := n % 65536 + n / 65536;
  }

  /** Addition with the carry brought round. */
  function Carried(a: nat, b: nat): nat { if a + b >= 65536 then a + b - 65535 else a + b }

  function CarriedSum(s: bytes): nat
    decreases |s|
  {
    if s == [] then 0 else Carried(Word(s, 0), CarriedSum(if |s| == 1 then [] else s[2..]))
  }

  /** Carrying round at every addition comes to the same as at the end. */
  lemma {:induction false} CarriedSumIsOnes(s: bytes)
    ensures CarriedSum(s) == Ones(Total(s)) < 65536
    decreases |s|
  {
    if s != [] {
      var rest := if |s| == 1 then [] else s[2..];
      CarriedSumIsOnes(rest);
      var t := Total(rest);
      OnesSmall(Ones(t));
      OnesAdd(Ones(t), t, Word(s, 0));
    }
  }

  // ---------------------------------------------------------------- the checksum loop

  lemma {:induction false} TotalSplits(s: bytes, i: nat)
    requires i <= |s| && i % 2 == 0
    ensures Total(s) == Total(s[..i]) + Total(s[i..])
    decreases |s|
  {
    if i == 0 {
      assert s[..0] == [] && s[0..] == s;
    } else {
      assert s[..i][2..] == s[2..][..i - 2] && s[2..][i - 2..] == s[i..];
      TotalSplits(s[2..], i - 2);
    }
  }

  lemma TotalNext(s: bytes, i: nat)
    requires i + 1 < |s| && i % 2 == 0
    ensures Total(s[..i + 2]) == Total(s[..i]) + Word(s, i)
  {
    var t := s[..i + 2];
    TotalSplits(t, i);
    assert t[..i] == s[..i] && t[i..] == [s[i], s[i + 1]] && t[i..][2..] == [];
  }

  /** `ipv4_header_checksum`: folding as it goes gives the canonical sum. */
  method HeaderChecksum(data: array<byte>, size: nat) returns (checksum: nat)
    requires size <= data.Length
    ensures checksum == Checksum(data[..size]) < 65536
  {
    hide Ones, Word, Total;
    ghost var s := data[..size];
    var sum, i := 0, 0;
    TotalNone(s);
    while i + 1 < size
      invariant i <= size && i % 2 == 0 && sum < 65536 && sum == Ones(Total(s[..i]))
    {
      TotalNext(s, i);
      OnesSmall(sum);
      OnesAdd(sum, Total(s[..i]), Word(s, i));
      sum := AddWord(sum, data[i], data[i + 1]);
      assert Word(s, i) == (s[i] as int) * 256 + s[i + 1] by { WordIs(s, i); }
      sum := FoldAll(sum);
      i := i + 2;
    }
    if size % 2 == 1 {
      TotalLast(s);
      OnesSmall(sum);
      OnesAdd(sum, Total(s[..size - 1]), Word(s, size - 1));
      WordIs(s, size - 1);
      sum := AddWord(sum, data[size - 1], 0);
    } else {
      assert s[..i] == s;
      OnesSmall(sum);
    }
    sum := FoldAll(sum);
    OnesBound(Total(s));
    return 65535 - sum;
  }

  method AddWord(sum: nat, high: byte, low: byte) returns (r: nat)
    ensures r == sum + (high as int) * 256 + low
  {
    var h: int := high;
    r := sum + h * 256 + low;
  }

  lemma TotalNone(s: bytes)
    ensures Total(s[..0]) == 0 && Ones(0) == 0
  {
  }

  lemma WordIs(s: bytes, i: nat)
    requires i < |s|
    ensures Word(s, i) == (s[i] as int) * 256 + (if i + 1 < |s| then s[i + 1] else 0)
  {
  }

  lemma OnesBound(n: nat)
    ensures Ones(n) <= 65535
  {
  }

  lemma TotalLast(s: bytes)
    requires |s| % 2 == 1
    ensures Total(s) == Total(s[..|s| - 1]) + Word(s, |s| - 1)
  {
    TotalSplits(s, |s| - 1);
    assert s[|s| - 1..] == [s[|s| - 1]];
  }

  // ---------------------------------------------------------------- compensation

  lemma {:induction false} TotalReplaced(s: bytes, i: nat, a: byte, b: byte)
    requires i + 1 < |s| && i % 2 == 0
    ensures Total(s[i := a][i + 1 := b]) == Total(s) - Word(s, i) + (a as int) * 256 + b
  {
    var t := s[i := a][i + 1 := b];
    TotalSplits(s, i);
    TotalSplits(t, i);
    assert t[..i] == s[..i];
    assert t[i..][2..] == s[i..][2..];
    WordIs(t[i..], 0);
    WordIs(s[i..], 0);
    WordIs(s, i);
  }

  /** A two-octet number put in place. */
  function Sealed(s: bytes, i: nat, c: nat): bytes
    requires i + 1 < |s| && c < 65536
  {
    var high: byte, low: byte := c / 256, c % 256;
    s[i := high][i + 1 := low]
  }

  /** Putting the checksum where zeros were makes the whole sum up to all ones. */
  lemma ChecksumVerifies(s: bytes, i: nat)
    requires i + 1 < |s| && i % 2 == 0 && s[i] == 0 && s[i + 1] == 0
    ensures 0 <= Checksum(s) < 65536 && Checksum(Sealed(s, i, Checksum(s))) == 0
  {
    hide Total;
    var n := Total(s);
    OnesBound(n);
    var c := Checksum(s);
    TotalReplaced(s, i, c / 256, c % 256);
    WordIs(s, i);
    assert (c / 256) * 256 + c % 256 == c;
    FullOnes(n);
  }

  lemma FullOnes(n: nat)
    ensures Ones(n + 65535 - Ones(n)) == 65535
  {
    if n > 0 {
      var q, m := (n - 1) / 65535, (n - 1) % 65535;
      assert n == 65535 * q + m + 1;
      assert n + 65535 - Ones(n) - 1 == 65535 * q + 65534;
      ModShift(65534, q);
    }
  }

  /** The header length in the first octet. */
  function HeaderSize(first: byte): nat { (first % 16) * 4 }

  /** `compensate_ipv4_ttl`: refuses what is no header; a hop count at its maximum stays;
      otherwise it goes up by one and the header verifies, the rest of the packet being
      untouched. */
  method CompensateTtl(packet: array<byte>, size: nat) returns (ok: bool)
    requires size <= packet.Length
    modifies packet
    ensures ok <==> size >= HEADER_MIN && HEADER_MIN <= HeaderSize(old(packet[0])) <= size
    ensures !ok || old(packet[8]) == 255 ==> packet[..] == old(packet[..])
    ensures ok && old(packet[8]) < 255 ==>
              && packet[8] == old(packet[8]) + 1
              && Checksum(packet[..HeaderSize(old(packet[0]))]) == 0
              && forall k :: 0 <= k < packet.Length && k != 8 && k != 10 && k != 11 ==> packet[k] == old(packet[k])
  {
    hide Checksum;
    if size < HEADER_MIN { return false; }
    var header := HeaderSize(packet[0]);
    if header < HEADER_MIN || header > size { return false; }
    if packet[8] == 255 { return true; }
    packet[8] := packet[8] + 1;
    packet[10] := 0;
    packet[11] := 0;
    ghost var s := packet[..header];
    var checksum := HeaderChecksum(packet, header);
    ChecksumVerifies(s, 10);
    packet[10] := checksum / 256;
    packet[11] := checksum % 256;
    assert packet[..header] == Sealed(s, 10, checksum);
    return true;
  }
}
