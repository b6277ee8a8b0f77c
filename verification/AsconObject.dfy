/** The in-place implementation of Ascon-AEAD128 (src/ascon.hpp): word-wise through full
    blocks, byte-wise through the rest, on buffers that may overlap. */
module AsconObject {
  import opened Ascon

  // ---------------------------------------------------------------- words of the state, by byte

  function Get(s: Lanes, i: nat): bv8
    requires i < 16
  {
    if i < 8 then Lowered(s.s0, i) else Lowered(s.s1, i - 8)
  }

  function Flip(s: Lanes, i: nat, v: bv8): Lanes
    requires i < 16
  {
    if i < 8 then s.(s0 := XorWords(s.s0, Shifted(v, i))) else s.(s1 := XorWords(s.s1, Shifted(v, i - 8)))
  }

  function Put(s: Lanes, i: nat, v: bv8): Lanes
    requires i < 16
  {
    if i < 8 then s.(s0 := Replaced(s.s0, i, v)) else s.(s1 := Replaced(s.s1, i - 8, v))
  }

  lemma GetIs(s: Lanes, i: nat)
    requires i < 16
    ensures Get(s, i) == Rate(s)[i]
  {
    hide WordBytes, Lowered;
    if i < 8 { LoweredIs(s.s0, i); } else { LoweredIs(s.s1, i - 8); }
  }

  /** States that agree in the rate and in the other lanes are equal. */
  lemma RateDetermines(s: Lanes, t: Lanes, r: seq<bv8>)
    requires t == s.(s0 := t.s0, s1 := t.s1) && r == Rate(t)
    ensures t == WithRate(s, r)
  {
    hide Rate, WithRate;
    WithOwnRate(t);
    assert WithRate(t, Rate(t)) == WithRate(s, Rate(t)) by { SameBut(s, t, Rate(t)); }
  }

  lemma SameBut(s: Lanes, t: Lanes, r: seq<bv8>)
    requires t == s.(s0 := t.s0, s1 := t.s1) && |r| == 16
    ensures WithRate(t, r) == WithRate(s, r)
  {
    hide Load;
  }

  lemma FlipIs(s: Lanes, i: nat, v: bv8)
    requires i < 16
    ensures Rate(Flip(s, i, v)) == Rate(s)[i := Rate(s)[i] ^ v]
  {
    hide WordBytes, XorWords, Shifted;
    JoinUpdate(WordBytes(s.s0), WordBytes(s.s1), i, Rate(s)[i] ^ v);
    if i < 8 { XorShifted(s.s0, i, v); } else { XorShifted(s.s1, i - 8, v); }
  }

  lemma JoinUpdate(a: seq<bv8>, b: seq<bv8>, i: nat, x: bv8)
    requires i < |a| + |b|
    ensures (a + b)[i := x] == if i < |a| then a[i := x] + b else a + b[i - |a| := x]
  {
  }

  lemma PutIs(s: Lanes, i: nat, v: bv8)
    requires i < 16
    ensures Rate(Put(s, i, v)) == Rate(s)[i := v]
  {
    hide WordBytes, Replaced;
    JoinUpdate(WordBytes(s.s0), WordBytes(s.s1), i, v);
    if i < 8 { PutShifted(s.s0, i, v); } else { PutShifted(s.s1, i - 8, v); }
  }

  /** Taking a whole block into two words. */
  function Mixed(s: Lanes, block: seq<bv8>): Lanes
    requires |block| == 16
  {
    s.(s0 := XorWords(s.s0, Load(block[..8])), s1 := XorWords(s.s1, Load(block[8..])))
  }

  lemma MixedIs(s: Lanes, block: seq<bv8>)
    requires |block| == 16
    ensures Rate(Mixed(s, block)) == Xor(Rate(s), block) && Mixed(s, block) == WithRate(s, Xor(Rate(s), block))
  {
    hide Rate, Xor, WithRate, XorWords, Load;
    MixedRate(s, block);
    RateDetermines(s, Mixed(s, block), Xor(Rate(s), block));
  }

  lemma MixedRate(s: Lanes, block: seq<bv8>)
    requires |block| == 16
    ensures Rate(Mixed(s, block)) == Xor(Rate(s), block)
  {
    hide WordBytes, Load, XorWords, Xor;
    var a, b := block[..8], block[8..];
    BytesXor(s.s0, Load(a));
    BytesXor(s.s1, Load(b));
    BytesLoad(a);
    BytesLoad(b);
    JoinXor(WordBytes(s.s0), a, WordBytes(s.s1), b);
    assert a + b == block;
  }

  // ---------------------------------------------------------------- associated data

  /** The state after `i` bytes of a partial block: flipped in, or put in place. */
  ghost predicate Taken(decrypting: bool, s: Lanes, t: Lanes, m: seq<bv8>, i: nat)
    requires i <= |m| < 16
  {
    && t == s.(s0 := t.s0, s1 := t.s1)
    && Rate(t) == (if decrypting then m[..i] else Xor(Rate(s)[..i], m[..i])) + Rate(s)[i..]
  }

  function TakeByte(decrypting: bool, s: Lanes, i: nat, v: bv8): Lanes
    requires i < 16
  {
    if decrypting then Put(s, i, v) else Flip(s, i, v)
  }

  lemma TakeNext(decrypting: bool, s: Lanes, t: Lanes, m: seq<bv8>, i: nat)
    requires i < |m| < 16 && Taken(decrypting, s, t, m, i)
    ensures Taken(decrypting, s, TakeByte(decrypting, t, i, m[i]), m, i + 1) && Get(t, i) == Rate(s)[i]
  {
    hide Rate, XorWords, Shifted, Replaced, Get;
    GetIs(t, i);
    if decrypting {
      PutIs(t, i, m[i]);
      assert m[..i + 1] == m[..i] + [m[i]];
    } else {
      FlipIs(t, i, m[i]);
      XorNext(Rate(s), m, i);
    }
  }

  lemma TakenNone(decrypting: bool, s: Lanes, m: seq<bv8>)
    requires |m| < 16
    ensures Taken(decrypting, s, s, m, 0)
  {
  }

  lemma XorNext(rate: seq<bv8>, m: seq<bv8>, i: nat)
    requires i < |m| < |rate|
    ensures var t := Xor(rate[..i], m[..i]) + rate[i..];
            t[i := t[i] ^ m[i]] == Xor(rate[..i + 1], m[..i + 1]) + rate[i + 1..]
  {
    assert rate[i..] == [rate[i]] + rate[i + 1..];
    assert Xor(rate[..i + 1], m[..i + 1]) == Xor(rate[..i], m[..i]) + [rate[i] ^ m[i]];
  }

  /** With the padding bit the partial block is taken in whole. */
  lemma FlipLast(s: Lanes, t: Lanes, m: seq<bv8>)
    requires |m| < 16 && Taken(false, s, t, m, |m|)
    ensures Flip(t, |m|, 1) == WithRate(s, Xor(Rate(s), Padded(m)))
  {
    hide Rate, XorWords, Shifted, WithRate;
    FlipIs(t, |m|, 1);
    var r := Rate(Flip(t, |m|, 1));
    assert m[..|m|] == m;
    assert r == Xor(Rate(s), Padded(m)) by { PaddedRate(Rate(s), m, r); }
    RateDetermines(s, Flip(t, |m|, 1), r);
  }

  lemma PaddedRate(rate: seq<bv8>, m: seq<bv8>, r: seq<bv8>)
    requires |m| < 16 && |rate| == 16
    requires var t := Xor(rate[..|m|], m) + rate[|m|..]; r == t[|m| := t[|m|] ^ 1]
    ensures r == Xor(rate, Padded(m))
  {
    forall k | 0 <= k < 16 ensures r[k] == Xor(rate, Padded(m))[k] {
      if k > |m| {
        assert Padded(m)[k] == 0;
        XorZero(rate[k]);
      }
    }
  }

  method AbsorbData(p: Permutation, start: Lanes, ad: seq<bv8>) returns (s: Lanes)
    ensures s == Absorb(p, start, ad)
  {
    hide Rate, WithRate, Mixed, Flip, Taken, Padded;
    s := start;
    var at := 0;
    while |ad| - at >= 16
      invariant at <= |ad|
      invariant Absorb(p, s, ad[at..]) == Absorb(p, start, ad)
    {
      var block := ad[at..at + 16];
      assert ad[at..][..16] == block && ad[at..][16..] == ad[at + 16..];
      MixedIs(s, block);
      s := p(Mixed(s, block), 8);
      at := at + 16;
    }
    ghost var before, rest := s, ad[at..];
    TakenNone(false, before, rest);
    var i := 0;
    while i < |ad| - at
      invariant 0 <= i <= |ad| - at
      invariant Taken(false, before, s, rest, i)
    {
      TakeNext(false, before, s, rest, i);
      assert rest[i] == ad[at + i];
      s := Flip(s, i, ad[at + i]);
      i := i + 1;
    }
    FlipLast(before, s, rest);
    s := p(Flip(s, i, 1), 8);
  }

  // ---------------------------------------------------------------- message

  function Transform(decrypting: bool, p: Permutation, s: Lanes, m: seq<bv8>): (r: (seq<bv8>, Lanes))
    ensures |r.0| == |m|
  {
    if decrypting then Decipher(p, s, m) else Encipher(p, s, m)
  }

  /** Buffers in one array may overlap as long as nothing is written ahead of what has
      been read. */
  predicate Movable(input: array<bv8>, inAt: nat, output: array<bv8>, outAt: nat, size: nat) {
    && inAt + size <= input.Length && outAt + size <= output.Length
    && (input != output || outAt <= inAt || inAt + size <= outAt)
  }

  /** The transformation so far: what is written, and what the rest still adds. */
  ghost predicate Partway(decrypting: bool, p: Permutation, start: Lanes, m: seq<bv8>, s: Lanes, written: seq<bv8>) {
    && |written| <= |m|
    && var rest := Transform(decrypting, p, s, m[|written|..]);
       Transform(decrypting, p, start, m) == (written + rest.0, rest.1)
  }

  lemma FullBlock(decrypting: bool, p: Permutation, start: Lanes, m: seq<bv8>, s: Lanes, written: seq<bv8>)
    requires Partway(decrypting, p, start, m, s, written) && |m| - |written| >= 16
    ensures var block := m[|written|..|written| + 16];
            Partway(decrypting, p, start, m,
                    p(if decrypting then WithRate(s, block) else Mixed(s, block), 8), written + Xor(Rate(s), block))
  {
    hide Rate, WithRate, Mixed;
    var block := m[|written|..|written| + 16];
    var rest := m[|written|..];
    assert rest[..16] == block && rest[16..] == m[|written| + 16..];
    MixedIs(s, block);
    var next := p(if decrypting then WithRate(s, block) else Mixed(s, block), 8);
    var out := Xor(Rate(s), block);
    var tail := Transform(decrypting, p, next, m[|written| + 16..]);
    assert Transform(decrypting, p, s, rest) == (out + tail.0, tail.1);
    assert written + (out + tail.0) == (written + out) + tail.0;
  }

  /** What the arrays hold: the part written, the part still to be read, the rest. */
  ghost predicate Layout(input: array<bv8>, inAt: nat, output: array<bv8>, outAt: nat, was: seq<bv8>, m: seq<bv8>,
                         written: seq<bv8>)
    requires Movable(input, inAt, output, outAt, |m|) && |was| == output.Length && |written| <= |m|
    reads input, output
  {
    && output[..] == was[..outAt] + written + was[outAt + |written|..]
    && (if input == output then was[inAt..inAt + |m|] == m else input[inAt..inAt + |m|] == m)
  }

  /** Nothing of what is still to be read has been overwritten. */
  lemma Unread(input: array<bv8>, inAt: nat, output: array<bv8>, outAt: nat, was: seq<bv8>, m: seq<bv8>,
               written: seq<bv8>)
    requires Movable(input, inAt, output, outAt, |m|) && |was| == output.Length && |written| <= |m|
    requires Layout(input, inAt, output, outAt, was, m, written)
    ensures input[inAt + |written|..inAt + |m|] == m[|written|..]
  {
    if input == output {
      forall k | |written| <= k < |m| ensures input[inAt + k] == m[k] {
        assert input[..][inAt + k] == was[inAt + k];
        assert was[inAt..inAt + |m|][k] == m[k];
      }
    } else {
      forall k | |written| <= k < |m| ensures input[inAt + k] == m[k] {
        assert input[inAt..inAt + |m|][k] == m[k];
      }
    }
  }

  lemma Appended(was: seq<bv8>, at: nat, written: seq<bv8>, out: seq<bv8>)
    requires at + |written| + |out| <= |was|
    ensures var pre := was[..at] + written + was[at + |written|..];
            |pre| == |was| && pre[..at + |written|] + out + pre[at + |written| + |out|..]
                              == was[..at] + (written + out) + was[at + |written + out|..]
  {
  }

  /** Writes the next piece of the result. */
  method Store(input: array<bv8>, inAt: nat, output: array<bv8>, outAt: nat, at: nat, piece: seq<bv8>,
               ghost was: seq<bv8>, ghost m: seq<bv8>, ghost written: seq<bv8>)
    requires Movable(input, inAt, output, outAt, |m|) && |was| == output.Length
    requires at == outAt + |written| && |written| + |piece| <= |m|
             && Layout(input, inAt, output, outAt, was, m, written)
    modifies output
    ensures Layout(input, inAt, output, outAt, was, m, written + piece)
  {
    ghost var pre := output[..];
    Appended(was, outAt, written, piece);
    forall k | 0 <= k < |piece| {
      output[at + k] := piece[k];
    }
    assert output[..] == pre[..at] + piece + pre[at + |piece|..];
  }

  lemma LayoutNone(input: array<bv8>, inAt: nat, output: array<bv8>, outAt: nat, size: nat)
    requires Movable(input, inAt, output, outAt, size)
    ensures Layout(input, inAt, output, outAt, output[..], input[inAt..inAt + size], [])
  {
  }

  /** Whole blocks, two words at a time. */
  method Bulk(decrypting: bool, p: Permutation, start: Lanes, input: array<bv8>, inAt: nat, output: array<bv8>,
              outAt: nat, size: nat)
    returns (s: Lanes, done: nat, ghost written: seq<bv8>)
    requires Movable(input, inAt, output, outAt, size)
    modifies output
    ensures done == |written| <= size < done + 16
    ensures Partway(decrypting, p, start, old(input[inAt..inAt + size]), s, written)
    ensures Layout(input, inAt, output, outAt, old(output[..]), old(input[inAt..inAt + size]), written)
  {
    hide Rate, WithRate, Mixed, Transform, Partway, WordBytes, Load, XorWords, Xor, Layout;
    ghost var m, was := input[inAt..inAt + size], output[..];
    s, done, written := start, 0, [];
    LayoutNone(input, inAt, output, outAt, size);
    PartwayNone(decrypting, p, start, m);
    while size - done >= 16
      invariant done == |written| <= size
      invariant Partway(decrypting, p, start, m, s, written)
      invariant Layout(input, inAt, output, outAt, was, m, written)
    {
      var block := input[inAt + done..inAt + done + 16];
      NextBlock(input, inAt, output, outAt, was, m, written);
      FullBlock(decrypting, p, start, m, s, written);
      s, written := BulkBlock(decrypting, p, s, block, input, inAt, output, outAt, done, was, m, written);
      done := done + 16;
    }
  }

  lemma NextBlock(input: array<bv8>, inAt: nat, output: array<bv8>, outAt: nat, was: seq<bv8>, m: seq<bv8>,
                  written: seq<bv8>)
    requires Movable(input, inAt, output, outAt, |m|) && |was| == output.Length && |written| + 16 <= |m|
    requires Layout(input, inAt, output, outAt, was, m, written)
    ensures input[inAt + |written|..inAt + |written| + 16] == m[|written|..|written| + 16]
  {
    Unread(input, inAt, output, outAt, was, m, written);
    var n := |written|;
    assert input[inAt + n..inAt + n + 16] == input[inAt + n..inAt + |m|][..16];
    assert m[n..n + 16] == m[n..][..16];
  }

  /** One block: out goes its exclusive or with the rate, and it enters the state. */
  method BulkBlock(decrypting: bool, p: Permutation, s: Lanes, block: seq<bv8>, input: array<bv8>, inAt: nat,
                   output: array<bv8>, outAt: nat,
                   done: nat, ghost was: seq<bv8>, ghost m: seq<bv8>, ghost written: seq<bv8>)
    returns (t: Lanes, ghost longer: seq<bv8>)
    requires Movable(input, inAt, output, outAt, |m|) && |was| == output.Length && |block| == 16
    requires done == |written| && |written| + 16 <= |m| && Layout(input, inAt, output, outAt, was, m, written)
    modifies output
    ensures longer == written + Xor(Rate(s), block)
            && t == p(if decrypting then WithRate(s, block) else Mixed(s, block), 8)
    ensures Layout(input, inAt, output, outAt, was, m, longer)
  {
    hide Rate, WithRate, Mixed, WordBytes, Load, XorWords, Xor, Layout;
    var mixed := Mixed(s, block);
    MixedIs(s, block);
    RateWords(mixed);
    Store(input, inAt, output, outAt, outAt + done, WordBytes(mixed.s0) + WordBytes(mixed.s1), was, m, written);
    t := p(if decrypting then WithRate(s, block) else mixed, 8);
    longer := written + Xor(Rate(s), block);
  }

  lemma RateWords(s: Lanes)
    ensures Rate(s) == WordBytes(s.s0) + WordBytes(s.s1)
  {
  }

  lemma PartwayNone(decrypting: bool, p: Permutation, start: Lanes, m: seq<bv8>)
    ensures Partway(decrypting, p, start, m, start, [])
  {
    assert m[0..] == m;
    assert [] + Transform(decrypting, p, start, m).0 == Transform(decrypting, p, start, m).0;
  }

  lemma TakeLast(decrypting: bool, p: Permutation, s: Lanes, t: Lanes, m: seq<bv8>)
    requires |m| < 16 && Taken(decrypting, s, t, m, |m|)
    ensures Transform(decrypting, p, s, m) == (Xor(Rate(s)[..|m|], m), Flip(t, |m|, 1))
  {
    hide Rate, XorWords, Shifted, WithRate, Xor;
    assert m[..|m|] == m;
    if decrypting {
      FlipIs(t, |m|, 1);
      var r := Rate(Flip(t, |m|, 1));
      PutRate(Rate(s), m, r);
      RateDetermines(s, Flip(t, |m|, 1), r);
    } else {
      FlipLast(s, t, m);
    }
  }

  lemma PutRate(rate: seq<bv8>, m: seq<bv8>, r: seq<bv8>)
    requires |m| < 16 && |rate| == 16
    requires var t := m + rate[|m|..]; r == t[|m| := t[|m|] ^ 1]
    ensures r == m + Xor(rate[|m|..], [1] + seq(15 - |m|, _ => 0))
  {
    var tail := rate[|m|..];
    XorFirst(tail);
    assert |tail| - 1 == 15 - |m|;
    JoinUpdate(m, tail, |m|, tail[0] ^ 1);
  }

  lemma XorFirst(tail: seq<bv8>)
    requires tail != []
    ensures Xor(tail, [1] + seq(|tail| - 1, _ => 0)) == tail[0 := tail[0] ^ 1]
  {
    var bit: seq<bv8> := [1] + seq(|tail| - 1, _ => 0);
    var x := Xor(tail, bit);
    forall k | 1 <= k < |tail| ensures x[k] == tail[k] {
      assert bit[k] == 0;
      XorZero(tail[k]);
    }
  }

  lemma Written(input: array<bv8>, inAt: nat, output: array<bv8>, outAt: nat, was: seq<bv8>, m: seq<bv8>,
                written: seq<bv8>)
    requires Movable(input, inAt, output, outAt, |m|) && |was| == output.Length && |written| == |m|
    requires Layout(input, inAt, output, outAt, was, m, written)
    ensures output[..] == was[..outAt] + written + was[outAt + |m|..]
  {
  }

  /** The remaining bytes, one by one. */
  method Tail(decrypting: bool, start: Lanes, input: array<bv8>, inAt: nat, output: array<bv8>, outAt: nat, done: nat,
              size: nat,
              ghost was: seq<bv8>, ghost m: seq<bv8>, ghost written: seq<bv8>)
    returns (s: Lanes)
    requires Movable(input, inAt, output, outAt, size) && |was| == output.Length && |m| == size
    requires done == |written| <= size < done + 16 && Layout(input, inAt, output, outAt, was, m, written)
    modifies output
    ensures Taken(decrypting, start, s, m[done..], size - done)
    ensures Layout(input, inAt, output, outAt, was, m, written + Xor(Rate(start)[..size - done], m[done..]))
  {
    hide Rate, Taken, Put, Flip, Get, Transform, Xor, TakeByte, Layout;
    s := start;
    ghost var rest := m[done..];
    TakenNone(decrypting, start, rest);
    ghost var out: seq<bv8> := [];
    assert written + out == written;
    assert out == Xor(Rate(start)[..0], rest[..0]) by { XorNone(Rate(start), rest); }
    for i := 0 to size - done
      invariant Taken(decrypting, start, s, rest, i)
      invariant |out| == i && out == Xor(Rate(start)[..i], rest[..i])
      invariant Layout(input, inAt, output, outAt, was, m, written + out)
    {
      var v := input[inAt + done + i];
      NextByte(input, inAt, output, outAt, was, m, written + out);
      TakeNext(decrypting, start, s, rest, i);
      var c := Get(s, i) ^ v;
      Store(input, inAt, output, outAt, outAt + done + i, [c], was, m, written + out);
      XorMore(Rate(start), rest, i);
      assert written + out + [c] == written + (out + [c]);
      s := TakeByte(decrypting, s, i, v);
      out := out + [c];
    }
    assert rest[..size - done] == rest;
  }

  lemma NextByte(input: array<bv8>, inAt: nat, output: array<bv8>, outAt: nat, was: seq<bv8>, m: seq<bv8>,
                 written: seq<bv8>)
    requires Movable(input, inAt, output, outAt, |m|) && |was| == output.Length && |written| < |m|
    requires Layout(input, inAt, output, outAt, was, m, written)
    ensures input[inAt + |written|] == m[|written|]
  {
    Unread(input, inAt, output, outAt, was, m, written);
    assert input[inAt + |written|..inAt + |m|][0] == m[|written|..][0];
  }

  lemma XorNone(rate: seq<bv8>, m: seq<bv8>)
    ensures Xor(rate[..0], m[..0]) == []
  {
  }

  lemma XorMore(rate: seq<bv8>, m: seq<bv8>, i: nat)
    requires i < |m| <= |rate|
    ensures Xor(rate[..i + 1], m[..i + 1]) == Xor(rate[..i], m[..i]) + [rate[i] ^ m[i]]
  {
    JoinXor(rate[..i], m[..i], [rate[i]], [m[i]]);
    assert rate[..i + 1] == rate[..i] + [rate[i]] && m[..i + 1] == m[..i] + [m[i]];
    assert Xor([rate[i]], [m[i]]) == [rate[i] ^ m[i]];
  }

  // ---------------------------------------------------------------- the cipher

  /** The two directions in one definition. */
  function Crypted(x: Context, decrypting: bool, nonce: Block, ad: seq<bv8>, m: seq<bv8>): (r: (seq<bv8>, Block))
    ensures |r.0| == |m|
  {
    if decrypting then Unseal(x, nonce, ad, m) else Seal(x, nonce, ad, m)
  }

  lemma CryptedIs(x: Context, decrypting: bool, nonce: Block, ad: seq<bv8>, m: seq<bv8>, s: Lanes, written: seq<bv8>,
                  t: Lanes)
    requires |m| < |written| + 16 && Partway(decrypting, x.p, Start(x, nonce, ad), m, s, written)
    requires Taken(decrypting, s, t, m[|written|..], |m| - |written|)
    ensures var n := |m| - |written|;
            Crypted(x, decrypting, nonce, ad, m) == (written + Xor(Rate(s)[..n], m[|written|..]), Tag(x, Flip(t, n, 1)))
  {
    hide Rate, Taken, Flip, Start, Tag, Xor, Encipher, Decipher;
    TakeLast(decrypting, x.p, s, t, m[|written|..]);
  }

  class Aead128 {
    const p: Permutation
    const k0: bv64
    const k1: bv64

    ghost function Keyed(): Context { Context(p, k0, k1) }

    constructor (p: Permutation, key: Block)
      ensures Keyed() == Context(p, Load(key[..8]), Load(key[8..]))
    {
      this.p, k0, k1 := p, Load(key[..8]), Load(key[8..]);
    }

    method Crypt(decrypting: bool, nonce: Block, ad: seq<bv8>, input: array<bv8>, inAt: nat, size: nat,
                 output: array<bv8>, outAt: nat)
      returns (tag: Block)
      requires Movable(input, inAt, output, outAt, size)
      modifies output
      ensures var r := Crypted(Keyed(), decrypting, nonce, ad, old(input[inAt..inAt + size]));
              tag == r.1 && output[..] == old(output[..outAt]) + r.0 + old(output[outAt + size..])
    {
      hide Rate, Taken, Flip, Transform, Partway, Xor, Crypted, Load, WordBytes, Absorb, XorWords, Tag, Layout;
      ghost var m, was := input[inAt..inAt + size], output[..];
      var s := p(Lanes(0x00001000808c0001, k0, k1, Load(nonce[..8]), Load(nonce[8..])), 12);
      s := s.(s3 := XorWords(s.s3, k0), s4 := XorWords(s.s4, k1));
      if |ad| > 0 { s := AbsorbData(p, s, ad); }
      s := s.(s4 := XorWords(s.s4, 0x8000000000000000));
      assert s == Start(Keyed(), nonce, ad);
      var done; ghost var written;
      s, done, written := Bulk(decrypting, p, s, input, inAt, output, outAt, size);
      ghost var middle := s;
      s := Tail(decrypting, s, input, inAt, output, outAt, done, size, was, m, written);
      CryptedIs(Keyed(), decrypting, nonce, ad, m, middle, written, s);
      Written(input, inAt, output, outAt, was, m, Crypted(Keyed(), decrypting, nonce, ad, m).0);
      s := Flip(s, size - done, 1);
      tag := Finish(s);
    }

    /** The keyed final permutation. */
    method Finish(s: Lanes) returns (tag: Block)
      ensures tag == Tag(Keyed(), s)
    {
      hide WordBytes, XorWords;
      var t := s.(s2 := XorWords(s.s2, k0), s3 := XorWords(s.s3, k1));
      t := p(t, 12);
      tag := WordBytes(XorWords(t.s3, k0)) + WordBytes(XorWords(t.s4, k1));
    }

    method Encrypt(nonce: Block, ad: seq<bv8>, input: array<bv8>, inAt: nat, size: nat, output: array<bv8>, outAt: nat)
      returns (tag: Block)
      requires Movable(input, inAt, output, outAt, size)
      modifies output
      ensures var r := Seal(Keyed(), nonce, ad, old(input[inAt..inAt + size]));
              tag == r.1 && output[..] == old(output[..outAt]) + r.0 + old(output[outAt + size..])
    {
      hide Seal;
      tag := Crypt(false, nonce, ad, input, inAt, size, output, outAt);
    }

    /** Accepts exactly the ciphertexts and tags that encryption produces, and leaves the
        message; anything else leaves zeros. */
    method Decrypt(nonce: Block, ad: seq<bv8>, input: array<bv8>, inAt: nat, size: nat, tag: Block, output: array<bv8>,
                   outAt: nat)
      returns (ok: bool)
      requires Movable(input, inAt, output, outAt, size)
      modifies output
      ensures output[..outAt] == old(output[..outAt]) && output[outAt + size..] == old(output[outAt + size..])
      ensures ok ==> Seal(Keyed(), nonce, ad, output[outAt..outAt + size]) == (old(input[inAt..inAt + size]), tag)
      ensures !ok ==> forall k :: outAt <= k < outAt + size ==> output[k] == 0
      ensures forall m: seq<bv8> :: Seal(Keyed(), nonce, ad, m) == (old(input[inAt..inAt + size]), tag) ==>
                ok && output[outAt..outAt + size] == m
    {
      hide Seal, Unseal;
      ghost var c, was := input[inAt..inAt + size], output[..];
      var expected := Crypt(true, nonce, ad, input, inAt, size, output, outAt);
      assert output[outAt..outAt + size] == Unseal(Keyed(), nonce, ad, c).0;
      forall m | Seal(Keyed(), nonce, ad, m) == (c, tag) ensures Unseal(Keyed(), nonce, ad, c) == (m, tag) {
        SealedOpens(Keyed(), nonce, ad, m);
      }
      ok := SameTag(expected, tag);
      if ok {
        OpenedWasSealed(Keyed(), nonce, ad, c);
        return;
      }
      for i := 0 to size
        invariant output[..outAt] == was[..outAt] && output[outAt + size..] == was[outAt + size..]
        invariant forall k :: outAt <= k < outAt + i ==> output[k] == 0
      {
        output[outAt + i] := 0;
      }
    }
  }

  /** Compares without leaving early. */
  method SameTag(a: Block, b: Block) returns (same: bool)
    ensures same <==> a == b
  {
    var difference: bv8 := 0;
    for i := 0 to 16
      invariant difference == 0 <==> a[..i] == b[..i]
    {
      NoDifference(difference, a[i], b[i]);
      assert a[..i + 1] == a[..i] + [a[i]] && b[..i + 1] == b[..i] + [b[i]];
      difference := difference | (a[i] ^ b[i]);
    }
    assert a[..16] == a && b[..16] == b;
    return difference == 0;
  }

  lemma NoDifference(d: bv8, x: bv8, y: bv8)
    ensures (d | (x ^ y)) == 0 <==> d == 0 && x == y
  {
  }
}
