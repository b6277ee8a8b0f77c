/** The 64-entry replay window of a control session (src/control_auth.hpp). */
module ReplayWindow {
  import opened Bytes

  /** A 64-bit word by its bits, least significant first. */
  type Word = s: seq<bool> | |s| == 64 witness ZERO_WORD

  const ZERO_BYTE := [false, false, false, false, false, false, false, false]
  const ZERO_WORD :=
    ZERO_BYTE + ZERO_BYTE + ZERO_BYTE + ZERO_BYTE + ZERO_BYTE + ZERO_BYTE + ZERO_BYTE + ZERO_BYTE

  /** `bits << d`, and the empty word once everything has moved past bit 63. */
  function ShiftLeft(bits: Word, d: nat): (r: Word)
    ensures forall i :: 0 <= i < 64 ==> (r[i] <==> i >= d && bits[i - d])
  {
    if d >= 64 then ZERO_WORD else ZERO_WORD[..d] + bits[..64 - d]
  }

  datatype Window = Window(high: u64, bits: Word)

  const EMPTY := Window(0, ZERO_WORD)

  /** One `accept` call: whether the number is taken, and the window afterwards. */
  function Accept(w: Window, n: u64): (bool, Window) {
    if n == 0 then (false, w)
    else if n > w.high then
      (true, Window(n, ShiftLeft(w.bits, n - w.high)[0 := true]))
    else
      var d := w.high - n;
      if d >= 64 || w.bits[d] then (false, w)
      else (true, Window(w.high, w.bits[d := true]))
  }

  /** The plain set that the bitmap stands for: `seen` holds every number accepted so far. */
  ghost predicate Refines(w: Window, seen: set<u64>) {
    && (w.high == 0 ==> seen == {})
    && (w.high != 0 ==> w.high in seen)
    && (forall n :: n in seen ==> 0 < n <= w.high)
    && (forall d :: 0 <= d < 64 ==> (w.bits[d] <==> d < w.high && w.high - d in seen))
  }

  /** What a receiver that remembered every accepted number would do, except that it
      also refuses numbers 64 or more behind the highest one. */
  ghost predicate Admissible(seen: set<u64>, high: u64, n: u64) {
    n != 0 && n !in seen && n + 64 > high
  }

  /** The bitmap accepts exactly what the set semantics admits, for every number and
      every history, and goes on representing the set. */
  lemma AcceptRefines(w: Window, seen: set<u64>, n: u64)
    requires Refines(w, seen)
    ensures Accept(w, n).0 <==> Admissible(seen, w.high, n)
    ensures Refines(Accept(w, n).1, if Accept(w, n).0 then seen + {n} else seen)
    ensures Accept(w, n).1.high == (if Accept(w, n).0 && n > w.high then n else w.high)
  {
    var (ok, v) := Accept(w, n);
    if n != 0 && n <= w.high && w.high - n < 64 {
      assert w.bits[w.high - n] <==> n in seen;
    }
    if ok {
      var s := seen + {n};
      forall d | 0 <= d < 64 ensures v.bits[d] <==> d < v.high && v.high - d in s {
        if n > w.high && d >= n - w.high {
          assert w.high - (d - (n - w.high)) == n - d;
        }
      }
    }
  }

  lemma EmptyRefines()
    ensures Refines(EMPTY, {})
  {
  }

  /** What a call sequence leads to: the window, the set accepted, each call's result. */
  datatype History = History(window: Window, seen: set<u64>, results: seq<bool>)

  ghost function Run(calls: seq<u64>): (h: History)
    ensures |h.results| == |calls|
  {
    if calls == [] then History(EMPTY, {}, [])
    else
      var before := Run(calls[..|calls| - 1]);
      var n := calls[|calls| - 1];
      var r := Accept(before.window, n);
      History(r.1, if r.0 then before.seen + {n} else before.seen, before.results + [r.0])
  }

  lemma {:induction false} RunRefines(calls: seq<u64>)
    ensures Refines(Run(calls).window, Run(calls).seen)
  {
    if calls != [] {
      var before := calls[..|calls| - 1];
      RunRefines(before);
      AcceptRefines(Run(before).window, Run(before).seen, calls[|calls| - 1]);
    }
  }

  /** For every call sequence, each call succeeds if and only if its number is
      nonzero, was never accepted before, and is not 64 or more behind the highest. */
  lemma {:induction false} EveryCallIsExact(calls: seq<u64>, i: nat)
    requires i < |calls|
    ensures var past := Run(calls[..i]); Run(calls).results[i] <==> Admissible(past.seen, past.window.high, calls[i])
  {
    var last := |calls| - 1;
    var before := calls[..last];
    if i == last {
      RunRefines(before);
      AcceptRefines(Run(before).window, Run(before).seen, calls[last]);
    } else {
      EveryCallIsExact(before, i);
      assert before[..i] == calls[..i];
    }
  }

  /** The struct as the session code holds it, with the set it stands for. */
  class WindowCell {
    var high: u64
    var bits: Word
    ghost var seen: set<u64>

    ghost predicate Valid()
      reads this
    {
      Refines(Window(high, bits), seen)
    }

    constructor ()
      ensures Valid() && seen == {} && high == 0
    {
      high, bits, seen := 0, ZERO_WORD, {};
    }

    method TryAccept(n: u64) returns (ok: bool)
      requires Valid()
      modifies this
      ensures Valid()
      ensures ok <==> Admissible(old(seen), old(high), n)
      ensures seen == if ok then old(seen) + {n} else old(seen)
      ensures high == if ok && n > old(high) then n else old(high)
    {
      AcceptRefines(Window(high, bits), seen, n);
      if n == 0 { return false; }
      if n > high {
        var d := n - high;
        bits := ShiftLeft(bits, d);
        bits := bits[0 := true];
        high := n;
        seen := seen + {n};
        return true;
      }
      var d := high - n;
      if d >= 64 || bits[d] { return false; }
      bits := bits[d := true];
      seen := seen + {n};
      return true;
    }
  }
}
