/** DNS names on the wire and the closure over aliases (fabric/peek_dns.py). */
module PeekDns {
  import opened Bytes

  type Label = bytes

  // ---------------------------------------------------------------- reading by recursion

  datatype Name = Name(labels: seq<Label>, end: nat)

  predicate Ascii(b: bytes) { forall i :: 0 <= i < |b| ==> b[i] < 128 }

  function Pointer(data: bytes, at: nat): nat
    requires at + 1 < |data| && data[at] >= 192
  {
    var high: int := data[at];
    (high - 192) * 256 + data[at + 1]
  }

  /** The name at an offset, compression pointers expanded recursively. `size` is the
      length of the uncompressed form so far, the final zero included. */
  function Expand(data: bytes, at: nat, size: nat): Option<Name>
    decreases 256 - size, at
  {
    if at >= |data| then None
    else
      var length := data[at];
      if length >= 192 then
        if at + 1 >= |data| || Pointer(data, at) >= at then None
        else
          match Expand(data, Pointer(data, at), size)
          case None => None
          case Some(name) => Some(name.(end := at + 2))
      else if length >= 64 then None
      else if length == 0 then Some(Name([], at + 1))
      else if at + 1 + length > |data| || size + length + 1 > 255 || !Ascii(data[at + 1..at + 1 + length]) then None
      else
        match Expand(data, at + 1 + length, size + length + 1)
        case None => None
        case Some(name) => Some(Name([data[at + 1..at + 1 + length]] + name.labels, name.end))
  }

  /** The length of an uncompressed name. */
  function WireLength(labels: seq<Label>): nat {
    if labels == [] then 1 else |labels[0]| + 1 + WireLength(labels[1..])
  }

  /** Whatever is read is at most 255 octets long, with labels of 1 to 63 octets. */
  lemma {:induction false} NamesAreBounded(data: bytes, at: nat, size: nat)
    requires 1 <= size <= 255 && Expand(data, at, size).Some?
    ensures var name := Expand(data, at, size).value;
            && size - 1 + WireLength(name.labels) <= 255
            && (forall l :: l in name.labels ==> 1 <= |l| <= 63 && Ascii(l)) && at < name.end <= |data|
    decreases 256 - size, at
  {
    hide Ascii, Pointer, Expand;
    ExpandEnd(data, at, size);
    var length: int := data[at];
    if length >= 192 {
      ExpandPointer(data, at, size);
      NamesAreBounded(data, Pointer(data, at), size);
      var name := Expand(data, Pointer(data, at), size).value;
      assert [] + name.labels == name.labels;
    } else if length > 0 {
      ExpandLabel(data, at, size);
      NamesAreBounded(data, at + 1 + length, size + length + 1);
      var rest := Expand(data, at + 1 + length, size + length + 1).value;
      assert ([data[at + 1..at + 1 + length]] + rest.labels)[1..] == rest.labels;
    }
  }

  // ---------------------------------------------------------------- walks and cycles

  /** Where reading goes on from an offset, and by how much the name grows. */
  function Hop(data: bytes, at: nat): Option<(nat, nat)> {
    if at >= |data| then None
    else
      var length := data[at];
      if length >= 192 then if at + 1 < |data| && Pointer(data, at) < at then Some((Pointer(data, at), 0)) else None
      else if 0 < length < 64 then Some((at + 1 + length, length + 1))
      else None
  }

  function Walk(data: bytes, at: nat, k: nat): Option<(nat, nat)> {
    if k == 0 then Some((at, 0))
    else
      match Walk(data, at, k - 1)
      case None => None
      case Some((w, g)) =>
        match Hop(data, w)
        case None => None
        case Some((next, more)) => Some((next, g + more))
  }

  lemma {:induction false} WalkSplits(data: bytes, at: nat, i: nat, k: nat)
    requires i <= k && Walk(data, at, k).Some?
    ensures Walk(data, at, i).Some?
    ensures Walk(data, Walk(data, at, i).value.0, k - i)
            == Some((Walk(data, at, k).value.0, Walk(data, at, k).value.1 - Walk(data, at, i).value.1))
            && Walk(data, at, k).value.1 >= Walk(data, at, i).value.1
    decreases k
  {
    if i < k { WalkSplits(data, at, i, k - 1); }
  }

  /** A walk without growth only follows pointers, so it goes back. */
  lemma {:induction false} PointersGoBack(data: bytes, at: nat, k: nat)
    requires k > 0 && Walk(data, at, k).Some? && Walk(data, at, k).value.1 == 0
    ensures Walk(data, at, k).value.0 < at
  {
    if k > 1 { PointersGoBack(data, at, k - 1); }
  }

  /** Reading from an offset includes reading from everywhere its walk leads. */
  lemma {:induction false} ReadsOn(data: bytes, at: nat, size: nat, k: nat)
    requires Expand(data, at, size).Some? && Walk(data, at, k).Some?
    ensures var (w, g) := Walk(data, at, k).value; Expand(data, w, size + g).Some?
  {
    if k > 0 { ReadsOn(data, at, size, k - 1); }
  }

  /** An offset that leads back to itself cannot be read, whatever the size so far. */
  lemma {:induction false} CyclesFail(data: bytes, at: nat, size: nat, k: nat)
    requires k > 0 && Walk(data, at, k).Some? && Walk(data, at, k).value.0 == at
    ensures Expand(data, at, size).None?
    decreases 256 - size
  {
    var g := Walk(data, at, k).value.1;
    if g == 0 {
      PointersGoBack(data, at, k);
    } else if Expand(data, at, size).Some? {
      ReadsOn(data, at, size, k);
      if size <= 255 {
        CyclesFail(data, at, size + g, k);
      } else {
        PastLabel(data, at, k);
        var i :| 0 <= i < k && Walk(data, at, i).Some? && Hop(data, Walk(data, at, i).value.0).Some?
          && Hop(data, Walk(data, at, i).value.0).value.1 > 0 && Walk(data, at, i).value.1 == 0;
        ReadsOn(data, at, size, i);
        TooLong(data, Walk(data, at, i).value.0, size);
      }
    }
  }

  lemma {:induction false} TooLong(data: bytes, at: nat, size: nat)
    requires size > 255 && Expand(data, at, size).Some?
    ensures Hop(data, at).Some? ==> Hop(data, at).value.1 == 0
  {
  }

  lemma {:induction false} PastLabel(data: bytes, at: nat, k: nat)
    requires Walk(data, at, k).Some? && Walk(data, at, k).value.1 > 0
    ensures exists i :: 0 <= i < k && Walk(data, at, i).Some? && Hop(data, Walk(data, at, i).value.0).Some?
                        && Hop(data, Walk(data, at, i).value.0).value.1 > 0 && Walk(data, at, i).value.1 == 0
  {
    if Walk(data, at, k - 1).value.1 > 0 { PastLabel(data, at, k - 1); }
  }

  // ---------------------------------------------------------------- the loop

  /** A name whose first labels are already known; the end, once a pointer was followed,
      too. */
  function Completed(labels: seq<Label>, end: Option<nat>, rest: Option<Name>): Option<Name> {
    if rest.None? then None
    else Some(Name(labels + rest.value.labels, if end.Some? then end.value else rest.value.end))
  }

  lemma CompletedLabel(labels: seq<Label>, end: Option<nat>, part: Label, rest: Option<Name>)
    ensures Completed(labels, end, Completed([part], None, rest)) == Completed(labels + [part], end, rest)
  {
    if rest.Some? { assert labels + ([part] + rest.value.labels) == (labels + [part]) + rest.value.labels; }
  }

  lemma CompletedPointer(labels: seq<Label>, end: Option<nat>, at: nat, rest: Option<Name>)
    ensures Completed(labels, end, Completed([], Some(at), rest))
            == Completed(labels, if end.Some? then end else Some(at), rest)
  {
    if rest.Some? { assert [] + rest.value.labels == rest.value.labels; }
  }

  lemma CompletedNothing(rest: Option<Name>)
    ensures Completed([], None, rest) == rest
  {
    if rest.Some? { assert [] + rest.value.labels == rest.value.labels; }
  }

  lemma ExpandPointer(data: bytes, at: nat, size: nat)
    requires at < |data| && data[at] >= 192
    ensures Expand(data, at, size) == if at + 1 >= |data| || Pointer(data, at) >= at then None
                                      else Completed([], Some(at + 2), Expand(data, Pointer(data, at), size))
  {
    if at + 1 < |data| && Pointer(data, at) < at {
      var rest := Expand(data, Pointer(data, at), size);
      if rest.Some? { assert [] + rest.value.labels == rest.value.labels; }
    }
  }

  lemma ExpandLabel(data: bytes, at: nat, size: nat)
    requires at < |data| && 0 < data[at] < 64
    ensures var to := at + 1 + data[at];
            Expand(data, at, size) == if to > |data| || size + data[at] + 1 > 255 || !Ascii(data[at + 1..to]) then None
                                      else Completed([data[at + 1..to]], None, Expand(data, to, size + data[at] + 1))
  {
    hide Ascii;
  }

  lemma ExpandEnd(data: bytes, at: nat, size: nat)
    ensures at >= |data| || 64 <= data[at] < 192 ==> Expand(data, at, size).None?
    ensures at < |data| && data[at] == 0 ==> Expand(data, at, size) == Some(Name([], at + 1))
  {
  }

  /** `read_name`: the loop with its set of visited offsets computes the recursive
      expansion. */
  method ReadName(data: bytes, start: nat) returns (r: Option<Name>)
    ensures r == Expand(data, start, 1)
  {
    hide Ascii, Expand, Pointer;
    var offset: nat, size: nat := start, 1;
    var labels: seq<Label> := [];
    var end: Option<nat> := None;
    var visited: set<nat> := {};
    CompletedNothing(Expand(data, start, 1));
    ghost var k := 0;
    while true
      invariant 1 <= size <= 255 && Walk(data, start, k) == Some((offset, size - 1))
      invariant forall v :: v in visited ==> Passed(data, start, k, v)
      invariant Expand(data, start, 1) == Completed(labels, end, Expand(data, offset, size))
      decreases 255 - size, offset
    {
      ExpandEnd(data, offset, size);
      if offset >= |data| { return None; }
      if offset in visited {
        RevisitFails(data, start, k, offset, size);
        return None;
      }
      PassedNext(data, start, k);
      visited := visited + {offset};
      var length: int := data[offset];
      if length >= 192 {
        ExpandPointer(data, offset, size);
        if offset + 1 >= |data| { return None; }
        var pointer := Pointer(data, offset);
        if pointer >= offset { return None; }
        CompletedPointer(labels, end, offset + 2, Expand(data, pointer, size));
        if end == None { end := Some(offset + 2); }
        offset := pointer;
      } else if length >= 64 {
        return None;
      } else if length == 0 {
        assert labels + [] == labels;
        return Some(Name(labels, if end.Some? then end.value else offset + 1));
      } else {
        ExpandLabel(data, offset, size);
        if offset + 1 + length > |data| { return None; }
        size := size + length + 1;
        if size > 255 { return None; }
        var part := data[offset + 1..offset + 1 + length];
        if !Ascii(part) { return None; }
        CompletedLabel(labels, end, part, Expand(data, offset + 1 + length, size));
        labels := labels + [part];
        offset := offset + 1 + length;
      }
      k := k + 1;
    }
  }

  /** The walk has been at `v` before its k-th step. */
  ghost predicate Passed(data: bytes, start: nat, k: nat, v: nat) {
    exists i :: 0 <= i < k && Walk(data, start, i).Some? && Walk(data, start, i).value.0 == v
  }

  lemma PassedNext(data: bytes, start: nat, k: nat)
    requires Walk(data, start, k).Some?
    ensures Passed(data, start, k + 1, Walk(data, start, k).value.0)
    ensures forall v :: Passed(data, start, k, v) ==> Passed(data, start, k + 1, v)
  {
    hide Walk;
  }

  lemma RevisitFails(data: bytes, start: nat, k: nat, v: nat, size: nat)
    requires Passed(data, start, k, v) && Walk(data, start, k).Some? && Walk(data, start, k).value.0 == v
    ensures Expand(data, v, size).None?
  {
    hide Expand;
    var i :| 0 <= i < k && Walk(data, start, i).Some? && Walk(data, start, i).value.0 == v;
    WalkSplits(data, start, i, k);
    CyclesFail(data, v, size, k - i);
  }

  // ---------------------------------------------------------------- writing

  const DOT: byte := 0x2e

  function SplitDots(s: bytes): (r: seq<Label>)
    ensures r != []
  {
    if s == [] then [[]]
    else
      var rest := SplitDots(s[1..]);
      if s[0] == DOT then [[]] + rest else [[s[0]] + rest[0]] + rest[1..]
  }

  function JoinDots(labels: seq<Label>): bytes {
    if labels == [] then [] else if |labels| == 1 then labels[0] else labels[0] + [DOT] + JoinDots(labels[1..])
  }

  lemma {:induction false} JoinSplit(s: bytes)
    ensures JoinDots(SplitDots(s)) == s
  {
    if s != [] {
      var rest := SplitDots(s[1..]);
      JoinSplit(s[1..]);
      if s[0] == DOT {
        assert ([[]] + rest)[1..] == rest;
        assert [] + [DOT] + JoinDots(rest) == s;
      } else {
        var r := [[s[0]] + rest[0]] + rest[1..];
        if |rest| > 1 {
          assert r[1..] == rest[1..];
          assert [s[0]] + rest[0] + [DOT] + JoinDots(rest[1..]) == [s[0]] + (rest[0] + [DOT] + JoinDots(rest[1..]));
        }
      }
    }
  }

  function StripDots(s: bytes): bytes {
    if s != [] && s[|s| - 1] == DOT then StripDots(s[..|s| - 1]) else s
  }

  function WireLabels(labels: seq<Label>): bytes
    requires forall l :: l in labels ==> |l| <= 63
  {
    if labels == [] then [0] else [|labels[0]|] + labels[0] + WireLabels(labels[1..])
  }

  predicate GoodLabels(labels: seq<Label>) {
    forall l :: l in labels ==> 1 <= |l| <= 63
  }

  /** `wire_name` for ASCII names: None where it raises. */
  function WireName(name: bytes): Option<bytes> {
    if name == [] then None
    else
      var s := StripDots(name);
      if s == [] then Some([0])
      else
        var labels := SplitDots(s);
        if !GoodLabels(labels) || |WireLabels(labels)| > 255 then None else Some(WireLabels(labels))
  }

  lemma {:induction false} WireLabelsLength(labels: seq<Label>)
    requires GoodLabels(labels)
    ensures |WireLabels(labels)| == WireLength(labels)
  {
    if labels != [] { WireLabelsLength(labels[1..]); }
  }

  predicate At(data: bytes, at: nat, w: bytes) { at + |w| <= |data| && data[at..at + |w|] == w }

  /** Written labels are read back, wherever they stand. */
  lemma {:induction false} ReadWritten(data: bytes, at: nat, labels: seq<Label>, size: nat)
    requires GoodLabels(labels) && (forall l :: l in labels ==> Ascii(l)) && At(data, at, WireLabels(labels))
    requires size - 1 + WireLength(labels) <= 255
    ensures Expand(data, at, size) == Some(Name(labels, at + |WireLabels(labels)|))
    decreases |labels|
  {
    hide Expand, Ascii;
    if labels == [] {
      assert data[at] == data[at..at + 1][0] == 0;
      ExpandEnd(data, at, size);
    } else {
      var l, rest := labels[0], WireLabels(labels[1..]);
      Pieces(data, at, l, rest);
      WirePositive(labels[1..]);
      ReadWritten(data, at + 1 + |l|, labels[1..], size + |l| + 1);
      ReadOne(data, at, l, size);
      assert [l] + labels[1..] == labels;
    }
  }

  lemma Pieces(data: bytes, at: nat, l: Label, rest: bytes)
    requires 1 <= |l| <= 63 && At(data, at, [|l|] + l + rest)
    ensures data[at] == |l| && data[at + 1..at + 1 + |l|] == l && At(data, at + 1 + |l|, rest)
  {
    var w := [|l|] + l + rest;
    assert data[at] == data[at..at + |w|][0] == w[0];
    assert data[at + 1..at + 1 + |l|] == data[at..at + |w|][1..1 + |l|] == w[1..1 + |l|];
    assert data[at + 1 + |l|..at + |w|] == data[at..at + |w|][1 + |l|..] == w[1 + |l|..];
  }

  lemma ReadOne(data: bytes, at: nat, l: Label, size: nat)
    requires 1 <= |l| <= 63 && at + 1 + |l| <= |data| && data[at] == |l| && data[at + 1..at + 1 + |l|] == l && Ascii(l)
    requires size + |l| + 1 <= 255
    ensures var rest := Expand(data, at + 1 + |l|, size + |l| + 1);
            rest.Some? ==> Expand(data, at, size) == Some(Name([l] + rest.value.labels, rest.value.end))
  {
    hide Ascii;
  }

  lemma {:induction false} WirePositive(labels: seq<Label>)
    ensures WireLength(labels) >= 1
  {
  }

  lemma {:induction false} SplitAscii(s: bytes)
    requires Ascii(s)
    ensures forall l :: l in SplitDots(s) ==> Ascii(l)
  {
    if s != [] {
      SplitAscii(s[1..]);
      var rest := SplitDots(s[1..]);
      forall l | l in SplitDots(s) ensures Ascii(l) {
        if l !in rest && s[0] != DOT {
          assert Ascii(rest[0]);
        }
      }
    }
  }

  lemma {:induction false} StripAscii(s: bytes)
    requires Ascii(s)
    ensures Ascii(StripDots(s))
  {
    if s != [] && s[|s| - 1] == DOT { StripAscii(s[..|s| - 1]); }
  }

  function Lower(s: bytes): bytes {
    seq(|s|, i requires 0 <= i < |s| => if 0x41 <= s[i] <= 0x5a then s[i] + 32 else s[i])
  }

  /** The text that `read_name` returns. */
  function NameText(labels: seq<Label>): bytes {
    if labels == [] then [DOT] else Lower(JoinDots(labels))
  }

  /** Reading inverts writing up to case, at any offset of any message, and ends right
      behind what was written. */
  lemma WriteReadRoundTrip(name: bytes, data: bytes, at: nat)
    requires Ascii(name) && WireName(name).Some? && At(data, at, WireName(name).value)
    ensures var r := Expand(data, at, 1);
            && r.Some? && r.value.end == at + |WireName(name).value|
            && NameText(r.value.labels) == if StripDots(name) == [] then [DOT] else Lower(StripDots(name))
  {
    hide SplitDots, StripDots, JoinDots, Lower;
    var s := StripDots(name);
    if s == [] {
      assert data[at] == data[at..at + 1][0] == 0;
    } else {
      var labels := SplitDots(s);
      StripAscii(name);
      SplitAscii(s);
      WireLabelsLength(labels);
      ReadWritten(data, at, labels, 1);
      JoinSplit(s);
    }
  }

  // ---------------------------------------------------------------- aliases

  /** An answer record. */
  datatype Answer = Answer(owner: bytes, alias: bool, value: bytes)

  function Add(names: set<bytes>, a: Answer): set<bytes> {
    if a.alias && a.owner in names then names + {a.value} else names
  }

  /** One pass: what an answer adds counts for the answers after it. */
  function Pass(names: set<bytes>, answers: seq<Answer>): set<bytes> {
    if answers == [] then names else Add(Pass(names, answers[..|answers| - 1]), answers[|answers| - 1])
  }

  function Passes(names: set<bytes>, answers: seq<Answer>, n: nat): set<bytes> {
    if n == 0 then names else Pass(Passes(names, answers, n - 1), answers)
  }

  predicate Closed(names: set<bytes>, answers: seq<Answer>) {
    forall a :: a in answers && a.alias && a.owner in names ==> a.value in names
  }

  function Values(answers: seq<Answer>): set<bytes> {
    set a | a in answers :: a.value
  }

  lemma {:induction false} PassGrows(names: set<bytes>, answers: seq<Answer>)
    ensures names <= Pass(names, answers) <= names + Values(answers)
  {
    if answers != [] {
      var last := |answers| - 1;
      PassGrows(names, answers[..last]);
      assert answers[last] in answers;
      assert Values(answers[..last]) <= Values(answers) by {
        forall v | v in Values(answers[..last]) ensures v in Values(answers) {
          var a :| a in answers[..last] && a.value == v;
          assert a in answers;
        }
      }
    }
  }

  /** A pass that adds nothing means that nothing is left to add, and conversely. */
  lemma {:induction false} FixedIsClosed(names: set<bytes>, answers: seq<Answer>)
    ensures Pass(names, answers) == names <==> Closed(names, answers)
  {
    if answers != [] {
      var last := |answers| - 1;
      var front := answers[..last];
      FixedIsClosed(names, front);
      PassGrows(names, front);
      assert answers == front + [answers[last]];
      if Closed(names, answers) { assert Closed(names, front); }
    }
  }

  lemma {:induction false} PassWithin(names: set<bytes>, answers: seq<Answer>, bound: set<bytes>)
    requires names <= bound && Closed(bound, answers)
    ensures Pass(names, answers) <= bound
  {
    if answers != [] {
      var last := |answers| - 1;
      assert Closed(bound, answers[..last]);
      PassWithin(names, answers[..last], bound);
      assert answers[last] in answers;
    }
  }

  lemma {:induction false} PassesWithin(names: set<bytes>, answers: seq<Answer>, n: nat, bound: set<bytes>)
    requires names <= bound && Closed(bound, answers)
    ensures Passes(names, answers, n) <= bound
  {
    if n > 0 {
      PassesWithin(names, answers, n - 1, bound);
      PassWithin(Passes(names, answers, n - 1), answers, bound);
    }
  }

  lemma {:induction false} Fewer(a: set<bytes>, b: set<bytes>)
    requires a <= b
    ensures |a| <= |b| && (|a| == |b| ==> a == b)
  {
    if a == {} {
      if |b| == 0 { assert b == {}; }
    } else {
      var x :| x in a;
      Fewer(a - {x}, b - {x});
      assert a == (a - {x}) + {x} && b == (b - {x}) + {x};
    }
  }

  lemma {:induction false} FewValues(answers: seq<Answer>)
    ensures |Values(answers)| <= |answers|
  {
    if answers != [] {
      var last := |answers| - 1;
      var front := answers[..last];
      FewValues(front);
      assert answers == front + [answers[last]];
      assert Values(answers) == Values(front) + {answers[last].value};
    }
  }

  /** After `n` passes nothing is left to add, or at least `n` names were added. */
  lemma {:induction false} PassesProgress(names: set<bytes>, answers: seq<Answer>, n: nat)
    ensures var at := Passes(names, answers, n);
            && names <= at <= names + Values(answers)
            && (Closed(at, answers) || |at| >= |names| + n)
  {
    hide Values, Closed;
    if n > 0 {
      PassesProgress(names, answers, n - 1);
      var before := Passes(names, answers, n - 1);
      var at := Pass(before, answers);
      PassGrows(before, answers);
      FixedIsClosed(before, answers);
      if at != before { Fewer(before, at); }
    }
  }

  lemma ClosedWhenFull(names: set<bytes>, answers: seq<Answer>)
    requires Values(answers) <= names
    ensures Closed(names, answers)
  {
    forall a | a in answers && a.alias && a.owner in names ensures a.value in names {
      assert a.value in Values(answers);
    }
  }

  /** As many passes as there are answers reach the least set that contains the queried
      name and follows every alias: it is closed, and part of every closed set that
      contains the name. */
  lemma AliasLoopIsLeastFixpoint(name: bytes, answers: seq<Answer>)
    ensures var r := Passes({name}, answers, |answers|);
            && name in r && Closed(r, answers)
            && forall bound: set<bytes> :: name in bound && Closed(bound, answers) ==> r <= bound
  {
    hide Passes, Closed, Values;
    var n, r := |answers|, Passes({name}, answers, |answers|);
    PassesProgress({name}, answers, n);
    FewValues(answers);
    if !Closed(r, answers) {
      var all := {name} + Values(answers);
      SmallUnion(name, Values(answers));
      Fewer(r, all);
      ClosedWhenFull(r, answers);
    }
    forall bound: set<bytes> | name in bound && Closed(bound, answers) ensures r <= bound {
      PassesWithin({name}, answers, n, bound);
    }
  }

  lemma SmallUnion(x: bytes, s: set<bytes>)
    ensures |{x} + s| <= 1 + |s|
  {
    if x in s { assert {x} + s == s; }
  }

  /** The alias loop of `parse_response`. */
  method AliasNames(name: bytes, answers: seq<Answer>) returns (names: set<bytes>)
    ensures names == Passes({name}, answers, |answers|)
  {
    names := {name};
    for i := 0 to |answers|
      invariant names == Passes({name}, answers, i)
    {
      ghost var start := names;
      for j := 0 to |answers|
        invariant names == Pass(start, answers[..j])
      {
        assert answers[..j + 1][..j] == answers[..j] && answers[..j + 1][j] == answers[j];
        if answers[j].alias && answers[j].owner in names { names := names + {answers[j].value}; }
      }
      assert answers[..|answers|] == answers;
    }
  }
}
