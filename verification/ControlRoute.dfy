/** The CONTROL v2 frame codec (src/control_route.hpp).

    The byte image of a frame is given once, as the concatenation of its fields;
    decoding is specified as the inverse of that image, so the loops that parse
    are proved to accept exactly the images and to return the one frame behind each. */
module ControlRoute {
  import opened Bytes

  const HEADER_SIZE := 52
  const MAX_STACK_BYTES := 1024
  const MAX_HOPS := 16
  const MAX_FRAME := 65535
  const CONTROL_MAX_BODY := 1024 * 1024

  datatype Kind =
    | Put | Status | Reply | Finish | Confirmed
    | Discover | Found | AltPath | RouteError | Challenge

  function KindCode(k: Kind): (c: byte)
    ensures 1 <= c <= 10
  {
    match k
    case Put => 1
    case Status => 2
    case Reply => 3
    case Finish => 4
    case Confirmed => 5
    case Discover => 6
    case Found => 7
    case AltPath => 8
    case RouteError => 9
    case Challenge => 10
  }

  function KindOf(c: byte): (k: Option<Kind>)
    ensures k.Some? <==> 1 <= c <= 10
    ensures k.Some? ==> KindCode(k.value) == c
  {
    if c == 1 then Some(Put) else if c == 2 then Some(Status) else if c == 3 then Some(Reply)
    else if c == 4 then Some(Finish) else if c == 5 then Some(Confirmed) else if c == 6 then Some(Discover)
    else if c == 7 then Some(Found) else if c == 8 then Some(AltPath) else if c == 9 then Some(RouteError)
    else if c == 10 then Some(Challenge) else None
  }

  datatype HopType = PeerHop | PortHop | LinkHop

  function HopCode(t: HopType): byte {
    match t
    case PeerHop => 1
    case PortHop => 2
    case LinkHop => 3
  }

  function HopTypeOf(c: byte): (t: Option<HopType>)
    ensures t.Some? ==> HopCode(t.value) == c
    ensures t.None? ==> forall u: HopType :: HopCode(u) != c
  {
    if c == 1 then Some(PeerHop) else if c == 2 then Some(PortHop) else if c == 3 then Some(LinkHop) else None
  }

  datatype Hop = Hop(kind: HopType, value: bytes)

  type Path = seq<Hop>

  function Peer(): Hop { Hop(PeerHop, []) }
  function Port(name: bytes): Hop { Hop(PortHop, name) }
  function Link(token: Id): Hop { Hop(LinkHop, token) }

  predicate Printable(b: bytes) {
    forall i :: 0 <= i < |b| ==> 0x21 <= b[i] <= 0x7e
  }

  predicate Valid(hop: Hop) {
    match hop.kind
    case PeerHop => hop.value == []
    case LinkHop => |hop.value| == 16 && hop.value != ZERO_ID
    case PortHop => 1 <= |hop.value| <= 63 && Printable(hop.value)
  }

  predicate AllValid(path: Path) {
    forall i :: 0 <= i < |path| ==> Valid(path[i])
  }

  datatype Frame = Frame(
    kind: Kind, state: byte, remaining: byte, request: Id, origin: Id, offset: u32, total: u32,
    destination: Path, replyPath: Path, command: bytes, data: bytes, auth: bytes)

  // ---------------------------------------------------------------- paths

  function HopBytes(hop: Hop): bytes
    requires Valid(hop)
  {
    [HopCode(hop.kind), |hop.value|] + hop.value
  }

  function PathBytes(path: Path): bytes
    requires AllValid(path)
  {
    if path == [] then [] else HopBytes(path[0]) + PathBytes(path[1..])
  }

  predicate PathOk(path: Path) {
    |path| <= MAX_HOPS && AllValid(path) && |PathBytes(path)| <= MAX_STACK_BYTES
  }

  /** `b` is the wire form of some admissible stack. */
  ghost predicate IsPathImage(b: bytes) {
    exists p: Path :: PathOk(p) && PathBytes(p) == b
  }

  lemma {:induction false} PathBytesAppend(path: Path, hop: Hop)
    requires AllValid(path) && Valid(hop)
    ensures AllValid(path + [hop])
    ensures PathBytes(path + [hop]) == PathBytes(path) + HopBytes(hop)
  {
    if path == [] {
      assert path + [hop] == [hop];
      assert PathBytes([hop]) == HopBytes(hop) + PathBytes([]);
    } else {
      hide HopBytes;
      PathBytesAppend(path[1..], hop);
      assert (path + [hop])[1..] == path[1..] + [hop];
      assert AllValid(path + [hop]);
      Assoc(HopBytes(path[0]), PathBytes(path[1..]), HopBytes(hop));
    }
  }

  /** A hop can be read off the front of any byte string that starts with it. */
  lemma HopPrefix(h: Hop, g: Hop, x: bytes, y: bytes)
    requires Valid(h) && Valid(g)
    requires HopBytes(h) + x <= HopBytes(g) + y
    ensures h == g && x <= y
  {
    var hb, gb := HopBytes(h) + x, HopBytes(g) + y;
    assert hb[0] == gb[0] && hb[1] == gb[1];
    assert |h.value| == |g.value|;
    forall i | 0 <= i < |h.value| ensures h.value[i] == g.value[i] {
      assert hb[i + 2] == gb[i + 2];
    }
    assert h.value == g.value;
    var n := |HopBytes(h)|;
    forall i | 0 <= i < |x| ensures x[i] == y[i] {
      assert hb[n + i] == gb[n + i];
    }
  }

  /** No valid stack image is a prefix of another one unless the stacks are: the
      byte format is uniquely decodable from the front. */
  lemma {:induction false} PathPrefix(p: Path, q: Path)
    requires AllValid(p) && AllValid(q)
    requires PathBytes(p) <= PathBytes(q)
    ensures p <= q
  {
    if p != [] {
      assert |HopBytes(p[0])| >= 2;
      assert q != [];
      HopPrefix(p[0], q[0], PathBytes(p[1..]), PathBytes(q[1..]));
      PathPrefix(p[1..], q[1..]);
      assert p == [p[0]] + p[1..] && q == [q[0]] + q[1..];
    }
  }

  lemma PathInjective(p: Path, q: Path)
    requires AllValid(p) && AllValid(q)
    requires PathBytes(p) == PathBytes(q)
    ensures p == q
  {
    PathPrefix(p, q);
    PathPrefix(q, p);
  }

  lemma HeadHop(p: Path)
    requires AllValid(p) && p != []
    ensures HopBytes(p[0]) <= PathBytes(p)
  {
    Cut(HopBytes(p[0]), PathBytes(p[1..]));
  }

  /** What follows the part of a stack image that has already been read as `done`. */
  lemma NextHop(done: Path, p: Path, b: bytes)
    requires AllValid(done) && AllValid(p) && PathBytes(p) == b
    requires |PathBytes(done)| < |b| && PathBytes(done) == b[..|PathBytes(done)|]
    ensures |done| < |p| && HopBytes(p[|done|]) <= b[|PathBytes(done)|..]
  {
    hide PathBytes;
    PathPrefix(done, p);
    assert |done| < |p| by {
      if done == p { assert false; }
    }
    PathBytesSplit(p, |done|);
    assert p[..|done|] == done;
    Cut(PathBytes(done), PathBytes(p[|done|..]));
    HeadHop(p[|done|..]);
  }

  lemma {:induction false} PathBytesSplit(p: Path, k: nat)
    requires AllValid(p) && k <= |p|
    ensures PathBytes(p) == PathBytes(p[..k]) + PathBytes(p[k..])
  {
    if k == 0 {
      assert p[..0] == [] && p[0..] == p;
    } else {
      hide HopBytes;
      PathBytesSplit(p[1..], k - 1);
      assert p[..k][1..] == p[1..][..k - 1];
      assert p[1..][k - 1..] == p[k..];
      Assoc(HopBytes(p[0]), PathBytes(p[..k][1..]), PathBytes(p[k..]));
    }
  }

  lemma FrontHop(rest: bytes, hop: Hop)
    requires Valid(hop) && HopBytes(hop) <= rest
    ensures |rest| >= 2 && rest[0] == HopCode(hop.kind) && rest[1] == |hop.value|
    ensures 2 + |hop.value| <= |rest| && rest[2..2 + |hop.value|] == hop.value
  {
    var hb := HopBytes(hop);
    assert rest[0] == hb[0] && rest[1] == hb[1];
    forall i | 0 <= i < |hop.value| ensures rest[2 + i] == hop.value[i] {
      assert rest[2 + i] == hb[2 + i];
    }
  }

  /** A reader that has consumed `at` bytes as `done` must find exactly the next hop
      of whatever stack `b` is the image of. */
  lemma MustRead(done: Path, p: Path, b: bytes, at: nat)
    requires AllValid(done) && PathOk(p) && PathBytes(p) == b
    requires at < |b| && PathBytes(done) == b[..at]
    ensures |done| < |p| && Valid(p[|done|])
    ensures var hop := p[|done|];
            && at + 2 + |hop.value| <= |b|
            && b[at] == HopCode(hop.kind) && b[at + 1] == |hop.value|
            && b[at + 2..at + 2 + |hop.value|] == hop.value
  {
    hide PathBytes;
    NextHop(done, p, b);
    var hop, rest := p[|done|], b[at..];
    FrontHop(rest, hop);
    assert rest[2..2 + |hop.value|] == b[at + 2..at + 2 + |hop.value|];
  }

  lemma ExtendDone(done: Path, hop: Hop, b: bytes, at: nat)
    requires AllValid(done) && Valid(hop) && at + 2 + |hop.value| <= |b| && PathBytes(done) == b[..at]
    requires b[at] == HopCode(hop.kind) && b[at + 1] == |hop.value|
    requires b[at + 2..at + 2 + |hop.value|] == hop.value
    ensures AllValid(done + [hop])
    ensures PathBytes(done + [hop]) == b[..at + 2 + |hop.value|]
  {
    hide PathBytes;
    PathBytesAppend(done, hop);
    var n := 2 + |hop.value|;
    assert b[at..at + n] == [b[at], b[at + 1]] + b[at + 2..at + n];
    assert b[..at + n] == b[..at] + b[at..at + n];
  }

  method EncodePath(path: Path) returns (r: Option<bytes>)
    ensures r == if PathOk(path) then Some(PathBytes(path)) else None
  {
    if |path| > MAX_HOPS { return None; }
    var out: bytes := [];
    for i := 0 to |path|
      invariant AllValid(path[..i]) && out == PathBytes(path[..i])
    {
      if !Valid(path[i]) { return None; }
      PathBytesAppend(path[..i], path[i]);
      assert path[..i + 1] == path[..i] + [path[i]];
      out := out + [HopCode(path[i].kind), |path[i].value|];
      out := out + path[i].value;
    }
    assert path[..|path|] == path;
    if |out| > MAX_STACK_BYTES { return None; }
    return Some(out);
  }

  /** Accepts exactly the images of admissible stacks, and returns the stack. */
  method DecodePath(b: bytes) returns (r: Option<Path>)
    ensures r.Some? ==> PathOk(r.value) && PathBytes(r.value) == b
    ensures r.None? ==> !IsPathImage(b)
  {
    hide PathBytes, IsPathImage;
    ghost var p := BehindImage(b);
    if |b| > MAX_STACK_BYTES { return None; }
    var result: Path := [];
    var at := 0;
    EmptyPath();
    while at < |b|
      invariant at <= |b| && |result| <= MAX_HOPS
      invariant AllValid(result) && PathBytes(result) == b[..at]
      invariant IsPathImage(b) ==> PathOk(p) && PathBytes(p) == b
    {
      hide AllValid;
      if IsPathImage(b) { MustRead(result, p, b, at); }
      if |b| - at < 2 || |result| == MAX_HOPS { return None; }
      var kind := HopTypeOf(b[at]);
      var size := b[at + 1];
      if size > |b| - (at + 2) { return None; }
      var value := b[at + 2..at + 2 + size];
      if kind.None? || !Valid(Hop(kind.value, value)) { return None; }
      var hop := Hop(kind.value, value);
      ExtendDone(result, hop, b, at);
      result := result + [hop];
      at := at + 2 + size;
    }
    assert b[..at] == b;
    assert IsPathImage(b) by { ImageOf(result); }
    return Some(result);
  }

  lemma ImageOf(p: Path)
    requires PathOk(p)
    ensures IsPathImage(PathBytes(p))
  {
  }

  lemma EmptyPath()
    ensures AllValid([]) && PathBytes([]) == []
  {
  }

  /** The stack behind an image, if it is one. */
  lemma BehindImage(b: bytes) returns (p: Path)
    ensures IsPathImage(b) ==> PathOk(p) && PathBytes(p) == b
  {
    p := [];
    if IsPathImage(b) { p :| PathOk(p) && PathBytes(p) == b; }
  }

  // ---------------------------------------------------------------- path text

  function HexDigit(n: int): char
    requires 0 <= n < 16
  {
    "0123456789abcdef"[n]
  }

  function HexText(b: bytes): (t: string)
    ensures |t| == 2 * |b|
  {
    if b == [] then "" else HexText(b[..|b| - 1]) + [HexDigit(b[|b| - 1] / 16), HexDigit(b[|b| - 1] % 16)]
  }

  function PathText(path: Path): string
    requires PathOk(path)
  {
    var b := PathBytes(path);
    if b == [] then "-" else HexText(b)
  }

  method HexValue(c: char) returns (n: Option<int>)
    ensures n.Some? ==> 0 <= n.value < 16 && HexDigit(n.value) == c
    ensures n.None? ==> forall k :: 0 <= k < 16 ==> HexDigit(k) != c
  {
    for k := 0 to 16
      invariant forall j :: 0 <= j < k ==> HexDigit(j) != c
    {
      if HexDigit(k) == c { return Some(k); }
    }
    return None;
  }

  lemma HexDigitInjective(m: int, n: int)
    requires 0 <= m < 16 && 0 <= n < 16
    ensures HexDigit(m) == HexDigit(n) ==> m == n
  {
  }

  lemma {:induction false} HexTextAt(b: bytes, i: nat)
    requires i < |b|
    ensures HexText(b)[2 * i] == HexDigit(b[i] / 16) && HexText(b)[2 * i + 1] == HexDigit(b[i] % 16)
  {
    if i < |b| - 1 {
      HexTextAt(b[..|b| - 1], i);
    }
  }

  lemma HexTextInjective(a: bytes, b: bytes)
    requires HexText(a) == HexText(b)
    ensures a == b
  {
    forall i | 0 <= i < |a| ensures a[i] == b[i] {
      HexTextAt(a, i);
      HexTextAt(b, i);
      HexDigitInjective(a[i] / 16, b[i] / 16);
      HexDigitInjective(a[i] % 16, b[i] % 16);
    }
  }

  /** `path_text`: the textual form of an admissible stack, nothing for any other. */
  method FormatPath(path: Path) returns (r: Option<string>)
    ensures r == if PathOk(path) then Some(PathText(path)) else None
  {
    hide HexText, PathBytes;
    var encoded := EncodePath(path);
    if encoded.None? { return None; }
    var text := Hex(encoded.value);
    return Some(if encoded.value == [] then "-" else text);
  }

  /** Lower-case hexadecimal digits, two per byte. */
  method Hex(b: bytes) returns (text: string)
    ensures text == HexText(b)
  {
    text := "";
    for i := 0 to |b|
      invariant text == HexText(b[..i])
    {
      hide HexText, HexDigit;
      HexTextAppend(b[..i], b[i]);
      assert b[..i + 1] == b[..i] + [b[i]];
      text := text + [HexDigit(b[i] / 16), HexDigit(b[i] % 16)];
    }
    assert b[..|b|] == b;
  }

  lemma HexTextAppend(done: bytes, x: byte)
    ensures HexText(done + [x]) == HexText(done) + [HexDigit(x / 16), HexDigit(x % 16)]
  {
    assert (done + [x])[..|done|] == done;
  }

  lemma ExtendHex(done: bytes, text: string, high: int, low: int)
    requires 2 * |done| + 1 < |text| && 0 <= high < 16 && 0 <= low < 16
    requires HexText(done) == text[..2 * |done|]
    requires HexDigit(high) == text[2 * |done|] && HexDigit(low) == text[2 * |done| + 1]
    ensures HexText(done + [high * 16 + low]) == text[..2 * |done| + 2]
  {
    hide HexText, HexDigit;
    HexTextAppend(done, high * 16 + low);
    assert text[..2 * |done| + 2] == text[..2 * |done|] + [text[2 * |done|], text[2 * |done| + 1]];
  }

  method ParseHex(text: string) returns (r: Option<bytes>)
    requires |text| % 2 == 0
    ensures r.Some? ==> HexText(r.value) == text
    ensures r.None? ==> forall b: bytes :: HexText(b) != text
  {
    hide HexText, HexDigit;
    var done: bytes := [];
    assert HexText(done) == "";
    while |done| < |text| / 2
      invariant |done| <= |text| / 2
      invariant HexText(done) == text[..2 * |done|]
    {
      var i := |done|;
      var high := HexValue(text[2 * i]);
      var low := HexValue(text[2 * i + 1]);
      if high.None? || low.None? {
        forall b: bytes ensures HexText(b) != text {
          if HexText(b) == text { HexTextAt(b, i); }
        }
        return None;
      }
      ExtendHex(done, text, high.value, low.value);
      done := done + [high.value * 16 + low.value];
    }
    assert text[..2 * |done|] == text;
    return Some(done);
  }

  /** `parse_path` accepts exactly the texts that `path_text` produces. */
  method ParsePath(text: string) returns (r: Option<Path>)
    ensures r.Some? ==> PathOk(r.value) && PathText(r.value) == text
    ensures r.None? ==> forall p: Path | PathOk(p) :: PathText(p) != text
  {
    if text == "-" { return Some([]); }
    if text == "" || |text| % 2 != 0 || |text| > 2 * MAX_STACK_BYTES { return None; }
    var b := ParseHex(text);
    if b.None? { return None; }
    assert b.value != [];
    r := DecodePath(b.value);
    forall p: Path | PathOk(p) && PathText(p) == text ensures PathBytes(p) == b.value {
      HexTextInjective(PathBytes(p), b.value);
    }
  }

  /** Two admissible stacks never share a text form: together with `ParsePath`,
      parsing the text of a stack gives that stack back. */
  lemma PathTextInjective(p: Path, q: Path)
    requires PathOk(p) && PathOk(q) && PathText(p) == PathText(q)
    ensures p == q
  {
    if PathBytes(p) != [] && PathBytes(q) != [] {
      HexTextInjective(PathBytes(p), PathBytes(q));
    }
    PathInjective(p, q);
  }

  // ---------------------------------------------------------------- frames

  predicate FieldsValid(f: Frame) {
    && 1 <= f.remaining <= MAX_HOPS && f.request != ZERO_ID && f.origin != ZERO_ID && |f.command| <= 256
    && (f.auth != [] ==> KindCode(f.kind) <= 8 && |f.auth| == PROOF_SIZE)
    && if f.kind.Challenge? then
         f.state == 0 && f.offset == 0 && f.total == 0 && |f.data| == CHALLENGE_SIZE
       else if KindCode(f.kind) <= 5 then
         && 1 <= f.state <= 8
         && (!f.kind.Put? ==> f.command == [])
         && (f.kind.Status? || f.kind.Finish? || f.kind.Confirmed? ==> f.data == [])
         && (f.kind.Put? || (f.kind.Reply? && 4 <= f.state <= 7) ==>
               f.total <= CONTROL_MAX_BODY && f.offset <= f.total && |f.data| <= f.total - f.offset)
       else
         f.state == 0 && f.offset == 0 && f.total == 0 && (f.kind.Discover? ==> f.data == [])
  }

  function EncodedSize(f: Frame): nat
    requires AllValid(f.destination) && AllValid(f.replyPath)
  {
    HEADER_SIZE + |f.auth| + |PathBytes(f.destination)| + |PathBytes(f.replyPath)| + |f.command| + |f.data|
  }

  /** The frames that `encode` does not throw on. */
  predicate Encodable(f: Frame) {
    FieldsValid(f) && PathOk(f.destination) && PathOk(f.replyPath) && EncodedSize(f) <= MAX_FRAME
  }

  /** The field widths of the fixed header: version, kind, state, hop budget, request,
      origin, offset, total, then the lengths of command, destination, reply and proof. */
  const HEADER_LENS: seq<nat> := [1, 1, 1, 1, 16, 16, 4, 4, 2, 2, 2, 2]

  lemma Sum4(l: seq<nat>)
    requires |l| >= 4
    ensures Sum(l) == l[0] + l[1] + l[2] + l[3] + Sum(l[4..])
  {
    assert l[1..][1..] == l[2..] && l[2..][1..] == l[3..] && l[3..][1..] == l[4..];
    assert Sum(l[2..]) == l[2] + l[3] + Sum(l[4..]);
  }

  lemma HeaderWidth()
    ensures |HEADER_LENS| == 12 && Sum(HEADER_LENS) == HEADER_SIZE
  {
    hide Sum;
    var l := HEADER_LENS;
    Sum4(l);
    Sum4(l[4..]);
    Sum4(l[8..]);
    assert l[4..][4..] == l[8..] && l[8..][4..] == [];
  }

  function HeaderParts(f: Frame): (parts: seq<bytes>)
    requires Encodable(f)
    ensures Lengths(parts) == HEADER_LENS
  {
    var parts: seq<bytes> := [
      [2], [KindCode(f.kind)], [f.state], [f.remaining], f.request, f.origin,
      ToBe(f.offset, 4), ToBe(f.total, 4), ToBe(|f.command|, 2),
      ToBe(|PathBytes(f.destination)|, 2), ToBe(|PathBytes(f.replyPath)|, 2), ToBe(|f.auth|, 2)];
    parts
  }

  function BodyParts(f: Frame): seq<bytes>
    requires Encodable(f)
  {
    [f.auth, PathBytes(f.destination), PathBytes(f.replyPath), f.command, f.data]
  }

  function FrameBytes(f: Frame): bytes
    requires Encodable(f)
  {
    Join(HeaderParts(f)) + Join(BodyParts(f))
  }

  lemma Sum5(l: seq<nat>)
    requires |l| == 5
    ensures Sum(l) == l[0] + l[1] + l[2] + l[3] + l[4]
  {
    Sum4(l);
    assert l[4..] == [l[4]];
  }

  lemma FrameLength(f: Frame)
    requires Encodable(f)
    ensures |Join(HeaderParts(f))| == HEADER_SIZE && |FrameBytes(f)| == EncodedSize(f)
  {
    HeaderWidth();
    JoinLength(HeaderParts(f));
    JoinLength(BodyParts(f));
    Sum5(Lengths(BodyParts(f)));
  }

  /** The header fields and the body that a byte string splits into. */
  function HeaderOf(b: bytes): (parts: seq<bytes>)
    requires |b| >= HEADER_SIZE
    ensures |parts| == 12 && forall i :: 0 <= i < 12 ==> |parts[i]| == HEADER_LENS[i]
  {
    HeaderWidth();
    Split(b[..HEADER_SIZE], HEADER_LENS)
  }

  /** The lengths a header declares for proof, destination, reply path and command,
      and what is left for the data. */
  function BodyLens(header: seq<bytes>, size: nat): (lens: Option<seq<nat>>)
    requires |header| == 12
    ensures lens.Some? ==> |lens.value| == 5 && Sum(lens.value) == size
  {
    var auth, command := FromBe(header[11]), FromBe(header[8]);
    var destination, reply := FromBe(header[9]), FromBe(header[10]);
    var used := auth + destination + reply + command;
    if used > size then None
    else
      var lens := [auth, destination, reply, command, size - used];
      Sum5(lens);
      Some(lens)
  }

  lemma HeaderNumbers(f: Frame)
    requires Encodable(f)
    ensures var h := HeaderParts(f);
            && FromBe(h[6]) == f.offset && FromBe(h[7]) == f.total && FromBe(h[8]) == |f.command|
            && FromBe(h[9]) == |PathBytes(f.destination)| && FromBe(h[10]) == |PathBytes(f.replyPath)|
            && FromBe(h[11]) == |f.auth|
  {
    Widths();
    FromToBe(f.offset, 4);
    FromToBe(f.total, 4);
    FromToBe(|f.command|, 2);
    FromToBe(|PathBytes(f.destination)|, 2);
    FromToBe(|PathBytes(f.replyPath)|, 2);
    FromToBe(|f.auth|, 2);
  }

  /** `b` is cut into the fields of `f`: the header by the fixed widths, the rest by
      the lengths the header declares. */
  predicate SplitsInto(b: bytes, f: Frame)
    requires Encodable(f)
  {
    var body := BodyParts(f);
    && HEADER_SIZE <= |b| == EncodedSize(f)
    && HeaderOf(b) == HeaderParts(f)
    && BodyLens(HeaderParts(f), |b| - HEADER_SIZE) == Some(Lengths(body))
    && Sum(Lengths(body)) <= |b[HEADER_SIZE..]| && Split(b[HEADER_SIZE..], Lengths(body)) == body
  }

  lemma DeclaredLens(f: Frame)
    requires Encodable(f)
    ensures BodyLens(HeaderParts(f), EncodedSize(f) - HEADER_SIZE) == Some(Lengths(BodyParts(f)))
  {
    hide FieldsValid, PathBytes, FromBe, ToBe, Sum;
    HeaderNumbers(f);
    var lens := BodyLens(HeaderParts(f), EncodedSize(f) - HEADER_SIZE);
    var body := Lengths(BodyParts(f));
    assert lens.Some?;
    assert lens.value[0] == body[0] && lens.value[1] == body[1] && lens.value[2] == body[2];
    assert lens.value == body;
  }

  /** Splitting the image of a frame gives back its fields. */
  lemma FrameSplits(f: Frame)
    requires Encodable(f)
    ensures SplitsInto(FrameBytes(f), f)
  {
    hide FieldsValid, PathBytes, FromBe, ToBe, Sum, Split, Join, HeaderParts, BodyParts, EncodedSize, BodyLens;
    FrameLength(f);
    DeclaredLens(f);
    var header, body := Join(HeaderParts(f)), Join(BodyParts(f));
    Cut(header, body);
    HeaderWidth();
    SplitJoin(HeaderParts(f), []);
    assert header + [] == header;
    SplitJoin(BodyParts(f), []);
    assert body + [] == body;
  }

  lemma SameFields(f: Frame, g: Frame)
    requires Encodable(f) && Encodable(g)
    requires HeaderParts(f) == HeaderParts(g) && BodyParts(f) == BodyParts(g)
    ensures f == g
  {
    HeaderNumbers(f);
    HeaderNumbers(g);
    var hf, hg, bf, bg := HeaderParts(f), HeaderParts(g), BodyParts(f), BodyParts(g);
    assert hf[1] == hg[1] && hf[2] == hg[2] && hf[3] == hg[3] && hf[4] == hg[4] && hf[5] == hg[5];
    assert KindOf(KindCode(f.kind)) == KindOf(KindCode(g.kind));
    assert bf[0] == bg[0] && bf[1] == bg[1] && bf[2] == bg[2] && bf[3] == bg[3] && bf[4] == bg[4];
    PathInjective(f.destination, g.destination);
    PathInjective(f.replyPath, g.replyPath);
  }

  lemma FrameInjective(f: Frame, g: Frame)
    requires Encodable(f) && Encodable(g)
    requires FrameBytes(f) == FrameBytes(g)
    ensures f == g
  {
    hide FieldsValid, PathBytes, FromBe, ToBe, Sum, Split, Join, HeaderParts, BodyParts, EncodedSize, BodyLens;
    FrameSplits(f);
    FrameSplits(g);
    SameFields(f, g);
  }

  /** The frame behind a byte string, when there is one. */
  ghost function Decoded(b: bytes): (r: Option<Frame>)
    ensures r.Some? ==> Encodable(r.value) && FrameBytes(r.value) == b
    ensures r.None? ==> forall f: Frame | Encodable(f) :: FrameBytes(f) != b
  {
    if exists f: Frame :: Encodable(f) && FrameBytes(f) == b
    then var f: Frame :| Encodable(f) && FrameBytes(f) == b; Some(f)
    else None
  }

  /** `encode` then `decode` is the identity on every frame that `encode` accepts. */
  lemma DecodedEncoded(f: Frame)
    requires Encodable(f)
    ensures Decoded(FrameBytes(f)) == Some(f)
  {
    var r := Decoded(FrameBytes(f));
    if r.Some? {
      FrameInjective(r.value, f);
    }
  }

  method Encode(f: Frame) returns (r: Option<bytes>)
    ensures r == if Encodable(f) then Some(FrameBytes(f)) else None
  {
    if !FieldsValid(f) { return None; }
    var destination := EncodePath(f.destination);
    var reply := EncodePath(f.replyPath);
    if destination.None? || reply.None? { return None; }
    var size := HEADER_SIZE + |f.auth| + |destination.value| + |reply.value| + |f.command| + |f.data|;
    if size > MAX_FRAME { return None; }
    var header: seq<bytes> := [
      [2], [KindCode(f.kind)], [f.state], [f.remaining], f.request, f.origin,
      ToBe(f.offset, 4), ToBe(f.total, 4), ToBe(|f.command|, 2),
      ToBe(|destination.value|, 2), ToBe(|reply.value|, 2), ToBe(|f.auth|, 2)];
    assert header == HeaderParts(f);
    var body: seq<bytes> := [f.auth, destination.value, reply.value, f.command, f.data];
    return Some(Join(header) + Join(body));
  }

  /** Assembles a frame from the split parts of a byte string; the paths are already decoded. */
  function Assemble(h: seq<bytes>, kind: Kind, destination: Path, reply: Path, body: seq<bytes>): Frame
    requires |h| == 12 && |body| == 5
    requires forall i :: 0 <= i < 12 ==> |h[i]| == HEADER_LENS[i]
  {
    Widths();
    Frame(kind, h[2][0], h[3][0], h[4], h[5], FromBe(h[6]), FromBe(h[7]), destination, reply, body[3], body[4], body[0])
  }

  /** The conditions that `decode` checks one after the other. */
  ghost predicate WellShaped(b: bytes) {
    && HEADER_SIZE <= |b| <= MAX_FRAME && HeaderOf(b)[0] == [2] && KindOf(HeaderOf(b)[1][0]).Some?
    && BodyLens(HeaderOf(b), |b| - HEADER_SIZE).Some?
    && var l := BodyLens(HeaderOf(b), |b| - HEADER_SIZE).value; var body := Split(b[HEADER_SIZE..], l);
    && (l[0] == 0 || l[0] == PROOF_SIZE) && l[3] <= 256 && IsPathImage(body[1]) && IsPathImage(body[2])
  }

  lemma ImagesAreWellShaped(b: bytes)
    requires Decoded(b).Some?
    ensures WellShaped(b)
  {
    hide PathBytes, Join, Split, Sum, FromBe, ToBe;
    var f := Decoded(b).value;
    FrameSplits(f);
    assert IsPathImage(PathBytes(f.destination)) && IsPathImage(PathBytes(f.replyPath));
  }

  /** Whatever `decode` accepts is the image of the frame it returns, and it
      accepts every image: `encode` after `decode` is the identity as well. */
  method Decode(b: bytes) returns (r: Option<Frame>)
    ensures r == Decoded(b)
  {
    hide PathBytes, Join, Split, Sum, FromBe, Decoded, Encodable, FieldsValid, BodyLens, HeaderOf, KindOf, PathOk;
    if Decoded(b).Some? { ImagesAreWellShaped(b); }
    if |b| < HEADER_SIZE || |b| > MAX_FRAME { return None; }
    var h := HeaderOf(b);
    if h[0] != [2] { return None; }
    var lens := BodyLens(h, |b| - HEADER_SIZE);
    if lens.None? { return None; }
    var l := lens.value;
    if (l[0] != 0 && l[0] != PROOF_SIZE) || l[3] > 256 { return None; }
    var body := Split(b[HEADER_SIZE..], l);
    var destination := DecodePath(body[1]);
    if destination.None? { return None; }
    var reply := DecodePath(body[2]);
    if reply.None? { return None; }
    var kind := KindOf(h[1][0]);
    if kind.None? { return None; }
    assert h[1] == [KindCode(kind.value)];
    AssembledIsDecoded(b, kind.value, destination.value, reply.value);
    var f := Assemble(h, kind.value, destination.value, reply.value, body);
    if !FieldsValid(f) { return None; }
    return Some(f);
  }

  /** The frame assembled from the parts of `b` is the only one `b` can be the image of. */
  lemma AssembledIsDecoded(b: bytes, kind: Kind, destination: Path, reply: Path)
    requires HEADER_SIZE <= |b| <= MAX_FRAME && HeaderOf(b)[0] == [2] && HeaderOf(b)[1] == [KindCode(kind)]
    requires BodyLens(HeaderOf(b), |b| - HEADER_SIZE).Some?
    requires var body := Split(b[HEADER_SIZE..], BodyLens(HeaderOf(b), |b| - HEADER_SIZE).value);
             PathOk(destination) && PathBytes(destination) == body[1] && PathOk(reply) && PathBytes(reply) == body[2]
    ensures var body := Split(b[HEADER_SIZE..], BodyLens(HeaderOf(b), |b| - HEADER_SIZE).value);
            var f := Assemble(HeaderOf(b), kind, destination, reply, body);
            Decoded(b) == if FieldsValid(f) then Some(f) else None
  {
    hide PathBytes, Join, Split, Sum, FromBe, ToBe, FieldsValid;
    var h := HeaderOf(b);
    var l := BodyLens(h, |b| - HEADER_SIZE).value;
    var body := Split(b[HEADER_SIZE..], l);
    var f := Assemble(h, kind, destination, reply, body);
    if FieldsValid(f) {
      Sum5(l);
      assert EncodedSize(f) == |b|;
      AssembledHeader(b, f, l);
      assert BodyParts(f) == body;
      HeaderWidth();
      JoinSplit(b[..HEADER_SIZE], HEADER_LENS);
      JoinSplit(b[HEADER_SIZE..], l);
      assert b == b[..HEADER_SIZE] + b[HEADER_SIZE..];
      DecodedEncoded(f);
    }
    if Decoded(b).Some? {
      var g := Decoded(b).value;
      FrameSplits(g);
      PathInjective(destination, g.destination);
      PathInjective(reply, g.replyPath);
      HeaderNumbers(g);
      assert KindOf(KindCode(kind)) == KindOf(KindCode(g.kind));
      assert f == g;
    }
  }

  lemma AssembledHeader(b: bytes, f: Frame, l: seq<nat>)
    requires |b| >= HEADER_SIZE && Encodable(f)
    requires var h := HeaderOf(b);
             && h[0] == [2] && h[1] == [KindCode(f.kind)] && h[2] == [f.state] && h[3] == [f.remaining]
             && h[4] == f.request && h[5] == f.origin && FromBe(h[6]) == f.offset && FromBe(h[7]) == f.total
             && FromBe(h[8]) == |f.command| && FromBe(h[9]) == |PathBytes(f.destination)|
             && FromBe(h[10]) == |PathBytes(f.replyPath)| && FromBe(h[11]) == |f.auth|
    ensures HeaderParts(f) == HeaderOf(b)
  {
    hide PathBytes, Join, Split, Sum, FromBe, ToBe, FieldsValid;
    var h := HeaderOf(b);
    ToFromBe(h[6]);
    ToFromBe(h[7]);
    ToFromBe(h[8]);
    ToFromBe(h[9]);
    ToFromBe(h[10]);
    ToFromBe(h[11]);
  }

  /** The answer to a request travels along the path the request collected. */
  function Response(request: Frame, kind: Kind, data: bytes): Frame {
    Frame(kind, 0, MAX_HOPS, request.request, request.origin, 0, 0, request.replyPath, [], request.command, data, [])
  }

  /** The canonical form that discovery proofs authenticate: transport paths, hop
      budget and proof are left out. */
  function DiscoveryCore(f: Frame): Frame {
    f.(auth := [], destination := [], replyPath := [], remaining := MAX_HOPS)
  }
}
