/** One control transaction over a record socket (src/control_socket.hpp): however reading
    and writing are split by a busy socket, a request is dispatched at most once, with
    exactly its declared body, and the answer goes out as one header and its chunks. */
module ControlSocket {
  import opened Bytes
  import opened ControlProtocol

  /** What the first record asks for. `framed` decides the form of the answer. */
  datatype Parsed =
    | Unknown
    | Refused(framed: bool, message: bytes)
    | Operation(remote: bool, framed: bool, command: bytes, expected: nat)

  datatype Reply = Reply(success: bool, body: bytes, rejected: bool)

  /** The commands a component understands and what it does for them. `ticket` is the line
      that announces a request taken over for a remote component, if those are served. */
  datatype Service = Service(parse: bytes -> Parsed, execute: (bytes, bytes) -> Reply, ticket: Option<bytes>)

  datatype Client = Client(header: bool, responding: bool, framed: bool, remote: bool, pending: bool, closed: bool,
                           command: bytes, body: bytes, expected: nat,
                           response: bytes, success: bool, rejected: bool, responseHeader: bool, sent: nat,
                           calls: seq<(bytes, bytes)>, out: seq<bytes>)

  const FRESH := Client(false, false, false, false, false, false, [], [], 0, [], true, false, false, 0, [], [])

  function Unsupported(): bytes { Text("remote control unsupported by this component\n") }
  function TooLarge(): bytes { Text("control record too large\n") }
  function TooLong(): bytes { Text("control body exceeds declared length\n") }
  function UnknownCommand(): bytes { Text("error=unknown_command\n") }

  /** A local reply; without a status line, an error is marked in the text. */
  function ReplyText(framed: bool, reply: Reply): bytes {
    if !framed && !reply.success then Text("error=") + reply.body else reply.body
  }

  predicate Reading(c: Client) { !c.responding && !c.pending && !c.closed }

  function Respond(c: Client, response: bytes, success: bool, rejected: bool): Client {
    c.(response := response, success := success, rejected := rejected, responding := true)
  }

  /** The body is complete: dispatch, locally or to the remote side. */
  function Dispatch(sv: Service, c: Client): Client {
    if c.remote then
      if sv.ticket.None? then Respond(c, Unsupported(), false, false)
      else c.(pending := true, calls := c.calls + [(c.command, c.body)], out := c.out + [sv.ticket.value])
    else
      var reply := sv.execute(c.command, c.body);
      Respond(c.(calls := c.calls + [(c.command, c.body)]), ReplyText(c.framed, reply), reply.success, false)
  }

  function Check(sv: Service, c: Client): Client {
    if |c.body| == c.expected then Dispatch(sv, c) else c
  }

  function OnRecord(sv: Service, c: Client, record: bytes): Client {
    if |record| > CHUNK then Respond(c, TooLarge(), false, false)
    else if !c.header then
      match sv.parse(record)
      case Unknown => Respond(c.(header := true, framed := false), UnknownCommand(), true, false)
      case Refused(framed, message) => Respond(c.(header := true, framed := framed), message + Text("\n"), false, false)
      case Operation(remote, framed, command, expected) =>
        Check(sv, c.(header := true, remote := remote, framed := remote || framed, command := command,
                     expected := expected))
    else if |record| > c.expected - |c.body| then Respond(c, TooLong(), false, false)
    else Check(sv, c.(body := c.body + record))
  }

  // ---------------------------------------------------------------- writing

  function StatusWord(success: bool, rejected: bool): bytes {
    if success then Text("OK ") else if rejected then Text("REJECTED ") else Text("ERROR ")
  }

  function StatusLine(success: bool, rejected: bool, size: nat): bytes {
    StatusWord(success, rejected) + Decimal(size) + Text("\n")
  }

  /** Everything an answer consists of. */
  function Frames(c: Client): seq<bytes> {
    if c.framed then [StatusLine(c.success, c.rejected, |c.response|)] + Chunks(c.response)
    else if c.response == [] then [] else [c.response]
  }

  /** What is still to be sent of it. */
  function Rest(c: Client): seq<bytes>
    requires c.sent <= |c.response|
  {
    (if c.framed && !c.responseHeader then [StatusLine(c.success, c.rejected, |c.response|)] else [])
    + (if c.framed then Chunks(c.response[c.sent..]) else if c.sent < |c.response| then [c.response] else [])
  }

  datatype SendResult = Done | Again | Broken

  predicate Sane(c: Client) { c.sent <= |c.response| }

  /** The answer is under way: a header goes before the chunks, an unframed answer goes
      out in one piece. */
  predicate Underway(c: Client) {
    Sane(c) && (c.framed ==> c.sent == 0 || c.responseHeader) && (!c.framed ==> c.sent == 0)
  }

  /** One turn of `flush`; the flag says that the transaction is over. */
  function FlushTurn(c: Client, result: SendResult): (Client, bool)
    requires Underway(c)
  {
    var header := c.framed && !c.responseHeader;
    var left := |c.response| - c.sent;
    var count := if c.framed && left > CHUNK then CHUNK else left;
    if !header && count == 0 then (c, true)
    else if result.Again? then (c, false)
    else if result.Broken? then (c, true)
    else if header then
      (c.(out := c.out + [StatusLine(c.success, c.rejected, |c.response|)], responseHeader := true), |c.response| == 0)
    else
      (c.(out := c.out + [c.response[c.sent..c.sent + count]], sent := c.sent + count), count == left)
  }

  // ---------------------------------------------------------------- runs

  datatype Got = Record(record: bytes) | Busy | Hangup

  datatype Event = Receive(got: Got) | Answered(reply: Reply) | Send(result: SendResult) | Expire

  /** The client and the records it has been given. */
  datatype System = System(c: Client, got: seq<bytes>)

  function Step(sv: Service, s: System, ev: Event): System
    requires s.c.responding && !s.c.closed ==> Underway(s.c)
  {
    match ev
    case Receive(got) =>
      if !Reading(s.c) then s
      else (match got
        case Record(r) => if r == [] then s.(c := s.c.(closed := true)) else System(OnRecord(sv, s.c, r), s.got + [r])
        case Busy => s
        case Hangup => s.(c := s.c.(closed := true)))
    case Answered(reply) =>
      if s.c.pending && !s.c.closed
        then s.(c := Respond(s.c.(pending := false), reply.body, reply.success, reply.rejected)) else s
    case Send(result) =>
      if !s.c.responding || s.c.closed then s
      else var f := FlushTurn(s.c, result); s.(c := f.0.(closed := f.1))
    case Expire => s.(c := s.c.(closed := true))
  }

  /** The request that the received records make up, as one call would see it. */
  ghost predicate Asked(sv: Service, s: System) {
    && s.c.header && s.got != [] && sv.parse(s.got[0]).Operation?
    && var op := sv.parse(s.got[0]);
       && s.c.remote == op.remote && s.c.framed == (op.remote || op.framed) && s.c.command == op.command
       && s.c.expected == op.expected
       && s.c.body == Join(s.got[1..])
  }

  /** The line that precedes the answer to a remote request. */
  function Prelude(sv: Service, c: Client): seq<bytes> {
    if c.calls != [] && c.remote && sv.ticket.Some? then [sv.ticket.value] else []
  }

  /** Why records are refused: too large, not a known operation, more than declared, or
      meant for a remote component that is not served. */
  predicate Bad(sv: Service, got: seq<bytes>) {
    && got != []
    && (|| |got[|got| - 1]| > CHUNK
        || !sv.parse(got[0]).Operation?
        || |Join(got[1..])| > sv.parse(got[0]).expected
        || (sv.parse(got[0]).remote && sv.ticket.None?))
  }

  datatype Denial = Denial(framed: bool, success: bool, message: bytes)

  /** The answer to bad records. */
  function Refusal(sv: Service, got: seq<bytes>): Denial
    requires got != []
  {
    var p := sv.parse(got[0]);
    if |got[|got| - 1]| > CHUNK then
      Denial(|got| > 1 && p.Operation? && (p.remote || p.framed), false, TooLarge())
    else match p
      case Unknown => Denial(false, true, UnknownCommand())
      case Refused(framed, message) => Denial(framed, false, message + Text("\n"))
      case Operation(remote, framed, _, expected) =>
        Denial(remote || framed, false,
               if |Join(got[1..])| > expected then TooLong()
               else Unsupported())
  }

  predicate Refuses(sv: Service, c: Client, got: seq<bytes>) {
    Bad(sv, got) && Denial(c.framed, c.success, c.response) == Refusal(sv, got) && !c.rejected
  }

  ghost predicate Inv(sv: Service, s: System) {
    && Sane(s.c)
    && (s.c.responding && s.c.calls == [] ==> Refuses(sv, s.c, s.got))
    && (s.c.calls != [] && s.c.remote ==> sv.ticket.Some?)
    && (s.c.calls != [] ==> s.got != [] && |s.got[|s.got| - 1]| <= CHUNK)
    && (Reading(s.c) && !s.c.header ==> s.c == FRESH && s.got == [])
    && (Reading(s.c) && s.c.header ==> Asked(sv, s) && |s.c.body| < s.c.expected && s.c.calls == [] && s.c.out == [])
    && (s.c.calls != [] ==> Asked(sv, s) && |s.c.body| == s.c.expected && s.c.calls == [(s.c.command, s.c.body)])
    && (s.c.pending ==>
          && s.c.calls != [] && s.c.remote && !s.c.responding && s.c.out == Prelude(sv, s.c)
          && s.c.sent == 0 && !s.c.responseHeader)
    && (s.c.responding ==> !s.c.pending && s.c.out + Rest(s.c) == Prelude(sv, s.c) + Frames(s.c))
    && (s.c.responding && !s.c.closed ==> Underway(s.c))
    && (s.c.responding && s.c.calls != [] && !s.c.remote ==>
          var reply := sv.execute(s.c.command, s.c.body);
          s.c.success == reply.success && !s.c.rejected
          && s.c.response == ReplyText(s.c.framed, reply))
    && (!s.c.responding && !s.c.pending ==> s.c.calls == [] && s.c.sent == 0 && !s.c.responseHeader && s.c.out == [])
  }

  lemma StartingRest(c: Client)
    requires c.sent == 0 && !c.responseHeader
    ensures Rest(c) == Frames(c)
  {
    hide StatusLine, Chunks;
    assert c.response[0..] == c.response;
    if !c.framed && c.response == [] { assert [] + [] == Rest(c); }
  }

  lemma RespondInv(sv: Service, s: System, c: Client, response: bytes, success: bool, rejected: bool)
    requires !c.pending && c.sent == 0 && !c.responseHeader && c.calls == [] && c.out == []
    requires Refuses(sv, Respond(c, response, success, rejected), s.got)
    ensures Inv(sv, System(Respond(c, response, success, rejected), s.got))
  {
    hide Frames, Rest, StatusLine, Refuses;
    var r := Respond(c, response, success, rejected);
    StartingRest(r);
    assert [] + Frames(r) == Frames(r);
  }

  lemma DispatchInv(sv: Service, c: Client, got: seq<bytes>)
    requires c.sent == 0 && !c.responseHeader && c.calls == [] && c.out == [] && !c.pending && !c.responding
             && !c.closed
    requires Asked(sv, System(c, got)) && |c.body| == c.expected && |got[|got| - 1]| <= CHUNK
    ensures Inv(sv, System(Dispatch(sv, c), got))
  {
    hide Frames, Rest, StatusLine, Join, Text, Unsupported, TooLarge, TooLong, UnknownCommand;
    var d := Dispatch(sv, c);
    if c.remote && sv.ticket.None? {
      RespondInv(sv, System(c, got), c, Unsupported(), false, false);
    } else if !c.remote {
      StartingRest(d);
      assert Prelude(sv, d) == [];
      assert [] + Frames(d) == Frames(d);
    } else {
      assert [] + [sv.ticket.value] == [sv.ticket.value];
    }
  }

  lemma RecordInv(sv: Service, s: System, r: bytes)
    requires Inv(sv, s) && Reading(s.c) && r != []
    ensures Inv(sv, System(OnRecord(sv, s.c, r), s.got + [r]))
  {
    hide OnRecord, Inv;
    if s.c.header { BodyInv(sv, s, r); } else { HeaderInv(sv, s, r); }
  }

  /** The first record. */
  lemma HeaderInv(sv: Service, s: System, r: bytes)
    requires Inv(sv, s) && Reading(s.c) && r != [] && !s.c.header
    ensures Inv(sv, System(OnRecord(sv, s.c, r), s.got + [r]))
  {
    hide Frames, Rest, StatusLine, Text, Unsupported, TooLarge, TooLong, UnknownCommand, Dispatch;
    var c := s.c;
    var after := System(OnRecord(sv, c, r), s.got + [r]);
    assert after.got == [r] && after.got[1..] == [];
    if |r| > CHUNK {
      RespondInv(sv, after, c, TooLarge(), false, false);
    } else {
      match sv.parse(r) {
        case Unknown => RespondInv(sv, after, c.(header := true, framed := false), UnknownCommand(), true, false);
        case Refused(framed, message) =>
          RespondInv(sv, after, c.(header := true, framed := framed), message + Text("\n"), false, false);
        case Operation(remote, framed, command, expected) =>
          var d := c.(header := true, remote := remote, framed := remote || framed, command := command,
                      expected := expected);
          if expected == 0 { DispatchInv(sv, d, after.got); }
      }
    }
  }

  /** A record of the body. */
  lemma BodyInv(sv: Service, s: System, r: bytes)
    requires Inv(sv, s) && Reading(s.c) && r != [] && s.c.header
    ensures Inv(sv, System(OnRecord(sv, s.c, r), s.got + [r]))
  {
    hide Frames, Rest, StatusLine, Text, Unsupported, TooLarge, TooLong, UnknownCommand, Dispatch;
    var c := s.c;
    var after := System(OnRecord(sv, c, r), s.got + [r]);
    BodyGrows(s.got, r);
    if |r| > CHUNK {
      RespondInv(sv, after, c, TooLarge(), false, false);
    } else if |r| > c.expected - |c.body| {
      RespondInv(sv, after, c, TooLong(), false, false);
    } else {
      var d := c.(body := c.body + r);
      if |d.body| == d.expected { DispatchInv(sv, d, after.got); }
    }
  }

  lemma BodyGrows(got: seq<bytes>, r: bytes)
    requires got != []
    ensures (got + [r])[0] == got[0] && Join((got + [r])[1..]) == Join(got[1..]) + r
  {
    assert (got + [r])[1..] == got[1..] + [r];
    JoinConcat(got[1..], [r]);
    assert [r][1..] == [];
    assert Join([r]) == r;
  }

  lemma {:induction false} ChunksNext(s: bytes)
    requires s != []
    ensures var n := if |s| > CHUNK then CHUNK else |s|; Chunks(s) == [s[..n]] + Chunks(s[n..])
  {
    if |s| <= CHUNK { assert s[..|s|] == s && s[|s|..] == []; }
  }

  lemma ChunksEmpty(s: bytes)
    ensures Chunks(s) == [] <==> s == []
  {
  }

  lemma SendHeader(c: Client)
    requires Underway(c) && c.framed && !c.responseHeader
    ensures var f := FlushTurn(c, Done);
            && Underway(f.0) && f.0.sent == 0
            && Rest(c) == [StatusLine(c.success, c.rejected, |c.response|)] + Rest(f.0)
            && f.0 == c.(responseHeader := true, out := c.out + [StatusLine(c.success, c.rejected, |c.response|)])
            && (f.1 <==> Rest(f.0) == [])
  {
    hide StatusLine, Chunks;
    assert c.response[0..] == c.response;
    ChunksEmpty(c.response);
    var f := FlushTurn(c, Done);
    assert Rest(f.0) == Chunks(c.response);
  }

  /** The next chunk. */
  function Piece(c: Client): bytes
    requires Sane(c)
  {
    var left := |c.response| - c.sent;
    c.response[c.sent..c.sent + if c.framed && left > CHUNK then CHUNK else left]
  }

  lemma SendChunk(c: Client)
    requires Underway(c) && c.framed && c.responseHeader && c.sent < |c.response|
    ensures var f := FlushTurn(c, Done);
            && Underway(f.0) && Rest(c) == [Piece(c)] + Rest(f.0)
            && f.0 == c.(sent := f.0.sent, out := c.out + [Piece(c)])
            && (f.1 <==> Rest(f.0) == [])
  {
    hide StatusLine, Chunks, Rest, FlushTurn;
    var rest := c.response[c.sent..];
    var n := if |rest| > CHUNK then CHUNK else |rest|;
    ChunksNext(rest);
    assert rest[..n] == Piece(c) && rest[n..] == c.response[c.sent + n..];
    ChunksEmpty(rest[n..]);
    ChunkTurn(c, n);
    RestIs(c);
    RestIs(FlushTurn(c, Done).0);
  }

  lemma ChunkTurn(c: Client, n: nat)
    requires Underway(c) && c.framed && c.responseHeader && c.sent < |c.response|
    requires n == if |c.response| - c.sent > CHUNK then CHUNK else |c.response| - c.sent
    ensures FlushTurn(c, Done) == (c.(sent := c.sent + n, out := c.out + [Piece(c)]), c.sent + n == |c.response|)
  {
    hide StatusLine;
  }

  lemma RestIs(c: Client)
    requires Sane(c) && c.framed && c.responseHeader
    ensures Rest(c) == Chunks(c.response[c.sent..])
  {
    hide Chunks, StatusLine;
    assert [] + Chunks(c.response[c.sent..]) == Chunks(c.response[c.sent..]);
  }

  lemma SendWhole(c: Client)
    requires Underway(c) && !c.framed && c.response != []
    ensures var f := FlushTurn(c, Done);
            && Sane(f.0) && Rest(c) == [c.response] && Rest(f.0) == [] && f.1
            && f.0 == c.(sent := f.0.sent, out := c.out + [c.response])
  {
    hide Chunks;
    assert c.response[0..|c.response|] == c.response;
  }

  lemma Shift(out: seq<bytes>, x: bytes, rest: seq<bytes>)
    ensures out + ([x] + rest) == (out + [x]) + rest
  {
  }

  /** A turn of `flush` sends the next part of the answer or nothing, and is over when
      nothing is left or the connection broke. */
  lemma FlushTurnIs(c: Client, result: SendResult)
    requires Underway(c)
    ensures var f := FlushTurn(c, result);
            && Sane(f.0) && (f.1 || Underway(f.0)) && c.out + Rest(c) == f.0.out + Rest(f.0)
            && f.0 == c.(out := f.0.out, sent := f.0.sent, responseHeader := f.0.responseHeader)
            && (f.1 && !result.Broken? ==> Rest(f.0) == []) && (Rest(f.0) == [] && result.Done? ==> f.1)
            && (result.Done? && Rest(c) != [] ==> |f.0.out| == |c.out| + 1)
  {
    if result.Done? {
      DoneTurn(c);
    } else {
      hide StatusLine, Chunks;
      ChunksEmpty(c.response[c.sent..]);
    }
  }

  lemma DoneTurn(c: Client)
    requires Underway(c)
    ensures var f := FlushTurn(c, Done);
            && Sane(f.0) && (f.1 || Underway(f.0)) && c.out + Rest(c) == f.0.out + Rest(f.0)
            && f.0 == c.(out := f.0.out, sent := f.0.sent, responseHeader := f.0.responseHeader)
            && (f.1 <==> Rest(f.0) == []) && (Rest(c) != [] ==> |f.0.out| == |c.out| + 1)
  {
    hide FlushTurn, Rest, StatusLine, Piece;
    var f := FlushTurn(c, Done);
    if c.framed && !c.responseHeader {
      SendHeader(c);
      Shift(c.out, StatusLine(c.success, c.rejected, |c.response|), Rest(f.0));
    } else if c.framed && c.sent < |c.response| {
      SendChunk(c);
      Shift(c.out, Piece(c), Rest(f.0));
    } else if !c.framed && c.response != [] {
      SendWhole(c);
    } else {
      NothingLeft(c);
    }
  }

  lemma NothingLeft(c: Client)
    requires Underway(c) && c.sent == |c.response| && (c.framed ==> c.responseHeader)
    ensures Rest(c) == [] && FlushTurn(c, Done) == (c, true)
  {
    hide StatusLine;
    assert c.response[c.sent..] == [];
  }

  lemma SendInv(sv: Service, s: System, result: SendResult)
    requires Inv(sv, s) && s.c.responding && !s.c.closed
    ensures Inv(sv, Step(sv, s, Send(result)))
  {
    hide Rest, Frames, FlushTurn, StatusLine, Asked, Text, Unsupported, TooLarge, TooLong, UnknownCommand, Bad,
        Refusal, Prelude;
    FlushTurnIs(s.c, result);
    var f := FlushTurn(s.c, result);
    SameFrames(s.c, f.0);
    SameFrames(f.0, f.0.(closed := f.1));
    SamePrelude(sv, s.c, f.0.(closed := f.1));
    assert s.c.calls != [] ==> Asked(sv, Step(sv, s, Send(result))) by { SameAsked(sv, s, Step(sv, s, Send(result))); }
  }

  lemma SameFrames(c: Client, d: Client)
    requires d.framed == c.framed && d.response == c.response && d.success == c.success && d.rejected == c.rejected
    ensures Frames(c) == Frames(d)
    ensures c.sent == d.sent <= |c.response| && c.responseHeader == d.responseHeader ==> Rest(c) == Rest(d)
  {
  }

  lemma SamePrelude(sv: Service, c: Client, d: Client)
    requires d.calls == c.calls && d.remote == c.remote
    ensures Prelude(sv, c) == Prelude(sv, d)
  {
  }

  lemma SameAsked(sv: Service, s: System, t: System)
    requires s.c.calls != [] ==> Asked(sv, s)
    requires t.got == s.got && t.c.header == s.c.header && t.c.remote == s.c.remote && t.c.framed == s.c.framed
             && t.c.command == s.c.command && t.c.expected == s.c.expected && t.c.body == s.c.body
    ensures s.c.calls != [] ==> Asked(sv, t)
  {
  }

  lemma ClosedInv(sv: Service, s: System)
    requires Inv(sv, s)
    ensures Inv(sv, s.(c := s.c.(closed := true)))
  {
    hide Rest, Frames, Text, Unsupported, TooLarge, TooLong, UnknownCommand;
    if s.c.responding { SameFrames(s.c, s.c.(closed := true)); }
  }

  lemma StepInv(sv: Service, s: System, ev: Event)
    requires Inv(sv, s)
    ensures Inv(sv, Step(sv, s, ev))
  {
    hide Rest, FlushTurn, StatusLine, OnRecord, Frames, Text, Unsupported, TooLarge, TooLong, UnknownCommand, Bad,
        Refusal;
    match ev {
      case Receive(got) =>
        if Reading(s.c) && got.Record? && got.record != [] { RecordInv(sv, s, got.record); } else { ClosedInv(sv, s); }
      case Answered(reply) =>
        if s.c.pending && !s.c.closed {
          var d := Respond(s.c.(pending := false), reply.body, reply.success, reply.rejected);
          AnsweredInv(sv, s, d);
        }
      case Send(result) => if s.c.responding && !s.c.closed { SendInv(sv, s, result); }
      case Expire => ClosedInv(sv, s);
    }
  }

  lemma AnsweredInv(sv: Service, s: System, d: Client)
    requires Inv(sv, s) && s.c.pending && !s.c.closed
    requires d == Respond(s.c.(pending := false), d.response, d.success, d.rejected)
    ensures Inv(sv, s.(c := d))
  {
    hide Rest, Frames, Text, Unsupported, TooLarge, TooLong, UnknownCommand;
    StartingRest(d);
  }

  // ---------------------------------------------------------------- whole transactions

  ghost function Run(sv: Service, events: seq<Event>): (s: System)
    ensures Inv(sv, s)
  {
    if events == [] then FreshInv(sv); System(FRESH, [])
    else
      var s := Run(sv, events[..|events| - 1]);
      StepInv(sv, s, events[|events| - 1]);
      Step(sv, s, events[|events| - 1])
  }

  lemma FreshInv(sv: Service)
    ensures Inv(sv, System(FRESH, []))
  {
  }

  /** At most one dispatch, with exactly the declared body, made of exactly the records
      received after the first one; none otherwise. */
  lemma DispatchedOnceWithDeclaredBody(sv: Service, events: seq<Event>)
    ensures var s := Run(sv, events);
            s.c.calls == []
            || (s.got != [] && sv.parse(s.got[0]).Operation?
                && var op := sv.parse(s.got[0]);
                   s.c.calls == [(op.command, Join(s.got[1..]))] && |Join(s.got[1..])| == op.expected)
  {
    hide Rest, Frames, Text, Unsupported, TooLarge, TooLong, UnknownCommand;
  }

  ghost predicate IsPrefix(a: seq<bytes>, b: seq<bytes>) { exists r :: a + r == b }

  /** What has been sent is at any time the beginning of the ticket, if any, and the
      answer's frames; and all of it if the transaction ended by sending. */
  lemma SentInOrder(sv: Service, events: seq<Event>)
    requires Run(sv, events).c.responding
    ensures var s := Run(sv, events);
            IsPrefix(s.c.out, Prelude(sv, s.c) + Frames(s.c))
                && (Rest(s.c) == [] ==> s.c.out == Prelude(sv, s.c) + Frames(s.c))
  {
    hide Frames, Rest, Text, Unsupported, TooLarge, TooLong, UnknownCommand;
    var s := Run(sv, events);
    assert s.c.out + Rest(s.c) == Prelude(sv, s.c) + Frames(s.c);
    if Rest(s.c) == [] { assert s.c.out + [] == s.c.out; }
  }

  // ---------------------------------------------------------------- one call

  /** The j-th event brings the answer to a request that was taken over. */
  ghost predicate Answers(sv: Service, events: seq<Event>, j: nat)
    requires j < |events|
  {
    events[j].Answered? && Run(sv, events[..j]).c.pending && !Run(sv, events[..j]).c.closed
  }

  ghost predicate Carries(c: Client, reply: Reply) {
    c.response == reply.body && c.success == reply.success && c.rejected == reply.rejected
  }

  lemma RunSnoc(sv: Service, events: seq<Event>, n: nat)
    requires n < |events|
    ensures Run(sv, events[..n + 1]) == Step(sv, Run(sv, events[..n]), events[n])
  {
    hide Inv, Step;
    assert events[..n + 1][..n] == events[..n];
  }

  /** Once there is an answer, no step changes it. */
  lemma AnswerStays(sv: Service, s: System, ev: Event)
    requires Inv(sv, s) && s.c.responding
    ensures var d := Step(sv, s, ev).c;
            && d.responding && d.calls == s.c.calls && d.remote == s.c.remote
            && d.response == s.c.response && d.success == s.c.success && d.rejected == s.c.rejected
  {
    hide Rest, Frames, FlushTurn, Refuses, Text, Unsupported, TooLarge, TooLong, UnknownCommand, Asked;
    if ev.Send? && !s.c.closed { FlushTurnIs(s.c, ev.result); }
  }

  /** An answer starts with the dispatch of a local request, with a refusal, or with the
      event that brings it. */
  lemma AnswerStarts(sv: Service, s: System, ev: Event)
    requires Inv(sv, s) && !s.c.responding
    ensures var d := Step(sv, s, ev).c;
            d.responding && d.calls != [] && d.remote ==>
              ev.Answered? && s.c.pending && !s.c.closed && Carries(d, ev.reply)
  {
    hide Rest, Frames, Text, Unsupported, TooLarge, TooLong, UnknownCommand, Asked, Refuses, OnRecord, FlushTurn;
    if ev.Receive? && ev.got.Record? && Reading(s.c) { RecordStarts(sv, s.c, ev.got.record); }
  }

  lemma RecordStarts(sv: Service, c: Client, record: bytes)
    requires c.calls == [] && !c.responding
    ensures var d := OnRecord(sv, c, record); d.responding && d.calls != [] ==> !d.remote
  {
    hide Text, Unsupported, TooLarge, TooLong, UnknownCommand, Check;
    if |record| <= CHUNK {
      if c.header {
        CheckStarts(sv, c.(body := c.body + record));
      } else if sv.parse(record).Operation? {
        var p := sv.parse(record);
        CheckStarts(sv,
                    c.(header := true, remote := p.remote, framed := p.remote || p.framed, command := p.command,
                       expected := p.expected));
      }
    }
  }

  lemma CheckStarts(sv: Service, c: Client)
    requires c.calls == [] && !c.responding
    ensures var d := Check(sv, c); d.responding && d.calls != [] ==> !d.remote
  {
    hide Text, Unsupported, TooLarge, TooLong, UnknownCommand;
  }

  /** The answer to a remote request is the one that an event brought. */
  lemma {:induction false} RemoteAnswer(sv: Service, events: seq<Event>) returns (j: nat)
    requires var c := Run(sv, events).c; c.responding && c.calls != [] && c.remote
    ensures j < |events| && Answers(sv, events, j) && Carries(Run(sv, events).c, events[j].reply)
  {
    hide Inv, Step;
    if events == [] {
      assert false;
    }
    var last := |events| - 1;
    var front := events[..last];
    if Run(sv, front).c.responding {
      AnswerStays(sv, Run(sv, front), events[last]);
      j := RemoteAnswer(sv, front);
      assert front[..j] == events[..j];
    } else {
      AnswerStarts(sv, Run(sv, front), events[last]);
      j := last;
    }
  }

  /** There is no second one: after the first there is an answer, and there stays one. */
  lemma {:induction false} StaysAnswered(sv: Service, events: seq<Event>, j: nat, n: nat)
    requires j < n <= |events| && Answers(sv, events, j)
    ensures Run(sv, events[..n]).c.responding && !Run(sv, events[..n]).c.pending
    decreases n
  {
    hide Inv, Step;
    RunSnoc(sv, events, n - 1);
    if n == j + 1 {
      AnsweredResponds(sv, Run(sv, events[..j]), events[j]);
    } else {
      StaysAnswered(sv, events, j, n - 1);
      AnswerStays(sv, Run(sv, events[..n - 1]), events[n - 1]);
    }
    RespondingIsNotPending(sv, Run(sv, events[..n]));
  }

  lemma AnsweredResponds(sv: Service, s: System, ev: Event)
    requires Inv(sv, s) && ev.Answered? && s.c.pending && !s.c.closed
    ensures Step(sv, s, ev).c.responding
  {
    hide Inv;
  }

  lemma RespondingIsNotPending(sv: Service, s: System)
    requires Inv(sv, s)
    ensures s.c.responding ==> !s.c.pending
  {
  }

  lemma OneAnswer(sv: Service, events: seq<Event>, i: nat, j: nat)
    requires i < |events| && j < |events| && Answers(sv, events, i) && Answers(sv, events, j)
    ensures i == j
  {
    hide Inv, Run;
    if i < j {
      StaysAnswered(sv, events, i, j);
    } else if j < i {
      StaysAnswered(sv, events, j, i);
    }
  }

  /** What the answer must be, given the records: a refusal, what the one call returned, or
      what the one answering event brought for a remote request. */
  ghost predicate AnswersRecords(sv: Service, events: seq<Event>) {
    var s := Run(sv, events);
    if Bad(sv, s.got) then s.c.calls == [] && Refuses(sv, s.c, s.got)
    else
      && s.got != [] && var op := sv.parse(s.got[0]);
         && s.c.calls == [(op.command, Join(s.got[1..]))] && s.c.framed == (op.remote || op.framed)
         && if op.remote then
              && sv.ticket.Some?
              && exists j :: 0 <= j < |events| && Answers(sv, events, j) && Carries(s.c, events[j].reply)
            else
              var reply := sv.execute(op.command, Join(s.got[1..]));
              Carries(s.c, Reply(reply.success, ReplyText(op.framed, reply), false))
  }

  /** Every answer, however reading and writing were split, is what its records ask for, and
      at most one event brings the answer to a remote request. */
  lemma AnswerIsDetermined(sv: Service, events: seq<Event>)
    requires Run(sv, events).c.responding
    ensures AnswersRecords(sv, events)
    ensures forall i, j ::
              0 <= i < |events| && 0 <= j < |events| && Answers(sv, events, i) && Answers(sv, events, j) ==> i == j
  {
    hide Rest, Frames, Text, Unsupported, TooLarge, TooLong, UnknownCommand, Answers, Refusal;
    var s := Run(sv, events);
    forall i, j | 0 <= i < |events| && 0 <= j < |events| && Answers(sv, events, i) && Answers(sv, events, j)
      ensures i == j
    {
      OneAnswer(sv, events, i, j);
    }
    if s.c.calls != [] {
      CalledIsGood(sv, events);
      if s.c.remote { var j := RemoteAnswer(sv, events); }
    }
  }

  lemma CalledIsGood(sv: Service, events: seq<Event>)
    requires Run(sv, events).c.calls != []
    ensures !Bad(sv, Run(sv, events).got)
  {
    hide Rest, Frames, Text, Unsupported, TooLarge, TooLong, UnknownCommand, Refuses;
  }

  /** A complete, well-formed request is dispatched as it stands, unless it is for a remote
      component and none is served, or the client goes away before it is complete. A local
      one is answered at once; a remote one is pending, its ticket sent, until an event
      brings the answer. */
  lemma CompleteRequestIsOneCall(sv: Service, events: seq<Event>, header: bytes, payload: bytes)
    requires |header| <= CHUNK && sv.parse(header).Operation? && sv.parse(header).expected == |payload|
    requires var s := Run(sv, events);
             s.got == [header] + Chunks(payload) && (!s.c.closed || s.c.responding || s.c.pending)
    ensures var c := Run(sv, events).c;
            var op := sv.parse(header);
            && (c.responding ==> AnswersRecords(sv, events))
            && if op.remote && sv.ticket.None? then c.responding && c.calls == []
               else
                 && c.calls == [(op.command, payload)] && c.framed == (op.remote || op.framed)
                 && (c.responding || (op.remote && c.pending && c.out == [sv.ticket.value]))
  {
    hide Rest, Frames, Text, Unsupported, TooLarge, TooLong, UnknownCommand, Refuses, Answers, AnswersRecords;
    var s := Run(sv, events);
    assert s.got[0] == header && s.got[1..] == Chunks(payload);
    JoinChunks(payload);
    assert |s.got[|s.got| - 1]| <= CHUNK;
    if s.c.responding {
      AnswerIsDetermined(sv, events);
      if s.c.calls == [] { RefusedIsBad(sv, s); } else { CalledIsGood(sv, events); }
    }
  }

  lemma RefusedIsBad(sv: Service, s: System)
    requires Inv(sv, s) && s.c.responding && s.c.calls == []
    ensures Bad(sv, s.got)
  {
    hide Rest, Frames, Text, Unsupported, TooLarge, TooLong, UnknownCommand;
  }
}
