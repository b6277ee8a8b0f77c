/** The client side of a control transaction (fabric/control.py): sending in chunks, and
    putting the answer together again. */
module ControlClient {
  import opened Bytes
  import opened ControlProtocol
  import S = ControlSocket
  import R = ControlRoute

  // ---------------------------------------------------------------- sending

  /** The command, then the body piece by piece. */
  method SendRequest(command: bytes, payload: bytes) returns (records: seq<bytes>)
    ensures records == [command] + Chunks(payload)
  {
    hide Chunks;
    records := [command];
    var offset := 0;
    assert payload[0..] == payload;
    while offset < |payload|
      invariant offset <= |payload|
      invariant records + Chunks(payload[offset..]) == [command] + Chunks(payload)
    {
      var end := if offset + CHUNK < |payload| then offset + CHUNK else |payload|;
      var rest := payload[offset..];
      S.ChunksNext(rest);
      assert rest[..end - offset] == payload[offset..end] && rest[end - offset..] == payload[end..];
      records := records + [payload[offset..end]];
      offset := end;
    }
    S.ChunksEmpty(payload[offset..]);
  }

  // ---------------------------------------------------------------- the status line

  datatype Status = Ok | Error | Rejected

  function Word(s: Status): bytes {
    match s
    case Ok => Text("OK ")
    case Error => Text("ERROR ")
    case Rejected => Text("REJECTED ")
  }

  /** One to nine digits, optionally with a newline after them. */
  function Length(s: bytes): Option<nat> {
    var digits := if s != [] && s[|s| - 1] == 0x0a then s[..|s| - 1] else s;
    if 1 <= |digits| <= 9 && AllDigits(digits) then Some(Value(digits)) else None
  }

  function ParseStatus(h: bytes): Option<(Status, nat)> {
    var s := if Word(Ok) <= h then Some(Ok) else if Word(Error) <= h then Some(Error)
             else if Word(Rejected) <= h then Some(Rejected) else None;
    if s.None? then None
    else
      var n := Length(h[|Word(s.value)|..]);
      if n.None? then None else Some((s.value, n.value))
  }

  function StatusOf(success: bool, rejected: bool): Status {
    if success then Ok else if rejected then Rejected else Error
  }

  lemma LengthOfDecimal(n: nat)
    requires n < 1_000_000_000
    ensures Length(Decimal(n) + Text("\n")) == Some(n)
  {
    hide Decimal;
    var s := Decimal(n) + Text("\n");
    assert s[..|s| - 1] == Decimal(n);
    DecimalLength(n, 9);
    assert Pow10(9) == 1_000_000_000 by { assert Pow10(5) == 100_000; }
    DecimalValue(n);
  }

  /** What the server writes is what the client reads. */
  lemma StatusRoundTrip(success: bool, rejected: bool, n: nat)
    requires n < 1_000_000_000
    ensures ParseStatus(S.StatusLine(success, rejected, n)) == Some((StatusOf(success, rejected), n))
  {
    hide Decimal, Length;
    var s := StatusOf(success, rejected);
    var rest := Decimal(n) + Text("\n");
    var h := S.StatusLine(success, rejected, n);
    assert h == Word(s) + rest;
    assert Word(s) <= h && h[|Word(s)|..] == rest;
    assert h[0] == Word(s)[0];
    assert Word(Ok)[0] == 0x4f && Word(Error)[0] == 0x45 && Word(Rejected)[0] == 0x52;
    LengthOfDecimal(n);
  }

  // ---------------------------------------------------------------- receiving

  datatype Received = Complete(status: Status, body: bytes) | Malformed | TooLarge | NotAccepted

  /** The body from the records after the header; a record longer than what is asked for
      is cut off by the socket and refused. */
  function Collected(records: seq<bytes>, length: nat, body: bytes): Option<bytes>
    requires |body| <= length
    decreases |records|
  {
    if |body| == length then Some(body)
    else if records == [] then None
    else
      var most := if length - |body| < CHUNK then length - |body| else CHUNK;
      if records[0] == [] || |records[0]| > most then None else Collected(records[1..], length, body + records[0])
  }

  function Reassembled(records: seq<bytes>, maximum: nat, budget: Option<nat>): Received {
    if records == [] then Malformed
    else match ParseStatus(records[0])
      case None => Malformed
      case Some((status, length)) =>
        if length > maximum then Malformed
        else if budget.Some? && length > budget.value then TooLarge
        else match Collected(records[1..], length, [])
          case None => Malformed
          case Some(body) => Complete(status, body)
  }

  /** A framed answer. */
  method ReceiveResponse(records: seq<bytes>, maximum: nat, budget: Option<nat>) returns (r: Received)
    ensures r == Reassembled(records, maximum, budget)
  {
    hide ParseStatus;
    if records == [] { return Malformed; }
    var status := ParseStatus(records[0]);
    if status.None? || status.value.1 > maximum { return Malformed; }
    var length := status.value.1;
    if budget.Some? && length > budget.value { return TooLarge; }
    var body: bytes := [];
    var at := 1;
    while |body| < length
      invariant 1 <= at <= |records| && |body| <= length
      invariant Collected(records[1..], length, []) == Collected(records[at..], length, body)
      decreases length - |body|, |records| - at
    {
      if at == |records| { return Malformed; }
      assert records[at..][0] == records[at] && records[at..][1..] == records[at + 1..];
      var most := if length - |body| < CHUNK then length - |body| else CHUNK;
      if records[at] == [] || |records[at]| > most { return Malformed; }
      body := body + records[at];
      at := at + 1;
    }
    return Complete(status.value.0, body);
  }

  lemma {:induction false} CollectedChunks(s: bytes, length: nat, body: bytes)
    requires length == |body| + |s|
    ensures Collected(Chunks(s), length, body) == Some(body + s)
    decreases |s|
  {
    hide Chunks;
    S.ChunksEmpty(s);
    if s != [] {
      var n := if |s| > CHUNK then CHUNK else |s|;
      S.ChunksNext(s);
      assert Chunks(s)[1..] == Chunks(s[n..]);
      CollectedChunks(s[n..], length, body + s[..n]);
      Regroup(body, s, n);
    } else {
      assert body + s == body;
    }
  }

  lemma Regroup(body: bytes, s: bytes, n: nat)
    requires n <= |s|
    ensures body + s[..n] + s[n..] == body + s
  {
  }

  /** The client puts together what the server takes apart. */
  lemma FramesReassemble(c: S.Client, maximum: nat)
    requires c.framed && |c.response| <= maximum < 1_000_000_000
    ensures Reassembled(S.Frames(c), maximum, None) == Complete(StatusOf(c.success, c.rejected), c.response)
  {
    hide ParseStatus, Collected, S.StatusLine, Chunks;
    var frames := S.Frames(c);
    assert frames[1..] == Chunks(c.response);
    StatusRoundTrip(c.success, c.rejected, |c.response|);
    CollectedChunks(c.response, |c.response|, []);
    assert [] + c.response == c.response;
  }

  /** Anything the client accepts is as long as announced and made of the records that
      followed, in order. */
  lemma {:induction false} CollectedIsExact(records: seq<bytes>, length: nat, body: bytes)
    requires |body| <= length && Collected(records, length, body).Some?
    ensures exists k :: 0 <= k <= |records| && Collected(records, length, body).value == body + Join(records[..k])
    ensures |Collected(records, length, body).value| == length
    decreases |records|
  {
    if |body| == length {
      assert body + Join(records[..0]) == body;
    } else {
      CollectedIsExact(records[1..], length, body + records[0]);
      var rest := Collected(records[1..], length, body + records[0]).value;
      var k :| 0 <= k <= |records[1..]| && rest == body + records[0] + Join(records[1..][..k]);
      assert records[..k + 1][0] == records[0] && records[..k + 1][1..] == records[1..][..k];
      assert body + Join(records[..k + 1]) == body + records[0] + Join(records[1..][..k]);
    }
  }

  // ---------------------------------------------------------------- tickets and plain answers

  predicate LowerHex(c: byte) { 0x30 <= c <= 0x39 || 0x61 <= c <= 0x66 }

  predicate TicketId(id: bytes) { |id| == 32 && forall i :: 0 <= i < |id| ==> LowerHex(id[i]) }

  /** The line by which the daemon takes over a routed request. */
  function TicketLine(id: bytes): bytes { Text("REQUEST ") + id + Text("\n") }

  function Accepted(record: bytes): Option<bytes> {
    var rest := if Text("REQUEST ") <= record then record[|Text("REQUEST ")|..] else [];
    var id := if rest != [] && rest[|rest| - 1] == 0x0a then rest[..|rest| - 1] else rest;
    if TicketId(id) then Some(id) else None
  }

  lemma TicketRoundTrip(id: bytes)
    requires TicketId(id)
    ensures Accepted(TicketLine(id)) == Some(id)
  {
    var prefix, line := Text("REQUEST "), TicketLine(id);
    assert line[|prefix|..] == id + Text("\n");
    assert (id + Text("\n"))[..|id|] == id;
    assert prefix <= line;
  }

  const PLAIN_LIMIT := 65536

  /** An answer without a status line is one record. */
  function Plain(records: seq<bytes>): Received {
    if records == [] || records[0] == [] || |records[0]| > PLAIN_LIMIT then Malformed
    else Complete(if Text("error=") <= records[0] then Error else Ok, records[0])
  }

  /** What the client makes of all records: of a routed request the ticket first; of `show
      stats` to the daemon itself a plain answer. */
  function Understood(routed: bool, plain: bool, records: seq<bytes>, maximum: nat, budget: Option<nat>): Received {
    if routed then
      if records == [] || Accepted(records[0]).None? then NotAccepted else Reassembled(records[1..], maximum, budget)
    else if plain then Plain(records)
    else Reassembled(records, maximum, budget)
  }

  /** The receiving half of `query`. */
  method Understand(routed: bool, plain: bool, records: seq<bytes>, maximum: nat, budget: Option<nat>)
    returns (r: Received)
    ensures r == Understood(routed, plain, records, maximum, budget)
  {
    hide Accepted, Reassembled;
    if routed {
      if records == [] || Accepted(records[0]).None? { return NotAccepted; }
      r := ReceiveResponse(records[1..], maximum, budget);
    } else if plain {
      r := Plain(records);
    } else {
      r := ReceiveResponse(records, maximum, budget);
    }
  }

  // ---------------------------------------------------------------- whole transactions

  /** The answer of the one call, or of the one event that answers a routed request. */
  ghost predicate IsReply(sv: S.Service, events: seq<S.Event>, header: bytes, payload: bytes, reply: S.Reply)
    requires sv.parse(header).Operation?
  {
    if sv.parse(header).remote then
      exists j :: 0 <= j < |events| && S.Answers(sv, events, j) && events[j].reply == reply
    else
      var called := sv.execute(sv.parse(header).command, payload);
      reply == S.Reply(called.success, called.body, false)
  }

  /** The records of a complete request, all of its answer sent. */
  ghost predicate Exchanged(sv: S.Service, events: seq<S.Event>, header: bytes, payload: bytes)
    requires sv.parse(header).Operation?
  {
    && |header| <= CHUNK && sv.parse(header).expected == |payload|
    && S.Run(sv, events).got == [header] + Chunks(payload)
    && S.Run(sv, events).c.responding && S.Rest(S.Run(sv, events).c) == []
  }

  /** The whole exchange as one call: for every service, body and answer within the limits,
      and every way in which reading, writing and the wait for a remote component were
      split, the request is dispatched once, with exactly its body, and the client is left
      with exactly the reply: of a local request what the one call returned, of a routed one
      what the one answering event brought, after the ticket. */
  lemma TransactionIsOneCall(sv: S.Service, events: seq<S.Event>, header: bytes, payload: bytes, reply: S.Reply,
                             maximum: nat)
    requires sv.parse(header).Operation? && Exchanged(sv, events, header, payload)
    requires sv.parse(header).remote ==> sv.ticket.Some? && Accepted(sv.ticket.value).Some?
    requires IsReply(sv, events, header, payload, reply) && |reply.body| <= maximum < 1_000_000_000
    ensures var op := sv.parse(header);
            var c := S.Run(sv, events).c;
            && c.calls == [(op.command, payload)]
            && (op.remote || op.framed ==>
                  Understood(op.remote, false, c.out, maximum, None)
                      == Complete(StatusOf(reply.success, reply.rejected), reply.body))
            && (!op.remote && !op.framed ==>
                  Understood(false, true, c.out, maximum, None)
                      == Plain(if S.ReplyText(false, reply) == [] then [] else [S.ReplyText(false, reply)]))
  {
    hide S.Rest, S.Frames, Understood, S.Inv, Text, S.Run, S.Carries, IsReply, Accepted, Plain, S.AnswersRecords;
    var op := sv.parse(header);
    var c := S.Run(sv, events).c;
    S.CompleteRequestIsOneCall(sv, events, header, payload);
    S.SentInOrder(sv, events);
    ReplyIsCarried(sv, events, header, payload, reply);
    PreludeIs(sv, events, header);
    if op.remote {
      RoutedAnswer(c, sv.ticket.value, reply, maximum);
    } else {
      assert [] + S.Frames(c) == S.Frames(c);
      LocalAnswer(c, reply, maximum);
    }
  }

  lemma RoutedAnswer(c: S.Client, ticket: bytes, reply: S.Reply, maximum: nat)
    requires c.framed && S.Carries(c, reply) && |reply.body| <= maximum < 1_000_000_000
    requires c.out == [ticket] + S.Frames(c) && Accepted(ticket).Some?
    ensures Understood(true, false, c.out, maximum, None)
            == Complete(StatusOf(reply.success, reply.rejected), reply.body)
  {
    hide Reassembled, Accepted, S.Frames;
    assert c.out[1..] == S.Frames(c);
    FramesReassemble(c, maximum);
  }

  lemma LocalAnswer(c: S.Client, reply: S.Reply, maximum: nat)
    requires if c.framed then S.Carries(c, reply) else c.response == S.ReplyText(false, reply)
    requires c.out == S.Frames(c) && |reply.body| <= maximum < 1_000_000_000
    ensures c.framed ==>
              Understood(false, false, c.out, maximum, None)
                  == Complete(StatusOf(reply.success, reply.rejected), reply.body)
    ensures !c.framed ==>
              Understood(false, true, c.out, maximum, None)
                  == Plain(if S.ReplyText(false, reply) == [] then [] else [S.ReplyText(false, reply)])
  {
    hide Reassembled, S.Frames, Plain, S.ReplyText;
    FramesAre(c);
    if c.framed { FramesReassemble(c, maximum); }
  }

  /** A plain answer within the limit is read as it stands; it passes for a success exactly
      if it is one and does not look like an error. */
  lemma PlainAnswer(reply: S.Reply)
    requires S.ReplyText(false, reply) != [] && |S.ReplyText(false, reply)| <= PLAIN_LIMIT
    ensures var r := Plain([S.ReplyText(false, reply)]);
            && r.Complete? && r.body == S.ReplyText(false, reply)
            && (r.status == Ok <==> reply.success && !(Text("error=") <= reply.body))
  {
  }

  lemma ReplyIsCarried(sv: S.Service, events: seq<S.Event>, header: bytes, payload: bytes, reply: S.Reply)
    requires sv.parse(header).Operation? && Exchanged(sv, events, header, payload)
    requires sv.parse(header).remote ==> sv.ticket.Some?
    requires IsReply(sv, events, header, payload, reply)
    ensures var c := S.Run(sv, events).c;
            if sv.parse(header).remote || sv.parse(header).framed then S.Carries(c, reply)
            else c.response == S.ReplyText(false, reply)
  {
    hide S.Rest, S.Frames, S.Inv, Text, S.Run, S.Answers, S.Refuses;
    var s := S.Run(sv, events);
    assert s.got[0] == header && s.got[1..] == Chunks(payload);
    JoinChunks(payload);
    S.AnswerIsDetermined(sv, events);
    S.CompleteRequestIsOneCall(sv, events, header, payload);
  }

  lemma PreludeIs(sv: S.Service, events: seq<S.Event>, header: bytes)
    requires var s := S.Run(sv, events); s.got != [] && s.got[0] == header && s.c.calls != []
    requires sv.parse(header).Operation? && (sv.parse(header).remote ==> sv.ticket.Some?)
    ensures S.Prelude(sv, S.Run(sv, events).c) == if sv.parse(header).remote then [sv.ticket.value] else []
  {
    hide S.Rest, Text, S.Refuses;
  }

  lemma FramesAre(c: S.Client)
    ensures !c.framed ==> S.Frames(c) == if c.response == [] then [] else [c.response]
  {
    hide S.StatusLine, Chunks;
  }

  // ---------------------------------------------------------------- structured routes

  /** A hop as callers give it; anything else they may hand over is `Other`. */
  datatype RouteHop = ToPeer | ToPort(name: bytes) | Other

  function AsHop(h: RouteHop): R.Hop {
    match h
    case ToPeer => R.Peer()
    case ToPort(name) => R.Port(name)
    case Other => R.Hop(R.PeerHop, [0])
  }

  function AsPath(route: seq<RouteHop>): R.Path {
    seq(|route|, i requires 0 <= i < |route| => AsHop(route[i]))
  }

  /** `encode_route` yields, for peer and port hops, the very text that the C++ side
      formats and parses, and refuses exactly what it refuses. */
  method EncodeRoute(route: seq<RouteHop>) returns (r: Option<string>)
    ensures r == if R.PathOk(AsPath(route)) then Some(R.PathText(AsPath(route))) else None
  {
    hide R.PathBytes, R.HexText;
    var path := AsPath(route);
    if |route| > R.MAX_HOPS { return None; }
    var out: bytes := [];
    assert path[..0] == [];
    NoBytes();
    for i := 0 to |route|
      invariant R.AllValid(path[..i]) && out == R.PathBytes(path[..i])
    {
      assert path[..i + 1] == path[..i] + [path[i]];
      match route[i] {
        case ToPeer =>
          R.PathBytesAppend(path[..i], path[i]);
          assert R.HopBytes(path[i]) == [1, 0];
          out := out + [1, 0];
        case ToPort(name) =>
          if !(1 <= |name| <= 63 && R.Printable(name)) {
            assert !R.Valid(path[i]);
            return None;
          }
          R.PathBytesAppend(path[..i], path[i]);
          assert R.HopBytes(path[i]) == [2, |name|] + name;
          out := out + ([2, |name|] + name);
        case Other =>
          assert !R.Valid(path[i]);
          return None;
      }
    }
    assert path[..|route|] == path;
    if |out| > R.MAX_STACK_BYTES { return None; }
    var text := R.Hex(out);
    return Some(if out == [] then "-" else text);
  }

  lemma NoBytes()
    ensures R.PathBytes([]) == []
  {
  }
}
