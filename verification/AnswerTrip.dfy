/** The way home of an answer (src/control_router.hpp, src/control_route.hpp), hop by hop and
    as a whole: it goes on over exactly the connection that its next token was drawn for,
    or is dropped because that connection is gone, too narrow or down; and if none is, it
    arrives at the origin with its contents intact. */
module AnswerTrip {
  import opened Bytes
  import opened ControlRoute
  import opened ControlRouter
  import opened RouterFacts
  import opened DiscoveryRuns
  import opened RouterNetwork
  import opened EdgeTable
  import opened ReturnPath
  import opened SentFrames
  import F = FloodCoverage

  // ---------------------------------------------------------------- pushing and popping a link

  lemma {:induction false} PathBytesBound(p: Path)
    requires AllValid(p)
    ensures |PathBytes(p)| <= 65 * |p|
  {
    if p != [] {
      HopBound(p[0]);
      PathBytesBound(p[1..]);
    }
  }

  lemma HopBound(hop: Hop)
    requires Valid(hop)
    ensures |HopBytes(hop)| <= 65 && (hop.kind.LinkHop? ==> |HopBytes(hop)| == 18)
  {
  }

  lemma PushedPath(p: Path, token: Id)
    requires PathOk(p) && |p| + 1 < MAX_HOPS && token != ZERO_ID
    ensures PathOk([Link(token)] + p) && |PathBytes([Link(token)] + p)| == |PathBytes(p)| + 18
  {
    var q := [Link(token)] + p;
    assert q[1..] == p;
    HopBound(Link(token));
    PathBytesBound(p);
  }

  lemma PoppedPath(p: Path)
    requires PathOk(p) && p != [] && p[0].kind.LinkHop?
    ensures PathOk(p[1..]) && |PathBytes(p)| == |PathBytes(p[1..])| + 18
  {
    HopBound(p[0]);
  }

  function Passed(f: Frame, token: Id): Frame
    requires f.destination != [] && f.remaining > 0
  {
    Popped(f.(replyPath := [Link(token)] + f.replyPath))
  }

  /** Passing an answer on leaves its encoded size unchanged. */
  lemma PassingKeepsSize(f: Frame, token: Id)
    requires Encodable(f) && f.destination != [] && f.destination[0].kind.LinkHop? && f.remaining > 1
    requires |f.replyPath| + 1 < MAX_HOPS && token != ZERO_ID
    ensures Encodable(Passed(f, token)) && EncodedSize(Passed(f, token)) == EncodedSize(f)
  {
    hide PathBytes, PathOk;
    PushedPath(f.replyPath, token);
    PoppedPath(f.destination);
    assert AllValid(f.destination) && AllValid(f.replyPath) by { OkIsValid(f.destination); OkIsValid(f.replyPath); }
    assert AllValid(Passed(f, token).destination) && AllValid(Passed(f, token).replyPath) by {
      OkIsValid(Passed(f, token).destination);
      OkIsValid(Passed(f, token).replyPath);
    }
  }

  lemma OkIsValid(p: Path)
    requires PathOk(p)
    ensures AllValid(p)
  {
  }

  // ---------------------------------------------------------------- one hop

  /** The edge that currently holds a token. */
  ghost predicate HasToken(edges: seq<Edge>, token: bytes, e: Edge) {
    e in edges && e.token == token
  }

  /** An edge takes a frame of this size at the moment. */
  predicate Takes(e: Edge, size: nat, up: set<bytes>) {
    size <= e.limit && e.name in up
  }

  /** Routing an answer by a link hop: exactly the edge with that token, or nothing. */
  lemma LinkRoute(r: Router, g: Frame, up: set<bytes>)
    requires Quiet(g.kind) && r.allowed && g.destination != [] && g.destination[0].kind.LinkHop? && g.remaining > 1
             && Encodable(Popped(g))
    requires var token := g.destination[0].value;
             forall x, y :: HasToken(r.edges, token, x) && HasToken(r.edges, token, y) ==> x == y
    ensures var outs := Route(r, g, Relay, up).outs;
            && (forall e :: HasToken(r.edges, g.destination[0].value, e) ==>
                  outs == if Takes(e, EncodedSize(Popped(g)), up) then [Sent(e.name, Popped(g), Relay)] else [])
            && ((forall e :: !HasToken(r.edges, g.destination[0].value, e)) ==> outs == [])
  {
    hide Encodable, Text, Reject, EncodedSize;
    RejectQuiet(r, g, Text("target_not_found"), up);
    RejectQuiet(r, Popped(g), Text("path_mtu_exceeded"), up);
    var hop := g.destination[0];
    var found := Resolve(r.edges, hop);
    assert found.Some? ==> HasToken(r.edges, hop.value, found.value);
    forall e | HasToken(r.edges, hop.value, e) ensures found == Some(e) {
      assert Matches(e, hop);
    }
  }

  lemma TokensAreUnique(issued: map<bytes, Conn>, node: Node, edges: seq<Edge>, token: bytes)
    requires Ledger(issued, node, edges) && token in issued && ZERO_ID !in issued
    ensures forall x, y :: HasToken(edges, token, x) && HasToken(edges, token, y) ==> x == y
    ensures forall x :: HasToken(edges, token, x) ==> Conn(node, x.name, x.generation) == issued[token]
  {
    hide Ordered;
    OrderedIsDistinct(edges);
    forall x, y | HasToken(edges, token, x) && HasToken(edges, token, y) ensures x == y {
      OnlyAt(edges, x);
      OnlyAt(edges, y);
    }
  }

  /** The frame as it is after arrival on the connection with this token. */
  lemma HandledAnswer(r: Router, name: bytes, f: Frame, env: Env)
    requires Admitted(r, name, f) && Quiet(f.kind)
    ensures var h := Handled(r, name, f, env);
            && Receive(r, name, f, env) == Route(h.0, h.1, Relay, env.up)
            && h.0.allowed && h.0.edges == WithToken(r, IndexOf(r.edges, name), env.token).edges
            && h.1 == f.(replyPath := [Link(h.0.edges[IndexOf(r.edges, name)].token)] + f.replyPath)
  {
    hide Route, DiscoverRemote;
  }

  lemma OkFrame(f: Frame)
    requires Encodable(f)
    ensures AllValid(f.destination) && AllValid(f.replyPath)
  {
  }

  /** What becomes of an answer `f` that arrives on connection `c`, the i-th edge there. */
  ghost predicate HopOutcome(w: World, origin: Node, c: Conn, i: nat, f: Frame, after: seq<Edge>, outs: seq<Out>,
                             up: set<bytes>) {
    && i < |after| && after[i].token != ZERO_ID && AllValid(f.destination) && AllValid(f.replyPath)
    && if f.destination == [] then
         c.node == origin && outs == [Delivered(f.(replyPath := [Link(after[i].token)] + f.replyPath), Relay)]
       else
         var next := f.destination[0].value;
         && f.remaining > 1 && next in w.issued
         && (forall x :: HasToken(after, next, x) ==>
               && Conn(c.node, x.name, x.generation) == w.issued[next]
               && outs == if Takes(x, EncodedSize(f), up) then [Sent(x.name, Passed(f, after[i].token), Relay)] else [])
         && ((forall x :: !HasToken(after, next, x)) ==> outs == [])
  }

  /** One hop of an answer, for every reachable state: it is handed over where its path
      ends; otherwise it goes on, over the one connection its next token was drawn for,
      exactly when that connection still holds the token, is wide enough and up. */
  lemma AnswerHop(w: World, k: FloodKey, origin: Node, p: Parcel, env: Env)
    requires Tracked(w, k, origin) && p in w.flight && KeyOf(p.frame) == k && Quiet(p.frame.kind) && Encodable(p.frame)
    requires p.at in w.wires && Attached(w, w.wires[p.at]) && env.token != ZERO_ID && env.token !in w.issued
    requires w.routers[w.wires[p.at].node].allowed
    ensures var c := w.wires[p.at];
            var r := w.routers[c.node];
            var e := Receive(r, c.name, p.frame, env);
            HopOutcome(w, origin, c, IndexOf(r.edges, c.name), p.frame, e.router.edges, e.outs, env.up)
  {
    hide Receive, Route, Handled, Ordered, Held, Encodable, WithToken, EncodedSize, Noted, Extends, ConnAt, Grown,
        RoutedOut;
    var c := w.wires[p.at];
    var r := w.routers[c.node];
    var i := IndexOf(r.edges, c.name);
    OkFrame(p.frame);
    assert OnTheWay(w.issued, w.wires, origin, p);
    HandledAnswer(r, c.name, p.frame, env);
    HandledLedger(w, c, p.frame, env);
    var h := Handled(r, c.name, p.frame, env);
    ArrivalTable(r, i, env.token);
    RouteFacts(h.0, h.1, Relay, env.up);
    var t := h.0.edges[i].token;
    if p.frame.destination == [] {
      EmptyRoute(h.0, h.1, env.up);
    } else {
      NotedExtends(w, c, p.frame, env);
      var later := Noted(w, c, p.frame, env);
      Later(w.issued, later, p.frame.destination[0].value);
      TokensAreUnique(later, c.node, h.0.edges, p.frame.destination[0].value);
      PassingKeepsSize(p.frame, t);
      assert Popped(h.1) == Passed(p.frame, t);
      LinkRoute(h.0, h.1, env.up);
    }
  }

  lemma Later(issued: map<bytes, Conn>, later: map<bytes, Conn>, t: bytes)
    requires Extends(issued, later) && t in issued
    ensures t in later && later[t] == issued[t]
  {
  }

  lemma EmptyRoute(r: Router, g: Frame, up: set<bytes>)
    requires r.allowed && g.destination == []
    ensures Route(r, g, Relay, up).outs == [Delivered(g, Relay)]
  {
  }

  lemma ArrivalTable(r: Router, i: nat, token: Id)
    requires i < |r.edges| && token != ZERO_ID
    ensures var after := WithToken(r, i, token).edges;
            |after| == |r.edges| && after[i].token != ZERO_ID && Grown(r.edges, after)
  {
    hide Grown;
    GrowOne(r.edges, i, token);
  }

  lemma GrowOne(edges: seq<Edge>, i: nat, token: Id)
    requires i < |edges|
    ensures Grown(edges, edges) && (edges[i].token == ZERO_ID ==> Grown(edges, edges[i := edges[i].(token := token)]))
  {
  }

  // ---------------------------------------------------------------- the whole trip

  /** The same connections; tokens may have been added. */
  predicate Grown(a: seq<Edge>, b: seq<Edge>) {
    && |a| == |b|
    && forall i :: 0 <= i < |a| ==>
         && a[i].name == b[i].name && a[i].generation == b[i].generation && a[i].limit == b[i].limit
         && (a[i].token == b[i].token || a[i].token == ZERO_ID)
  }

  /** Every connection along `path` still holds its token and takes frames of this size. */
  ghost predicate Open(w: World, node: Node, path: Path, size: nat, up: set<bytes>)
    decreases |path|
  {
    && node in w.routers && w.routers[node].allowed
    && (path != [] ==>
          && path[0].value in w.issued && w.issued[path[0].value] in w.wires
          && (exists e :: HasToken(w.routers[node].edges, path[0].value, e) && Takes(e, size, up))
          && Attached(w, w.wires[w.issued[path[0].value]])
          && Open(w, w.wires[w.issued[path[0].value]].node, path[1..], size, up))
  }

  /** An event that does not hurt any trip. */
  ghost predicate Harmless(w: World, after: World) {
    && w.wires == after.wires && Extends(w.issued, after.issued) && w.routers.Keys == after.routers.Keys
    && forall n :: n in w.routers ==>
         w.routers[n].allowed == after.routers[n].allowed && Grown(w.routers[n].edges, after.routers[n].edges)
  }

  lemma {:induction false} GrownIndex(a: seq<Edge>, b: seq<Edge>, name: bytes)
    requires Grown(a, b)
    ensures IndexOf(a, name) == IndexOf(b, name)
  {
    if a != [] && a[0].name != name {
      assert b[0].name == a[0].name;
      assert Grown(a[1..], b[1..]) by {
        forall i | 0 <= i < |a[1..]|
          ensures && a[1..][i].name == b[1..][i].name && a[1..][i].generation == b[1..][i].generation
                  && a[1..][i].limit == b[1..][i].limit
                  && (a[1..][i].token == b[1..][i].token || a[1..][i].token == ZERO_ID)
        {
          assert a[1..][i] == a[i + 1] && b[1..][i] == b[i + 1];
        }
      }
      GrownIndex(a[1..], b[1..], name);
    }
  }

  lemma StillAttached(w: World, after: World, c: Conn)
    requires Harmless(w, after) && Attached(w, c)
    ensures Attached(after, c)
  {
    GrownIndex(w.routers[c.node].edges, after.routers[c.node].edges, c.name);
  }

  lemma {:induction false} StillOpen(w: World, after: World, node: Node, path: Path, size: nat, up: set<bytes>)
    requires Harmless(w, after) && Open(w, node, path, size, up) && ZERO_ID !in w.issued
    ensures Open(after, node, path, size, up)
    decreases |path|
  {
    hide Attached;
    if path != [] {
      var t := path[0].value;
      Later(w.issued, after.issued, t);
      StillAttached(w, after, w.wires[w.issued[t]]);
      var e :| HasToken(w.routers[node].edges, t, e) && Takes(e, size, up);
      var i :| 0 <= i < |w.routers[node].edges| && w.routers[node].edges[i] == e;
      var kept := after.routers[node].edges[i];
      assert HasToken(after.routers[node].edges, t, kept) && Takes(kept, size, up);
      StillOpen(w, after, w.wires[w.issued[t]].node, path[1..], size, up);
    }
  }

  /** Follow the parcel at the end of the flight, hop by hop. */
  ghost function Travel(w: World, envs: seq<Env>): World
    decreases |envs|
  {
    if envs == [] || w.flight == [] || !Legal(w, Follow(w, envs[0])) then w
    else Travel(Next(w, Follow(w, envs[0])), envs[1..])
  }

  function Follow(w: World, env: Env): Event
    requires w.flight != []
  {
    Event.Deliver(|w.flight| - 1, false, env)
  }

  /** The same answer, whatever is left of its path. */
  predicate SameAnswer(f: Frame, g: Frame) {
    g == f.(destination := g.destination, replyPath := g.replyPath, remaining := g.remaining)
  }

  /** The draws of a trip are new, and its connections up. */
  ghost predicate GoodDraws(w: World, envs: seq<Env>, up: set<bytes>) {
    && (forall i :: 0 <= i < |envs| ==> envs[i].token != ZERO_ID && envs[i].token !in w.issued && up <= envs[i].up)
    && (forall i, j :: 0 <= i < j < |envs| ==> envs[i].token != envs[j].token)
  }

  lemma HopIsHarmless(w: World, env: Env)
    requires w.flight != [] && Legal(w, Follow(w, env)) && ZERO_ID !in w.issued
    requires forall n :: n in w.routers ==> Ledger(w.issued, n, w.routers[n].edges)
    requires forall n, s :: n in w.routers && s in w.routers[n].parkedIn ==>
               w.routers[n].parkedIn[s].request.kind.Discover?
    ensures Harmless(w, Next(w, Follow(w, env)))
    ensures forall t :: t in Next(w, Follow(w, env)).issued ==> t in w.issued || t == env.token
  {
    hide Receive, Ledger, Handled, Ordered, WithToken, F.SameShape;
    var p := w.flight[|w.flight| - 1];
    var c := w.wires[p.at];
    var r := w.routers[c.node];
    NotedExtends(w, c, p.frame, env);
    ArrivalEdges(r, c.name, p.frame, env);
    assert r.allowed == Receive(r, c.name, p.frame, env).router.allowed by { AllowedStays(r, c.name, p.frame, env); }
    if Admitted(r, c.name, p.frame) { HandledGrown(r, c.name, p.frame, env); }
  }

  lemma AllowedStays(r: Router, name: bytes, f: Frame, env: Env)
    ensures Receive(r, name, f, env).router.allowed == r.allowed
  {
    hide Receive;
    F.ArrivalConcerns(r, name, f, env);
  }

  lemma HandledGrown(r: Router, name: bytes, f: Frame, env: Env)
    requires Admitted(r, name, f)
    ensures Grown(r.edges, Handled(r, name, f, env).0.edges)
  {
    hide Grown;
    GrowOne(r.edges, IndexOf(r.edges, name), env.token);
  }

  /** One leg: the answer goes on as the last parcel of the flight, everything that the
      rest of the trip needs still in place. */
  lemma Leg(w: World, k: FloodKey, origin: Node, p: Parcel, env: Env, up: set<bytes>)
    requires Tracked(w, k, origin) && w.flight != [] && w.flight[|w.flight| - 1] == p
    requires KeyOf(p.frame) == k && Quiet(p.frame.kind) && Encodable(p.frame) && p.frame.destination != []
    requires p.at in w.wires && Attached(w, w.wires[p.at]) && env.token != ZERO_ID && env.token !in w.issued
             && up <= env.up
    requires Open(w, w.wires[p.at].node, p.frame.destination, EncodedSize(p.frame), up)
    ensures Legal(w, Follow(w, env))
    ensures var after := Next(w, Follow(w, env));
            && after.flight != []
            && var q := after.flight[|after.flight| - 1];
               && SameAnswer(p.frame, q.frame) && q.frame.destination == p.frame.destination[1..]
               && Encodable(q.frame) && EncodedSize(q.frame) == EncodedSize(p.frame)
               && q.at == w.issued[p.frame.destination[0].value]
  {
    hide Receive, Ledger, Held, Encodable, EncodedSize, Passed, HasToken, SameAnswer, Leads, OnTheWay, Arrived;
    assert p in w.flight;
    OkFrame(p.frame);
    var c := w.wires[p.at];
    var r := w.routers[c.node];
    AnswerHop(w, k, origin, p, env);
    HeldKinds(w, k, origin, c.node);
    var e := Receive(r, c.name, p.frame, env);
    var x :| HasToken(r.edges, p.frame.destination[0].value, x) && Takes(x, EncodedSize(p.frame), up);
    assert p.frame.destination[0].value != ZERO_ID;
    var y := StillHeld(w, c, p.frame, env, p.frame.destination[0].value, x);
    LegOuts(w, k, origin, p, env, e, y);
    AttachedConn(w, k, origin, c, p.frame, env, y);
  }

  lemma HeldKinds(w: World, k: FloodKey, origin: Node, n: Node)
    requires Tracked(w, k, origin) && n in w.routers
    ensures forall s :: s in w.routers[n].parkedIn ==> w.routers[n].parkedIn[s].request.kind.Discover?
  {
    hide Ledger, OnTheWay, Arrived, Leads;
  }

  /** The one parcel that a leg adds. */
  lemma LegOuts(w: World, k: FloodKey, origin: Node, p: Parcel, env: Env, e: Effect, y: Edge)
    requires Tracked(w, k, origin) && p in w.flight && KeyOf(p.frame) == k && Quiet(p.frame.kind)
    requires p.frame.destination != [] && p.at in w.wires && Attached(w, w.wires[p.at]) && Encodable(p.frame)
    requires var c := w.wires[p.at];
             HopOutcome(w, origin, c, IndexOf(w.routers[c.node].edges, c.name), p.frame, e.router.edges, e.outs, env.up)
    requires HasToken(e.router.edges, p.frame.destination[0].value, y) && AllValid(p.frame.destination)
             && AllValid(p.frame.replyPath) && Takes(y, EncodedSize(p.frame), env.up)
    ensures var c := w.wires[p.at];
            && Conn(c.node, y.name, y.generation) == w.issued[p.frame.destination[0].value] && y in e.router.edges
            && exists f ::
                 && Parcels(c.node, e.router.edges, e.outs) == [Parcel(ConnAt(c.node, e.router.edges, y.name), f)]
                 && SameAnswer(p.frame, f) && f.destination == p.frame.destination[1..]
                 && Encodable(f) && EncodedSize(f) == EncodedSize(p.frame)
  {
    hide Ledger, Held, Encodable, EncodedSize, Passed, SameAnswer, Leads, Arrived, ConnAt;
    var c := w.wires[p.at];
    var t := e.router.edges[IndexOf(w.routers[c.node].edges, c.name)].token;
    assert OnTheWay(w.issued, w.wires, origin, p);
    LinkFirst(w, origin, p);
    PassingKeepsSize(p.frame, t);
    PassedFields(p.frame, t);
    SingleParcel(c.node, e.router.edges, y.name, Passed(p.frame, t));
  }

  lemma LinkFirst(w: World, origin: Node, p: Parcel)
    requires OnTheWay(w.issued, w.wires, origin, p) && Quiet(p.frame.kind) && p.at in w.wires
             && p.frame.destination != []
    ensures p.frame.destination[0].kind.LinkHop?
  {
  }

  lemma PassedFields(f: Frame, t: Id)
    requires f.destination != [] && f.remaining > 0
    ensures SameAnswer(f, Passed(f, t)) && Passed(f, t).destination == f.destination[1..]
  {
  }

  lemma SingleParcel(node: Node, edges: seq<Edge>, name: bytes, f: Frame)
    ensures Parcels(node, edges, [Sent(name, f, Relay)]) == [Parcel(ConnAt(node, edges, name), f)]
  {
    assert [Sent(name, f, Relay)][1..] == [];
    assert Parcels(node, edges, []) == [];
  }

  lemma StillHeld(w: World, c: Conn, f: Frame, env: Env, token: bytes, x: Edge) returns (y: Edge)
    requires Attached(w, c) && token != ZERO_ID && HasToken(w.routers[c.node].edges, token, x)
    requires forall s :: s in w.routers[c.node].parkedIn ==> w.routers[c.node].parkedIn[s].request.kind.Discover?
    ensures HasToken(Receive(w.routers[c.node], c.name, f, env).router.edges, token, y) && y.name == x.name
            && y.limit == x.limit
  {
    hide Receive, Handled;
    var r := w.routers[c.node];
    ArrivalEdges(r, c.name, f, env);
    var i :| 0 <= i < |r.edges| && r.edges[i] == x;
    if Admitted(r, c.name, f) { HandledGrown(r, c.name, f, env); }
    y := Receive(r, c.name, f, env).router.edges[i];
  }

  lemma AttachedConn(w: World, k: FloodKey, origin: Node, c: Conn, f: Frame, env: Env, x: Edge)
    requires Tracked(w, k, origin) && Attached(w, c) && env.token != ZERO_ID && env.token !in w.issued
    requires x in Receive(w.routers[c.node], c.name, f, env).router.edges
    ensures ConnAt(c.node, Receive(w.routers[c.node], c.name, f, env).router.edges, x.name)
            == Conn(c.node, x.name, x.generation)
  {
    hide Receive, Ordered, Noted, Held, Leads, OnTheWay, Arrived;
    ArrivalLedger(w, k, origin, c, f, env);
    var edges := Receive(w.routers[c.node], c.name, f, env).router.edges;
    OrderedIsDistinct(edges);
    OnlyAt(edges, x);
  }

  /** The whole trip: whatever its length, an answer whose connections are all open is
      handed over at the origin with its contents unchanged. */
  lemma {:induction false} AnswerComesHome(w: World, k: FloodKey, origin: Node, p: Parcel, envs: seq<Env>,
                                           up: set<bytes>)
    requires Tracked(w, k, origin) && w.flight != [] && w.flight[|w.flight| - 1] == p
    requires KeyOf(p.frame) == k && Quiet(p.frame.kind) && Encodable(p.frame)
    requires p.at in w.wires && Attached(w, w.wires[p.at]) && GoodDraws(w, envs, up)
             && |envs| == |p.frame.destination| + 1
    requires Open(w, w.wires[p.at].node, p.frame.destination, EncodedSize(p.frame), up)
    ensures exists g :: (origin, g) in Travel(w, envs).delivered && SameAnswer(p.frame, g) && g.destination == []
    decreases |envs|
  {
    hide Ledger, Held, OnTheWay, Arrived, Encodable, EncodedSize, Receive, Attached, Next, SameAnswer, GoodDraws, Leads;
    assert p in w.flight;

    FirstDraw(w, envs, up);
    var ev := Follow(w, envs[0]);
    if p.frame.destination == [] {
      LastLeg(w, k, origin, p, envs[0]);
      assert Travel(w, envs) == Next(w, ev) by { TravelOnce(w, envs); }
    } else {
      Leg(w, k, origin, p, envs[0], up);
      var after := Next(w, ev);
      EventTracks(w, k, origin, ev);
      HopFrame(w, k, origin, envs[0]);
      var q := after.flight[|after.flight| - 1];
      LaterDraws(w, after, envs, up);
      LegKey(p.frame, q.frame);
      OkFrame(p.frame);
      NextOpen(w, after, p, q, EncodedSize(p.frame), up);
      OkFrame(q.frame);
      AnswerComesHome(after, k, origin, q, envs[1..], up);
      var g :| (origin, g) in Travel(after, envs[1..]).delivered && SameAnswer(q.frame, g) && g.destination == [];
      SameAnswerTrans(p.frame, q.frame, g);
    }
  }

  lemma FirstDraw(w: World, envs: seq<Env>, up: set<bytes>)
    requires GoodDraws(w, envs, up) && envs != []
    ensures envs[0].token != ZERO_ID && envs[0].token !in w.issued && up <= envs[0].up
  {
  }

  lemma TravelOnce(w: World, envs: seq<Env>)
    requires |envs| == 1 && w.flight != [] && Legal(w, Follow(w, envs[0]))
    ensures Travel(w, envs) == Next(w, Follow(w, envs[0]))
  {
    hide Next, Legal;
  }

  lemma LegKey(f: Frame, g: Frame)
    requires SameAnswer(f, g)
    ensures KeyOf(f) == KeyOf(g) && f.kind == g.kind
  {
  }

  lemma SameAnswerTrans(f: Frame, g: Frame, h: Frame)
    requires SameAnswer(f, g) && SameAnswer(g, h)
    ensures SameAnswer(f, h)
  {
  }

  lemma LaterDraws(w: World, after: World, envs: seq<Env>, up: set<bytes>)
    requires GoodDraws(w, envs, up) && envs != []
    requires forall t :: t in after.issued ==> t in w.issued || t == envs[0].token
    ensures GoodDraws(after, envs[1..], up)
  {
  }

  lemma HopFrame(w: World, k: FloodKey, origin: Node, env: Env)
    requires Tracked(w, k, origin) && w.flight != [] && Legal(w, Follow(w, env))
    ensures Harmless(w, Next(w, Follow(w, env)))
    ensures forall t :: t in Next(w, Follow(w, env)).issued ==> t in w.issued || t == env.token
  {
    hide Ledger, OnTheWay, Arrived, Next, Legal, Leads;
    HopIsHarmless(w, env);
  }

  lemma NextOpen(w: World, after: World, p: Parcel, q: Parcel, size: nat, up: set<bytes>)
    requires Harmless(w, after) && ZERO_ID !in w.issued && p.at in w.wires && p.frame.destination != []
    requires Open(w, w.wires[p.at].node, p.frame.destination, size, up)
    requires q.frame.destination == p.frame.destination[1..] && q.at == w.issued[p.frame.destination[0].value]
    ensures q.at in after.wires && Attached(after, after.wires[q.at])
    ensures Open(after, after.wires[q.at].node, q.frame.destination, size, up)
  {
    hide Attached, Harmless;
    assert w.wires == after.wires by { SameWires(w, after); }
    StillAttached(w, after, w.wires[q.at]);
    StillOpen(w, after, w.wires[q.at].node, q.frame.destination, size, up);
  }

  lemma SameWires(w: World, after: World)
    requires Harmless(w, after)
    ensures w.wires == after.wires
  {
  }

  lemma LastLeg(w: World, k: FloodKey, origin: Node, p: Parcel, env: Env)
    requires Tracked(w, k, origin) && w.flight != [] && w.flight[|w.flight| - 1] == p
    requires KeyOf(p.frame) == k && Quiet(p.frame.kind) && Encodable(p.frame) && p.frame.destination == []
    requires p.at in w.wires && Attached(w, w.wires[p.at]) && env.token != ZERO_ID && env.token !in w.issued
    requires w.routers[w.wires[p.at].node].allowed
    ensures Legal(w, Follow(w, env))
    ensures exists g ::
              (origin, g) in Next(w, Follow(w, env)).delivered && SameAnswer(p.frame, g) && g.destination == []
  {
    hide Receive, Ledger, Held, Encodable;
    assert p in w.flight;
    AnswerHop(w, k, origin, p, env);
    var c := w.wires[p.at];
    var r := w.routers[c.node];
    var e := Receive(r, c.name, p.frame, env);
    var g := e.outs[0].frame;
    assert e.outs[0] in e.outs;
    assert (origin, g) in Next(w, Follow(w, env)).delivered;
  }

  // ---------------------------------------------------------------- in every run

  /** What is in flight of a request can be encoded. */
  ghost predicate Encoded(w: World, k: FloodKey) {
    forall p :: p in w.flight && KeyOf(p.frame) == k ==> Encodable(p.frame)
  }

  lemma EventEncodes(w: World, ev: Event, k: FloodKey)
    requires Encoded(w, k) && Legal(w, ev)
    ensures Encoded(Next(w, ev), k)
  {
    hide Receive, Step, Encodable;
    match ev {
      case Deliver(i, _, env) =>
        var c := w.wires[w.flight[i].at];
        ArrivalEncodes(w.routers[c.node], c.name, w.flight[i].frame, env);
        SentEncoded(w, k, c.node, Receive(w.routers[c.node], c.name, w.flight[i].frame, env));
      case Lose(_) =>
      case Local(node, input) =>
        StepEncodes(w.routers[node], input);
        SentEncoded(w, k, node, Step(w.routers[node], input));
    }
  }

  lemma SentEncoded(w: World, k: FloodKey, node: Node, e: Effect)
    requires AllEncodable(e.outs)
    ensures forall p :: p in Parcels(node, e.router.edges, e.outs) ==> Encodable(p.frame)
  {
    hide Encodable, ConnAt;
    forall p | p in Parcels(node, e.router.edges, e.outs) ensures Encodable(p.frame) {
      ParcelsOf(node, e.router.edges, e.outs, p);
    }
  }

  lemma {:induction false} RunEncodes(w: World, events: seq<Event>, k: FloodKey, origin: Node)
    requires Encoded(w, k) && ReturnPath.Runs(w, events, k, origin)
    ensures Encoded(ReturnPath.Final(w, events, k, origin), k)
    decreases |events|
  {
    hide Encoded, Next, Honest;
    if events != [] {
      EventEncodes(w, events[0], k);
      RunEncodes(Next(w, events[0]), events[1..], k, origin);
    }
  }

  /** The order of what is in flight means nothing: the i-th parcel as the last one. */
  function Brought(w: World, i: nat): World
    requires i < |w.flight|
  {
    w.(flight := w.flight[..i] + w.flight[i + 1..] + [w.flight[i]])
  }

  /** Deliver the i-th parcel and follow it, hop by hop. */
  ghost function Trip(w: World, i: nat, envs: seq<Env>): World
    requires envs != [] && i < |w.flight| && Legal(w, Event.Deliver(i, false, envs[0]))
  {
    Travel(Next(w, Event.Deliver(i, false, envs[0])), envs[1..])
  }

  lemma TripIs(w: World, i: nat, envs: seq<Env>)
    requires envs != [] && i < |w.flight| && Legal(w, Event.Deliver(i, false, envs[0]))
    ensures Trip(w, i, envs) == Travel(Brought(w, i), envs)
  {
    hide Next, Legal, Brought;
    BroughtNext(w, i, envs[0]);
  }

  lemma BroughtNext(w: World, i: nat, env: Env)
    requires i < |w.flight| && Legal(w, Event.Deliver(i, false, env))
    ensures var v := Brought(w, i);
            && v.flight != [] && Legal(v, Follow(v, env))
            && Next(v, Follow(v, env)) == Next(w, Event.Deliver(i, false, env))
  {
    hide Receive, Noted, Happen, Attached;
    var v := Brought(w, i);
    var c, f := w.wires[w.flight[i].at], w.flight[i].frame;
    BroughtFlight(w.flight, i);
    SameNoted(w, v, c, f, env);
    SameHappening(w, v, c.node, Receive(w.routers[c.node], c.name, f, env), w.flight[..i] + w.flight[i + 1..],
                  Noted(w, c, f, env));
  }

  lemma BroughtFlight(flight: seq<Parcel>, i: nat)
    requires i < |flight|
    ensures var brought := flight[..i] + flight[i + 1..] + [flight[i]];
            && brought[|brought| - 1] == flight[i]
            && brought[..|brought| - 1] + brought[|brought| - 1 + 1..] == flight[..i] + flight[i + 1..]
  {
  }

  lemma SameHappening(w: World, v: World, node: Node, e: Effect, flight: seq<Parcel>, issued: map<bytes, Conn>)
    requires v == w.(flight := v.flight)
    ensures Happen(v, node, e, flight, issued) == Happen(w, node, e, flight, issued)
  {
  }

  lemma SameNoted(w: World, v: World, c: Conn, f: Frame, env: Env)
    requires Attached(w, c) && v == w.(flight := v.flight)
    ensures Attached(v, c) && Noted(v, c, f, env) == Noted(w, c, f, env)
  {
  }

  /** In every run from a state in which the request does not exist yet: an answer to it,
      anywhere in flight, whose way home is open arrives at the origin with its contents
      unchanged, whatever the length of the way. */
  lemma AnswersComeHome(start: World, events: seq<Event>, k: FloodKey, origin: Node, i: nat, envs: seq<Env>,
                        up: set<bytes>)
    requires Unborn(start, k) && ReturnPath.Runs(start, events, k, origin)
    requires var w := ReturnPath.Final(start, events, k, origin);
             && i < |w.flight| && GoodDraws(w, envs, up)
             && var p := w.flight[i];
                && KeyOf(p.frame) == k && Quiet(p.frame.kind) && |envs| == |p.frame.destination| + 1
                && p.at in w.wires && Attached(w, w.wires[p.at])
                && (Encodable(p.frame) ==> Open(w, w.wires[p.at].node, p.frame.destination, EncodedSize(p.frame), up))
    ensures var w := ReturnPath.Final(start, events, k, origin);
            && Legal(w, Event.Deliver(i, false, envs[0]))
            && exists g ::
                 (origin, g) in Trip(w, i, envs).delivered && SameAnswer(w.flight[i].frame, g) && g.destination == []
  {
    hide Ledger, Leads, Held, OnTheWay, Arrived, Encodable, EncodedSize, Attached, Next, GoodDraws, SameAnswer, Travel;
    var w := ReturnPath.Final(start, events, k, origin);
    var p := w.flight[i];
    assert Tracked(start, k, origin) by { BornTracked(start, k, origin); }
    RunTracks(start, events, k, origin);
    assert Encoded(start, k);
    RunEncodes(start, events, k, origin);
    assert p in w.flight;
    OkFrame(p.frame);
    FirstDraw(w, envs, up);
    var v := Brought(w, i);
    assert Tracked(v, k, origin) by { BroughtTracked(w, k, origin, i); }
    SameOpen(w, v, w.wires[p.at].node, p.frame.destination, EncodedSize(p.frame), up);
    SameDraws(w, v, w.wires[p.at], envs, up);
    AnswerComesHome(v, k, origin, p, envs, up);
    TripIs(w, i, envs);
  }

  lemma BornTracked(w: World, k: FloodKey, origin: Node)
    requires Unborn(w, k)
    ensures Tracked(w, k, origin)
  {
    hide Ledger, Leads;
  }

  lemma BroughtTracked(w: World, k: FloodKey, origin: Node, i: nat)
    requires Tracked(w, k, origin) && i < |w.flight|
    ensures Tracked(Brought(w, i), k, origin)
  {
    hide Ledger, Leads, Held, OnTheWay, Arrived;
    var v := Brought(w, i);
    assert forall q :: q in v.flight ==> q in w.flight;
  }

  lemma {:induction false} SameOpen(w: World, v: World, node: Node, path: Path, size: nat, up: set<bytes>)
    requires v == w.(flight := v.flight) && Open(w, node, path, size, up)
    ensures Open(v, node, path, size, up)
    decreases |path|
  {
    hide HasToken, Takes;
    if path != [] { SameOpen(w, v, w.wires[w.issued[path[0].value]].node, path[1..], size, up); }
  }

  lemma SameDraws(w: World, v: World, c: Conn, envs: seq<Env>, up: set<bytes>)
    requires v == w.(flight := v.flight) && GoodDraws(w, envs, up) && Attached(w, c)
    ensures GoodDraws(v, envs, up) && Attached(v, c)
  {
  }
}
