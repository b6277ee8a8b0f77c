/** Return paths (src/control_router.hpp, src/control_route.hpp): in every run of a network
    whose connections come and go, answers retrace the connections that the request came
    by, reach the request's origin and no other router, and never run out of hops. */
module ReturnPath {
  import opened Bytes
  import opened ControlRoute
  import opened ControlRouter
  import opened RouterFacts
  import opened DiscoveryRuns
  import opened DiscoveryAuth
  import opened RouterNetwork
  import opened EdgeTable
  import opened ReplyEmissions
  import F = FloodCoverage
  import A = ControlAuth

  /** One end of one connection: a router, a name and a generation. */
  datatype Conn = Conn(node: Node, name: bytes, generation: nat)

  datatype Parcel = Parcel(at: Conn, frame: Frame)

  /** The wires join the connections that ever exist, whether they are attached at the
      moment or not. `issued` records for every token the connection it was drawn for,
      `delivered` what was handed to the applications. */
  datatype World = World(routers: map<Node, Router>, wires: map<Conn, Conn>, flight: seq<Parcel>,
                         issued: map<bytes, Conn>, delivered: set<(Node, Frame)>)

  datatype Event = Deliver(i: nat, keep: bool, env: Env) | Lose(i: nat) | Local(node: Node, input: Input)

  function ConnAt(node: Node, edges: seq<Edge>, name: bytes): Conn {
    var i := IndexOf(edges, name);
    Conn(node, name, if i < |edges| then edges[i].generation else 0)
  }

  /** The connection is the one its router currently has attached under its name. */
  predicate Attached(w: World, c: Conn) {
    && c.node in w.routers && IndexOf(w.routers[c.node].edges, c.name) < |w.routers[c.node].edges|
    && ConnAt(c.node, w.routers[c.node].edges, c.name) == c
  }

  function Parcels(node: Node, edges: seq<Edge>, outs: seq<Out>): seq<Parcel> {
    if outs == [] then []
    else (if outs[0].Sent? then [Parcel(ConnAt(node, edges, outs[0].edge), outs[0].frame)] else [])
         + Parcels(node, edges, outs[1..])
  }

  function HandedOver(node: Node, outs: seq<Out>): set<(Node, Frame)> {
    set o | o in outs && o.Delivered? :: (node, o.frame)
  }

  /** A token drawn for a connection has never been drawn before. */
  predicate Legal(w: World, ev: Event) {
    match ev
    case Deliver(i, _, env) =>
      && i < |w.flight| && w.flight[i].at in w.wires && Attached(w, w.wires[w.flight[i].at])
      && env.token != ZERO_ID && env.token !in w.issued
    case Lose(i) => i < |w.flight|
    case Local(node, input) => node in w.routers && !input.Arrive?
  }

  /** The token log after `f` arrives on connection `c`. */
  function Noted(w: World, c: Conn, f: Frame, env: Env): map<bytes, Conn>
    requires Attached(w, c)
  {
    var r := w.routers[c.node];
    if Admitted(r, c.name, f) && r.edges[IndexOf(r.edges, c.name)].token == ZERO_ID then w.issued[env.token := c]
      else w.issued
  }

  function Happen(w: World, node: Node, e: Effect, flight: seq<Parcel>, issued: map<bytes, Conn>): World {
    w.(routers := w.routers[node := e.router], flight := flight + Parcels(node, e.router.edges, e.outs),
       issued := issued, delivered := w.delivered + HandedOver(node, e.outs))
  }

  function Next(w: World, ev: Event): World
    requires Legal(w, ev)
  {
    match ev
    case Deliver(i, keep, env) =>
      var p := w.flight[i];
      var c := w.wires[p.at];
      var e := Receive(w.routers[c.node], c.name, p.frame, env);
      Happen(w, c.node, e, if keep then w.flight else w.flight[..i] + w.flight[i + 1..], Noted(w, c, p.frame, env))
    case Lose(i) => w.(flight := w.flight[..i] + w.flight[i + 1..])
    case Local(node, input) => Happen(w, node, Step(w.routers[node], input), w.flight, w.issued)
  }

  // ---------------------------------------------------------------- paths that lead back

  /** Following the recorded connections of `path` from `node` ends at `origin`. */
  ghost predicate Leads(issued: map<bytes, Conn>, wires: map<Conn, Conn>, node: Node, path: Path, origin: Node)
    decreases |path|
  {
    if path == [] then node == origin
    else
      && path[0].kind.LinkHop? && path[0].value in issued && issued[path[0].value].node == node
      && issued[path[0].value] in wires
      && Leads(issued, wires, wires[issued[path[0].value]].node, path[1..], origin)
  }

  ghost predicate Extends(issued: map<bytes, Conn>, later: map<bytes, Conn>) {
    forall t :: t in issued ==> t in later && later[t] == issued[t]
  }

  lemma {:induction false} LeadsOn(issued: map<bytes, Conn>, later: map<bytes, Conn>, wires: map<Conn, Conn>,
                                   node: Node, path: Path, origin: Node)
    requires Leads(issued, wires, node, path, origin) && Extends(issued, later)
    ensures Leads(later, wires, node, path, origin)
    decreases |path|
  {
    if path != [] { LeadsOn(issued, later, wires, wires[issued[path[0].value]].node, path[1..], origin); }
  }

  /** A router's tokens are those recorded for its connections. */
  ghost predicate Ledger(issued: map<bytes, Conn>, node: Node, edges: seq<Edge>) {
    && Ordered(edges)
    && forall e :: e in edges && e.token != ZERO_ID ==>
      e.token in issued && issued[e.token] == Conn(node, e.name, e.generation)
  }

  /** A link hop resolves to the connection its token was drawn for, or to none. */
  lemma LinkIsExact(issued: map<bytes, Conn>, node: Node, edges: seq<Edge>, hop: Hop, name: bytes)
    requires Ledger(issued, node, edges) && ZERO_ID !in issued
    requires hop.kind.LinkHop? && hop.value in issued && Through(edges, hop, name)
    ensures ConnAt(node, edges, name) == issued[hop.value]
  {
    hide Ordered;
    OrderedIsDistinct(edges);
    var e := Resolve(edges, hop).value;
    OnlyAt(edges, e);
  }

  // ---------------------------------------------------------------- the invariant

  /** The frames of one request and where they are on their way. */
  ghost predicate Coming(issued: map<bytes, Conn>, wires: map<Conn, Conn>, origin: Node, node: Node, f: Frame) {
    Leads(issued, wires, node, f.replyPath, origin) && |f.replyPath| < MAX_HOPS
  }

  ghost predicate OnTheWay(issued: map<bytes, Conn>, wires: map<Conn, Conn>, origin: Node, p: Parcel) {
    && |p.frame.replyPath| + p.frame.remaining < MAX_HOPS && p.frame.remaining >= 1
    && if Quiet(p.frame.kind) then
         && |p.frame.destination| < p.frame.remaining
         && (p.at in wires ==> Leads(issued, wires, wires[p.at].node, p.frame.destination, origin))
       else Leads(issued, wires, p.at.node, p.frame.replyPath, origin)
  }

  ghost predicate Arrived(issued: map<bytes, Conn>, wires: map<Conn, Conn>, origin: Node, node: Node, f: Frame) {
    if Quiet(f.kind) then node == origin else Coming(issued, wires, origin, node, f)
  }

  ghost predicate Held(issued: map<bytes, Conn>, wires: map<Conn, Conn>, k: FloodKey, origin: Node, node: Node,
                       parked: map<Key, Parked>) {
    forall n :: n in parked ==>
      && parked[n].request.kind.Discover?
      && (KeyOf(parked[n].request) == k ==>
            Coming(issued, wires, origin, node, parked[n].request)
            && |parked[n].request.replyPath| + parked[n].request.remaining <= MAX_HOPS)
  }

  ghost predicate Tracked(w: World, k: FloodKey, origin: Node) {
    && ZERO_ID !in w.issued
    && (forall c :: c in w.wires ==> w.wires[c] in w.wires && w.wires[w.wires[c]] == c)
    && (forall n :: n in w.routers ==> Ledger(w.issued, n, w.routers[n].edges)
                                       && Held(w.issued, w.wires, k, origin, n, w.routers[n].parkedIn))
    && (forall p :: p in w.flight && KeyOf(p.frame) == k ==> OnTheWay(w.issued, w.wires, origin, p))
    && (forall d :: d in w.delivered && KeyOf(d.1) == k ==> Arrived(w.issued, w.wires, origin, d.0, d.1))
  }

  ghost predicate Fits(issued: map<bytes, Conn>, wires: map<Conn, Conn>, origin: Node, node: Node, edges: seq<Edge>,
                       out: Out) {
    if out.Sent? then OnTheWay(issued, wires, origin, Parcel(ConnAt(node, edges, out.edge), out.frame))
    else Arrived(issued, wires, origin, node, out.frame)
  }

  lemma {:induction false} ParcelsOf(node: Node, edges: seq<Edge>, outs: seq<Out>, p: Parcel)
    requires p in Parcels(node, edges, outs)
    ensures exists o :: o in outs && o.Sent? && p == Parcel(ConnAt(node, edges, o.edge), o.frame)
  {
    if p in Parcels(node, edges, outs[1..]) {
      ParcelsOf(node, edges, outs[1..], p);
      var o :| o in outs[1..] && o.Sent? && p == Parcel(ConnAt(node, edges, o.edge), o.frame);
      assert o in outs;
    } else {
      assert outs[0] in outs;
    }
  }

  lemma OnTheWayLater(issued: map<bytes, Conn>, later: map<bytes, Conn>, wires: map<Conn, Conn>, origin: Node,
                      p: Parcel)
    requires OnTheWay(issued, wires, origin, p) && Extends(issued, later)
    ensures OnTheWay(later, wires, origin, p)
  {
    hide Leads;
    if !Quiet(p.frame.kind) {
      LeadsOn(issued, later, wires, p.at.node, p.frame.replyPath, origin);
    } else if p.at in wires {
      LeadsOn(issued, later, wires, wires[p.at].node, p.frame.destination, origin);
    }
  }

  lemma ArrivedLater(issued: map<bytes, Conn>, later: map<bytes, Conn>, wires: map<Conn, Conn>, origin: Node,
                     node: Node, f: Frame)
    requires Arrived(issued, wires, origin, node, f) && Extends(issued, later)
    ensures Arrived(later, wires, origin, node, f)
  {
    hide Leads;
    if !Quiet(f.kind) { LeadsOn(issued, later, wires, node, f.replyPath, origin); }
  }

  lemma HeldLater(issued: map<bytes, Conn>, later: map<bytes, Conn>, wires: map<Conn, Conn>, k: FloodKey, origin: Node,
                  node: Node, parked: map<Key, Parked>)
    requires Held(issued, wires, k, origin, node, parked) && Extends(issued, later)
    ensures Held(later, wires, k, origin, node, parked)
  {
    hide Leads;
    forall n | n in parked && KeyOf(parked[n].request) == k
      ensures Coming(later, wires, origin, node, parked[n].request)
    {
      LeadsOn(issued, later, wires, node, parked[n].request.replyPath, origin);
    }
  }

  lemma LedgerLater(issued: map<bytes, Conn>, later: map<bytes, Conn>, node: Node, edges: seq<Edge>)
    requires Ledger(issued, node, edges) && Extends(issued, later)
    ensures Ledger(later, node, edges)
  {
  }

  /** One router steps; what it emits and holds fits, the rest is as before. */
  lemma HappenTracks(w: World, k: FloodKey, origin: Node, node: Node, e: Effect, flight: seq<Parcel>,
                     issued: map<bytes, Conn>)
    requires Tracked(w, k, origin) && Extends(w.issued, issued) && ZERO_ID !in issued
    requires forall p :: p in flight ==> p in w.flight
    requires Ledger(issued, node, e.router.edges) && Held(issued, w.wires, k, origin, node, e.router.parkedIn)
    requires forall o :: o in e.outs && KeyOf(o.frame) == k ==> Fits(issued, w.wires, origin, node, e.router.edges, o)
    ensures Tracked(Happen(w, node, e, flight, issued), k, origin)
  {
    hide Ledger, Held, OnTheWay, Arrived, Extends;
    var after := Happen(w, node, e, flight, issued);
    forall n | n in after.routers
      ensures Ledger(issued, n, after.routers[n].edges)
              && Held(issued, w.wires, k, origin, n, after.routers[n].parkedIn)
    {
      if n != node {
        LedgerLater(w.issued, issued, n, w.routers[n].edges);
        HeldLater(w.issued, issued, w.wires, k, origin, n, w.routers[n].parkedIn);
      }
    }
    forall p | p in after.flight && KeyOf(p.frame) == k ensures OnTheWay(issued, w.wires, origin, p) {
      if p in flight {
        OnTheWayLater(w.issued, issued, w.wires, origin, p);
      } else {
        ParcelsOf(node, e.router.edges, e.outs, p);
      }
    }
    forall d | d in after.delivered && KeyOf(d.1) == k ensures Arrived(issued, w.wires, origin, d.0, d.1) {
      if d in w.delivered { ArrivedLater(w.issued, issued, w.wires, origin, d.0, d.1); }
    }
  }

  // ---------------------------------------------------------------- emissions fit

  lemma EmissionFits(issued: map<bytes, Conn>, wires: map<Conn, Conn>, origin: Node, node: Node, edges: seq<Edge>,
                     g: Frame, out: Out)
    requires Ledger(issued, node, edges) && ZERO_ID !in issued
    requires Coming(issued, wires, origin, node, g) && |g.replyPath| + g.remaining <= MAX_HOPS
    requires Emission(edges, g, out)
    ensures Fits(issued, wires, origin, node, edges, out)
  {
    hide Ledger, ConnAt, Through;
    if Home(edges, g, out) && out.Sent? {
      LinkIsExact(issued, node, edges, g.replyPath[0], out.edge);
    } else if Onward(g, out) {
      assert ConnAt(node, edges, out.edge).node == node by { ConnNode(node, edges, out.edge); }
    }
  }

  lemma ConnNode(node: Node, edges: seq<Edge>, name: bytes)
    ensures ConnAt(node, edges, name).node == node
  {
  }

  lemma CarriedFits(issued: map<bytes, Conn>, wires: map<Conn, Conn>, origin: Node, node: Node, edges: seq<Edge>,
                    g: Frame, out: Out)
    requires Ledger(issued, node, edges) && ZERO_ID !in issued
    requires Leads(issued, wires, node, g.destination, origin)
    requires |g.replyPath| + g.remaining <= MAX_HOPS && |g.destination| < g.remaining
    requires Quiet(g.kind) && Carried(edges, g, out)
    ensures Fits(issued, wires, origin, node, edges, out)
  {
    hide Ledger, ConnAt, Through;
    if out.Sent? { LinkIsExact(issued, node, edges, g.destination[0], out.edge); }
  }

  // ---------------------------------------------------------------- arrival

  lemma ArrivalEdges(r: Router, name: bytes, f: Frame, env: Env)
    requires forall n :: n in r.parkedIn ==> r.parkedIn[n].request.kind.Discover?
    ensures Receive(r, name, f, env).router.edges == if Admitted(r, name, f) then Handled(r, name, f, env).0.edges
            else r.edges
  {
    hide Receive;
    if Admitted(r, name, f) { ArrivalEmits(r, name, f, env); } else { RefusedEdges(r, name, f, env); }
  }

  lemma RefusedEdges(r: Router, name: bytes, f: Frame, env: Env)
    requires !Admitted(r, name, f)
    ensures Receive(r, name, f, env).router.edges == r.edges
  {
    hide Route, Reject, Text, DiscoverRemote, Tick;
    RejectFacts(r, f, Text("reply_path_limit"), env.up);
  }

  lemma NotedExtends(w: World, c: Conn, f: Frame, env: Env)
    requires Attached(w, c) && env.token != ZERO_ID && env.token !in w.issued && ZERO_ID !in w.issued
    requires Ledger(w.issued, c.node, w.routers[c.node].edges)
    ensures var later := Noted(w, c, f, env); Extends(w.issued, later) && ZERO_ID !in later
  {
  }

  /** After an arrival the ingress has a token, recorded for this very connection. */
  lemma HandledLedger(w: World, c: Conn, f: Frame, env: Env)
    requires Attached(w, c) && env.token != ZERO_ID && env.token !in w.issued
    requires Ledger(w.issued, c.node, w.routers[c.node].edges) && Admitted(w.routers[c.node], c.name, f)
    ensures var later := Noted(w, c, f, env);
            var h := Handled(w.routers[c.node], c.name, f, env);
            && Ledger(later, c.node, h.0.edges)
            && h.1.replyPath[0].kind.LinkHop? && h.1.replyPath[0].value in later && later[h.1.replyPath[0].value] == c
            && h.1 == f.(replyPath := [h.1.replyPath[0]] + f.replyPath)
  {
    hide Before;
    var r := w.routers[c.node];
    var i := IndexOf(r.edges, c.name);
    assert r.edges[i] in r.edges;
    var known := WithToken(r, i, env.token);
    forall e | e in known.edges && e.token != ZERO_ID
      ensures e.token in Noted(w, c, f, env) && Noted(w, c, f, env)[e.token] == Conn(c.node, e.name, e.generation)
    {
      var j :| 0 <= j < |known.edges| && known.edges[j] == e;
      if j != i { assert r.edges[j] in r.edges; }
    }
  }

  lemma HandledHeld(w: World, k: FloodKey, origin: Node, c: Conn, f: Frame, env: Env)
    requires Tracked(w, k, origin) && Attached(w, c) && Admitted(w.routers[c.node], c.name, f)
    ensures Held(w.issued, w.wires, k, origin, c.node, Handled(w.routers[c.node], c.name, f, env).0.parkedIn)
  {
    hide Leads, Ledger;
  }

  /** What a frame of the request becomes when it arrives. */
  lemma PushedComes(w: World, k: FloodKey, origin: Node, p: Parcel, env: Env)
    requires Tracked(w, k, origin) && p in w.flight && KeyOf(p.frame) == k && p.at in w.wires
             && Attached(w, w.wires[p.at])
    requires env.token != ZERO_ID && env.token !in w.issued
             && Admitted(w.routers[w.wires[p.at].node], w.wires[p.at].name, p.frame)
    ensures var c := w.wires[p.at];
            var later := Noted(w, c, p.frame, env);
            var g := Handled(w.routers[c.node], c.name, p.frame, env).1;
            && |g.replyPath| + g.remaining <= MAX_HOPS && g.kind == p.frame.kind && KeyOf(g) == k && 1 <= g.remaining
            && (!Quiet(g.kind) ==> Coming(later, w.wires, origin, c.node, g))
            && (Quiet(g.kind) ==> Leads(later, w.wires, c.node, g.destination, origin) && |g.destination| < g.remaining)
  {
    hide Ledger, Held, Noted, Handled, Extends;
    var c := w.wires[p.at];
    var later := Noted(w, c, p.frame, env);
    NotedExtends(w, c, p.frame, env);
    HandledLedger(w, c, p.frame, env);
    assert OnTheWay(w.issued, w.wires, origin, p);
    OnTheWayLater(w.issued, later, w.wires, origin, p);
    var g := Handled(w.routers[c.node], c.name, p.frame, env).1;
    if !Quiet(g.kind) { assert g.replyPath[1..] == p.frame.replyPath; }
  }

  lemma ArrivalOutsFit(w: World, k: FloodKey, origin: Node, p: Parcel, env: Env, out: Out)
    requires Tracked(w, k, origin) && p in w.flight && p.at in w.wires && Attached(w, w.wires[p.at])
    requires env.token != ZERO_ID && env.token !in w.issued
    requires out in Receive(w.routers[w.wires[p.at].node], w.wires[p.at].name, p.frame, env).outs
             && KeyOf(out.frame) == k
    ensures var c := w.wires[p.at];
            Fits(Noted(w, c, p.frame, env), w.wires, origin, c.node,
                 Receive(w.routers[c.node], c.name, p.frame, env).router.edges, out)
  {
    hide Receive, Handled, Noted, Fits, Carried, Emission, Released, Leads, Extends, F.SameShape;
    var c := w.wires[p.at];
    var r := w.routers[c.node];
    assert KeyOf(p.frame) == k by { F.ArrivalConcerns(r, c.name, p.frame, env); }
    assert OnTheWay(w.issued, w.wires, origin, p);
    assert Admitted(r, c.name, p.frame) by { MustBeAdmitted(w, c, p.frame, env, out); }
    var h := Handled(r, c.name, p.frame, env);
    var later := Noted(w, c, p.frame, env);
    ArrivalEmits(r, c.name, p.frame, env);
    NotedExtends(w, c, p.frame, env);
    HandledLedger(w, c, p.frame, env);
    PushedComes(w, k, origin, p, env);
    if Quiet(h.1.kind) {
      CarriedFits(later, w.wires, origin, c.node, h.0.edges, h.1, out);
    } else if Emission(h.0.edges, h.1, out) {
      EmissionFits(later, w.wires, origin, c.node, h.0.edges, h.1, out);
    } else {
      HandledHeld(w, k, origin, c, p.frame, env);
      HeldLater(w.issued, later, w.wires, k, origin, c.node, h.0.parkedIn);
      ReleasedFits(later, w.wires, k, origin, c.node, h.0, h.1, out);
    }
  }

  lemma MustBeAdmitted(w: World, c: Conn, f: Frame, env: Env, out: Out)
    requires Attached(w, c) && out in Receive(w.routers[c.node], c.name, f, env).outs && |f.replyPath| < MAX_HOPS
    ensures Admitted(w.routers[c.node], c.name, f)
  {
    hide DiscoverRemote, Route, Text, Reject, Tick;
  }

  lemma ReleasedFits(issued: map<bytes, Conn>, wires: map<Conn, Conn>, k: FloodKey, origin: Node, node: Node,
                     base: Router, g: Frame, out: Out)
    requires Ledger(issued, node, base.edges) && ZERO_ID !in issued
             && Held(issued, wires, k, origin, node, base.parkedIn)
    requires KeyOf(g) == k && exists original :: Released(base, g, original) && Emission(base.edges, original, out)
    ensures Fits(issued, wires, origin, node, base.edges, out)
  {
    hide Ledger, Leads, Emission, Fits;
    var original :| Released(base, g, original) && Emission(base.edges, original, out);
    EmissionFits(issued, wires, origin, node, base.edges, original, out);
  }

  lemma ArrivalHolds(w: World, k: FloodKey, origin: Node, p: Parcel, env: Env)
    requires Tracked(w, k, origin) && p in w.flight && p.at in w.wires && Attached(w, w.wires[p.at])
    requires env.token != ZERO_ID && env.token !in w.issued
    ensures var c := w.wires[p.at];
            Held(Noted(w, c, p.frame, env), w.wires, k, origin, c.node,
                 Receive(w.routers[c.node], c.name, p.frame, env).router.parkedIn)
  {
    hide Receive, Handled, Noted, Leads, Extends, Ledger;
    var c := w.wires[p.at];
    var r := w.routers[c.node];
    var later := Noted(w, c, p.frame, env);
    NotedExtends(w, c, p.frame, env);
    HeldLater(w.issued, later, w.wires, k, origin, c.node, r.parkedIn);
    StepParks(r, Arrive(c.name, p.frame, env));
    var parked := Receive(r, c.name, p.frame, env).router.parkedIn;
    forall n | n in parked
      ensures && parked[n].request.kind.Discover?
              && (KeyOf(parked[n].request) == k ==>
                    Coming(later, w.wires, origin, c.node, parked[n].request)
                    && |parked[n].request.replyPath| + parked[n].request.remaining <= MAX_HOPS)
    {
      if ParkedBy(r, Arrive(c.name, p.frame, env), parked[n]) {
        ParkedKey(r, c.name, p.frame, env);
        if KeyOf(p.frame) == k { PushedComes(w, k, origin, p, env); }
      }
    }
  }

  lemma ParkedKey(r: Router, name: bytes, f: Frame, env: Env)
    requires Admitted(r, name, f)
    ensures var g := Handled(r, name, f, env).1; KeyOf(g) == KeyOf(f) && g.kind == f.kind
  {
  }

  lemma DeliverTracks(w: World, k: FloodKey, origin: Node, ev: Event)
    requires Tracked(w, k, origin) && Legal(w, ev) && ev.Deliver?
    ensures Tracked(Next(w, ev), k, origin)
  {
    hide Receive, Noted, Leads, Extends, Ledger, Held, Fits, OnTheWay, Arrived, Happen, Handled;
    var p := w.flight[ev.i];
    assert p in w.flight;
    var c := w.wires[p.at];
    var r := w.routers[c.node];
    var e := Receive(r, c.name, p.frame, ev.env);
    var later := Noted(w, c, p.frame, ev.env);
    NotedExtends(w, c, p.frame, ev.env);
    ArrivalHolds(w, k, origin, p, ev.env);
    ArrivalLedger(w, k, origin, c, p.frame, ev.env);
    forall o | o in e.outs && KeyOf(o.frame) == k ensures Fits(later, w.wires, origin, c.node, e.router.edges, o) {
      ArrivalOutsFit(w, k, origin, p, ev.env, o);
    }
    HappenTracks(w, k, origin, c.node, e, if ev.keep then w.flight else w.flight[..ev.i] + w.flight[ev.i + 1..], later);
  }

  lemma ArrivalLedger(w: World, k: FloodKey, origin: Node, c: Conn, f: Frame, env: Env)
    requires Tracked(w, k, origin) && Attached(w, c) && env.token != ZERO_ID && env.token !in w.issued
    ensures Ledger(Noted(w, c, f, env), c.node, Receive(w.routers[c.node], c.name, f, env).router.edges)
  {
    hide Receive, Leads, Extends, Ledger, Handled, OnTheWay, Arrived;
    ArrivalEdges(w.routers[c.node], c.name, f, env);
    if Admitted(w.routers[c.node], c.name, f) { HandledLedger(w, c, f, env); }
  }

  // ---------------------------------------------------------------- local activity

  /** The request's frames originate at `origin`; elsewhere applications only answer what
      they were handed. */
  ghost predicate Honest(w: World, ev: Event, k: FloodKey, origin: Node)
    requires Legal(w, ev)
  {
    ev.Local? ==>
      match ev.input
      case Emit(f, _) =>
        KeyOf(f) == k ==>
          || (ev.node == origin && f.replyPath == [] && !Quiet(f.kind) && f.remaining <= MAX_HOPS)
          || Answers(w, ev.node, k, f)
      case Begin(request, _) => FloodKey(w.routers[ev.node].instance, request) == k ==> ev.node == origin
      case Vouch(f, _) => KeyOf(f) == k ==> ev.node == origin
      case _ => true
  }

  ghost predicate Answers(w: World, node: Node, k: FloodKey, f: Frame) {
    && Quiet(f.kind) && f.replyPath == [] && f.remaining == MAX_HOPS
    && exists g :: (node, g) in w.delivered && !Quiet(g.kind) && KeyOf(g) == k && f.destination == g.replyPath
  }

  lemma EmitFits(w: World, k: FloodKey, origin: Node, node: Node, f: Frame, env: Env, out: Out)
    requires Tracked(w, k, origin) && node in w.routers && Honest(w, Event.Local(node, Emit(f, env)), k, origin)
    requires out in Send(w.routers[node], f, env).outs && KeyOf(out.frame) == k
    ensures Fits(w.issued, w.wires, origin, node, w.routers[node].edges, out)
  {
    hide Route, Held, Ledger, Carried, Emission, Tick, Fits, RoutedOut;
    var r := w.routers[node];
    var t := Tick(r, env.now);
    assert t.edges == r.edges by { TickEdges(r, env.now); }
    assert KeyOf(f) == k by { RouteKey(t, f, Relay, env.up); }
    if Answers(w, node, k, f) {
      QuietRouteCarries(t, f, Relay, env.up);
      AnswerFits(w, k, origin, node, f, out);
    } else {
      RouteEmits(t, f, Relay, env.up);
      EmissionFits(w.issued, w.wires, origin, node, r.edges, f, out);
    }
  }

  lemma TickEdges(r: Router, now: nat)
    ensures Tick(r, now).edges == r.edges
  {
  }

  lemma RouteKey(r: Router, f: Frame, cause: Cause, up: set<bytes>)
    ensures forall o :: o in Route(r, f, cause, up).outs ==> KeyOf(o.frame) == KeyOf(f)
  {
    hide Route, Encodable;
    RouteFacts(r, f, cause, up);
  }

  /** An application's answer: its full budget covers any reply path it can hold. */
  lemma AnswerFits(w: World, k: FloodKey, origin: Node, node: Node, f: Frame, out: Out)
    requires Tracked(w, k, origin) && node in w.routers && Answers(w, node, k, f)
             && Carried(w.routers[node].edges, f, out)
    ensures Fits(w.issued, w.wires, origin, node, w.routers[node].edges, out)
  {
    hide Held, Ledger, Carried, Fits;
    var g :| (node, g) in w.delivered && !Quiet(g.kind) && KeyOf(g) == k && f.destination == g.replyPath;
    assert Arrived(w.issued, w.wires, origin, node, g);
    CarriedFits(w.issued, w.wires, origin, node, w.routers[node].edges, f, out);
  }

  lemma RootFits(w: World, k: FloodKey, origin: Node, node: Node, f: Frame, out: Out)
    requires Tracked(w, k, origin) && node in w.routers && node == origin && f.replyPath == []
             && f.remaining == MAX_HOPS
    requires Emission(w.routers[node].edges, f, out)
    ensures Fits(w.issued, w.wires, origin, node, w.routers[node].edges, out)
  {
    hide Held, Ledger, Emission, Fits;
    EmissionFits(w.issued, w.wires, origin, node, w.routers[node].edges, f, out);
  }

  lemma BeginFits(w: World, k: FloodKey, origin: Node, node: Node, request: Id, env: Env)
    requires Tracked(w, k, origin) && node in w.routers && Honest(w, Event.Local(node, Begin(request, env)), k, origin)
    ensures var e := BeginDiscovery(w.routers[node], request, env);
            && e.router.edges == w.routers[node].edges
            && forall o :: o in e.outs && KeyOf(o.frame) == k ==>
              Fits(w.issued, w.wires, origin, node, e.router.edges, o)
  {
    hide Flood, Tracked, Emission, Fits, Tick;
    var r := w.routers[node];
    var f := DiscoveryFrame(r.instance, request, [], []);
    TickEdges(r, env.now);
    FloodEmits(Tick(r, env.now), f, [], None, env);
    forall o | o in BeginDiscovery(r, request, env).outs && KeyOf(o.frame) == k
      ensures Fits(w.issued, w.wires, origin, node, r.edges, o)
    {
      EmissionKey(r.edges, f, o);
      RootFits(w, k, origin, node, f, o);
    }
  }

  lemma EmissionKey(edges: seq<Edge>, g: Frame, out: Out)
    requires Emission(edges, g, out)
    ensures KeyOf(out.frame) == KeyOf(g)
  {
  }

  lemma VouchFits(w: World, k: FloodKey, origin: Node, node: Node, f: Frame, env: Env)
    requires Tracked(w, k, origin) && node in w.routers && Honest(w, Event.Local(node, Vouch(f, env)), k, origin)
    ensures var e := AnswerChallenge(w.routers[node], f, env).0;
            && e.router.edges == w.routers[node].edges
            && forall o :: o in e.outs && KeyOf(o.frame) == k ==>
              Fits(w.issued, w.wires, origin, node, e.router.edges, o)
  {
    hide Route, Canonical, A.AcceptChallenge, A.Protect, A.DecodeChallenge, Tracked, Emission, Fits, RoutedOut;
    var r := w.routers[node];
    var t := Tick(r, env.now);
    if AnswerChallenge(r, f, env).1 {
      var bare := DiscoveryFrame(f.origin, f.request, f.command, f.replyPath);
      var accepted := A.AcceptChallenge(env.crypto, A.Initial(t.authConfig, f.origin), f.request, f.data, env.now);
      var signed := A.Protect(env.crypto, accepted.0, f.request, Canonical(bare).value, false);
      var proof := bare.(auth := signed.1);
      var n := A.DecodeChallenge(f.data).value.n;
      var parked := t.(parkedOut := t.parkedOut[n := Parked(signed.0, proof, [], env.now + SEEN_LIFE)]);
      RouteFacts(parked, proof, Proof, env.up);
      RouteEmits(parked, proof, Proof, env.up);
      RouteKey(parked, proof, Proof, env.up);
      forall o | o in Route(parked, proof, Proof, env.up).outs && KeyOf(o.frame) == k
        ensures Fits(w.issued, w.wires, origin, node, r.edges, o)
      {
        RootFits(w, k, origin, node, proof, o);
      }
    }
  }

  lemma SendEdges(r: Router, f: Frame, env: Env)
    ensures Send(r, f, env).router.edges == r.edges
  {
    hide Route, RoutedOut;
    RouteFacts(Tick(r, env.now), f, Relay, env.up);
  }

  lemma BelieveEdges(r: Router, f: Frame, env: Env)
    ensures VerifyAnswer(r, f, env).0.edges == r.edges
  {
    hide Canonical, A.VerifyReply;
  }

  /** Attaching, replacing and removing connections keeps the token log truthful: a
      replaced connection starts without a token. */
  lemma AttachLedger(issued: map<bytes, Conn>, node: Node, r: Router, name: bytes, generation: nat, peer: bool,
                     limit: nat)
    requires Ledger(issued, node, r.edges)
    ensures Ledger(issued, node, SetEdge(r, name, generation, peer, limit).edges)
  {
    hide Ordered, SetEdge;
    SetEdgeIsExact(r, name, generation, peer, limit);
  }

  lemma LocalFits(w: World, k: FloodKey, origin: Node, node: Node, input: Input)
    requires Tracked(w, k, origin) && Legal(w, Event.Local(node, input))
             && Honest(w, Event.Local(node, input), k, origin)
    ensures var e := Step(w.routers[node], input);
            && Ledger(w.issued, node, e.router.edges)
            && forall o :: o in e.outs && KeyOf(o.frame) == k ==>
              Fits(w.issued, w.wires, origin, node, e.router.edges, o)
  {
    hide Send, BeginDiscovery, AnswerChallenge, VerifyAnswer, SetEdge, Tick, Fits, Ledger, Held, Leads;
    var r := w.routers[node];
    match input {
      case Emit(f, env) =>
        SendEdges(r, f, env);
        forall o | o in Send(r, f, env).outs && KeyOf(o.frame) == k
          ensures Fits(w.issued, w.wires, origin, node, r.edges, o)
        {
          EmitFits(w, k, origin, node, f, env, o);
        }
      case Begin(request, env) => BeginFits(w, k, origin, node, request, env);
      case Vouch(f, env) => VouchFits(w, k, origin, node, f, env);
      case Believe(f, env) => BelieveEdges(r, f, env);
      case Attach(name, g, p, l) => AttachLedger(w.issued, node, r, name, g, p, l);
      case Clock(now) => TickEdges(r, now);
    }
  }

  lemma LocalHolds(w: World, k: FloodKey, origin: Node, node: Node, input: Input)
    requires Tracked(w, k, origin) && Legal(w, Event.Local(node, input))
    ensures Held(w.issued, w.wires, k, origin, node, Step(w.routers[node], input).router.parkedIn)
  {
    hide Step, Leads, Ledger;
    StepParks(w.routers[node], input);
  }

  lemma EventTracks(w: World, k: FloodKey, origin: Node, ev: Event)
    requires Tracked(w, k, origin) && Legal(w, ev) && Honest(w, ev, k, origin)
    ensures Tracked(Next(w, ev), k, origin)
  {
    hide Step, Leads, Ledger, Held, OnTheWay, Arrived, Happen, Honest;
    match ev {
      case Deliver(_, _, _) => DeliverTracks(w, k, origin, ev);
      case Lose(i) =>
        var rest := w.flight[..i] + w.flight[i + 1..];
        assert forall p :: p in rest ==> p in w.flight;
      case Local(node, input) =>
        LocalFits(w, k, origin, node, input);
        LocalHolds(w, k, origin, node, input);
        assert Extends(w.issued, w.issued);
        HappenTracks(w, k, origin, node, Step(w.routers[node], input), w.flight, w.issued);
    }
  }

  // ---------------------------------------------------------------- whole runs

  ghost predicate Runs(w: World, events: seq<Event>, k: FloodKey, origin: Node)
    decreases |events|
  {
    events != [] ==>
      && Legal(w, events[0]) && Honest(w, events[0], k, origin)
      && Runs(Next(w, events[0]), events[1..], k, origin)
  }

  ghost function Final(w: World, events: seq<Event>, k: FloodKey, origin: Node): World
    requires Runs(w, events, k, origin)
    decreases |events|
  {
    if events == [] then w else Final(Next(w, events[0]), events[1..], k, origin)
  }

  lemma {:induction false} RunTracks(w: World, events: seq<Event>, k: FloodKey, origin: Node)
    requires Tracked(w, k, origin) && Runs(w, events, k, origin)
    ensures Tracked(Final(w, events, k, origin), k, origin)
    decreases |events|
  {
    hide Tracked, Next, Honest;
    if events != [] {
      EventTracks(w, k, origin, events[0]);
      RunTracks(Next(w, events[0]), events[1..], k, origin);
    }
  }

  /** Nothing of the request exists yet; tokens are in order. */
  ghost predicate Unborn(w: World, k: FloodKey) {
    && ZERO_ID !in w.issued
    && (forall c :: c in w.wires ==> w.wires[c] in w.wires && w.wires[w.wires[c]] == c)
    && (forall n :: n in w.routers ==> Ledger(w.issued, n, w.routers[n].edges))
    && (forall n, s :: n in w.routers && s in w.routers[n].parkedIn ==>
          w.routers[n].parkedIn[s].request.kind.Discover? && KeyOf(w.routers[n].parkedIn[s].request) != k)
    && (forall p :: p in w.flight ==> KeyOf(p.frame) != k)
    && (forall d :: d in w.delivered ==> KeyOf(d.1) != k)
  }

  /** Answers, challenges and refusals of a request are handed over at its origin and
      nowhere else, in every run: frames delayed, reordered, duplicated or lost,
      connections replaced at any moment, any other traffic. */
  lemma AnswersReachOnlyTheOrigin(w: World, events: seq<Event>, k: FloodKey, origin: Node, node: Node, f: Frame)
    requires Unborn(w, k) && Runs(w, events, k, origin)
    requires (node, f) in Final(w, events, k, origin).delivered && KeyOf(f) == k && Quiet(f.kind)
    ensures node == origin
  {
    hide Ledger, Leads;
    assert Tracked(w, k, origin);
    RunTracks(w, events, k, origin);
  }
}
