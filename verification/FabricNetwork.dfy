/** The table of remote components (fabric/network.py): discovery results, polls, reads and
    expiry act on it in any interleaving, each under its lock. */
module FabricNetwork {
  import opened Bytes
  import opened ControlRoute

  const ROUTES_PER_NODE := 8
  const REQUESTS := 16
  const REQUESTS_PER_ORIGIN := 4
  const SAMPLE_LIMIT := 65536
  const CACHE_LIMIT := 2097152
  const EXPIRY := 600.0

  /** A path as seen from an origin. Its text form is injective, so the path stands for it. */
  datatype Token = Token(origin: string, route: Path)

  datatype Binding = Binding(token: Token, seen: real)

  datatype Sample = Pending | Reachable(metrics: string) | Unavailable

  /** `routes` is the insertion-ordered dictionary of current paths to the component. */
  datatype Node = Node(routes: seq<Binding>, next: real, failures: nat, seen: real, success: real,
                       size: nat, preferred: Option<Token>, sample: Sample)

  datatype Endpoint = Endpoint(kind: string, socket: string, port: bytes, namespace: string)

  /** What an outstanding request is for. */
  datatype Purpose = Discovery(origin: string) | Component(instance: string)

  datatype Table = Table(local: map<string, Endpoint>, origins: map<string, Endpoint>,
                         localInstances: map<string, set<string>>, nodes: map<string, Node>,
                         active: set<Purpose>, originActive: map<string, int>, limit: nat, truncated: bool)

  datatype Row = Row(instance: string, route: Path)

  // ---------------------------------------------------------------- discovery

  predicate Attached(e: Endpoint, entry: Endpoint, port: bytes) {
    e.socket != "" && e.socket == entry.socket && e.port == port && e.namespace != "" && e.namespace == entry.namespace
  }

  /** A row names something local: the origin itself, or the one direct attachment. */
  predicate IsLocal(t: Table, entry: Endpoint, row: Row) {
    || row.route == []
    || (entry.kind == "switch" && |row.route| == 1 && row.route[0].kind.PortHop?
        && |set i | i in t.local && Attached(t.local[i], entry, row.route[0].value)| == 1)
  }

  function LocalIds(t: Table, entry: Endpoint, rows: seq<Row>): set<string> {
    set row | row in rows && IsLocal(t, entry, row) :: row.instance
  }

  function AllLocal(localInstances: map<string, set<string>>): set<string> {
    set o, i | o in localInstances && i in localInstances[o] :: i
  }

  function Unbound(routes: seq<Binding>, token: Token): seq<Binding> {
    if routes == [] then []
    else
      Unbound(routes[..|routes| - 1], token)
      + (if routes[|routes| - 1].token == token then [] else [routes[|routes| - 1]])
  }

  predicate Binds(routes: seq<Binding>, token: Token) {
    exists i :: 0 <= i < |routes| && routes[i].token == token
  }

  /** Dictionary assignment: in place if present, else at the end; a full one stays. */
  function Bound(routes: seq<Binding>, b: Binding): seq<Binding> {
    if Binds(routes, b.token) then Rebound(routes, b)
    else if |routes| < ROUTES_PER_NODE then routes + [b]
    else routes
  }

  function Rebound(routes: seq<Binding>, b: Binding): seq<Binding> {
    seq(|routes|, i requires 0 <= i < |routes| => if routes[i].token == b.token then b else routes[i])
  }

  const NEW_NODE := Node([], 0.0, 0, 0.0, 0.0, 0, None, Pending)

  /** One announced row. */
  function Announced(nodes: map<string, Node>, row: Row, token: Token, now: real): map<string, Node> {
    var node := if row.instance in nodes then nodes[row.instance] else NEW_NODE;
    map i | i in nodes.Keys + {row.instance} ::
      if i == row.instance then node.(seen := now, routes := Bound(node.routes, Binding(token, now)))
      else nodes[i].(routes := Unbound(nodes[i].routes, token))
  }

  function IngestRow(t: Table, local: set<string>, origin: string, row: Row, now: real): Table {
    if row.instance in local || row.route == [] then t
    else if row.instance !in t.nodes && |t.nodes| >= t.limit then t.(truncated := true)
    else t.(nodes := Announced(t.nodes, row, Token(origin, row.route), now))
  }

  function IngestRows(t: Table, local: set<string>, origin: string, rows: seq<Row>, now: real): Table {
    if rows == [] then t
    else IngestRow(IngestRows(t, local, origin, rows[..|rows| - 1], now), local, origin, rows[|rows| - 1], now)
  }

  /** What an origin's discovery tells, taken up as a whole. */
  function Ingest(t: Table, origin: string, rows: seq<Row>, now: real): Table {
    if origin !in t.origins then t
    else
      var localInstances := t.localInstances[origin := LocalIds(t, t.origins[origin], rows)];
      var local := AllLocal(localInstances);
      IngestRows(t.(localInstances := localInstances, nodes := t.nodes - local), local, origin, rows, now)
  }

  /** New local endpoints and the origins among them. */
  function Update(t: Table, local: map<string, Endpoint>, origins: map<string, Endpoint>): Table {
    t.(local := local, origins := origins,
       localInstances := map o | o in t.localInstances && o in origins :: t.localInstances[o])
  }

  // ---------------------------------------------------------------- requests

  function Running(counts: map<string, int>, origin: string): int {
    if origin in counts then counts[origin] else 0
  }

  predicate Free(t: Table, key: Purpose, origin: string) {
    key !in t.active && |t.active| < REQUESTS && Running(t.originActive, origin) < REQUESTS_PER_ORIGIN
  }

  function Reserve(t: Table, key: Purpose, origin: string): Table {
    if Free(t, key, origin)
    then t.(active := t.active + {key}, originActive := t.originActive[origin := Running(t.originActive, origin) + 1])
    else t
  }

  function Release(t: Table, key: Purpose, origin: string): Table {
    var count := (if origin in t.originActive then t.originActive[origin] else 1) - 1;
    t.(active := t.active - {key},
       originActive := if count != 0 then t.originActive[origin := count] else t.originActive - {origin})
  }

  /** The cached bytes of all nodes. */
  ghost function SumOf(sizes: map<string, nat>): nat
    decreases |sizes|
  {
    if sizes == map[] then 0 else var k := AnyOf(sizes.Keys); sizes[k] + SumOf(sizes - {k})
  }

  function Sizes(nodes: map<string, Node>): map<string, nat> {
    map i | i in nodes :: nodes[i].size
  }

  /** A result of a poll, recorded if its path still belongs to the component. */
  ghost function FinishPoll(t: Table, instance: string, token: Token, sample: Sample, size: nat, now: real,
                            interval: real): Table {
    if instance !in t.nodes || !Binds(t.nodes[instance].routes, token) then t
    else
      var node := t.nodes[instance];
      var fits := size <= SAMPLE_LIMIT && SumOf(Sizes(t.nodes - {instance})) + size <= CACHE_LIMIT;
      var taken := if fits then sample else Unavailable;
      t.(nodes := t.nodes[instance := Recorded(node, token, taken, if fits then size else 0, now, interval)])
  }

  const READS := {"stats", "flows", "show", "classifier-show", "classifier-check", "classifier-load",
                  "classifier-load-flush", "classifier-disable"}

  /** What a reader is told. */
  datatype Reply = Forbidden | Unlisted | NoPath | Busy | PathChanged | Answer(text: string)

  /** The answer to a read, given out if its path still belongs to the component. */
  function ReadReply(t: Table, instance: string, token: Token, text: string): Reply {
    if instance in t.nodes && Binds(t.nodes[instance].routes, token) then Answer(text) else PathChanged
  }

  function Power2(n: nat): real { if n == 0 then 1.0 else 2.0 * Power2(n - 1) }

  function Recorded(node: Node, token: Token, sample: Sample, size: nat, now: real, interval: real): Node {
    var failures := if sample.Reachable? then 0 else node.failures + 1;
    var backoff := interval * Power2(if failures < 5 then failures else 5);
    var next := now + if backoff < 120.0 then backoff else 120.0;
    if sample.Reachable?
    then node.(size := size, sample := sample, failures := 0, success := now, preferred := Some(token), next := next)
    else node.(size := size, sample := sample, failures := failures, preferred := None, next := next,
               routes := Rotated(node.routes, token))
  }

  /** A failed path goes to the end of the queue. */
  function Rotated(routes: seq<Binding>, token: Token): seq<Binding> {
    Unbound(routes, token) + Only(routes, token)
  }

  function Only(routes: seq<Binding>, token: Token): seq<Binding> {
    if routes == [] then [] else if routes[0].token == token then [routes[0]] else Only(routes[1..], token)
  }

  predicate Expired(t: Table, instance: string, now: real)
    requires instance in t.nodes
  {
    var node := t.nodes[instance];
    now - (if node.seen >= node.success then node.seen else node.success) > EXPIRY && Component(instance) !in t.active
  }

  function Expire(t: Table, instance: string, now: real): Table {
    if instance in t.nodes && Expired(t, instance, now) then t.(nodes := t.nodes - {instance}) else t
  }

  /** Usable paths: the origin is still one, and the path was announced lately. */
  predicate Usable(t: Table, b: Binding, now: real) {
    b.token.origin in t.origins && now - b.seen < EXPIRY
  }

  // ---------------------------------------------------------------- sums over maps

  ghost function AnyOf(s: set<string>): (x: string)
    requires s != {}
    ensures x in s
  {
    var x :| x in s; x
  }

  /** The sum does not depend on the order of the entries. */
  lemma {:induction false} SumWithout(m: map<string, nat>, k: string)
    requires k in m
    ensures SumOf(m) == m[k] + SumOf(m - {k})
    decreases |m|
  {
    var x := AnyOf(m.Keys);
    if x != k {
      SumWithout(m - {x}, k);
      SumWithout(m - {k}, x);
      assert m - {x} - {k} == m - {k} - {x};
    }
  }

  lemma {:induction false} SumOfPart(m: map<string, nat>, part: map<string, nat>)
    requires forall k :: k in part ==> k in m && part[k] <= m[k]
    ensures SumOf(part) <= SumOf(m)
    decreases |part|
  {
    if part != map[] {
      var x := AnyOf(part.Keys);
      SumWithout(m, x);
      SumOfPart(m - {x}, part - {x});
    }
  }
}
