/** The ordered table of connections that a router keeps (src/control_router.hpp). */
module EdgeTable {
  import opened Bytes
  import opened ControlRouter
  import opened RouterNetwork

  lemma {:induction false} BeforeIrreflexive(a: bytes)
    ensures !Before(a, a)
  {
    if a != [] { BeforeIrreflexive(a[1..]); }
  }

  lemma {:induction false} BeforeTransitive(a: bytes, b: bytes, c: bytes)
    requires Before(a, b) && Before(b, c)
    ensures Before(a, c)
  {
    if a != [] && a[0] == b[0] && b[0] == c[0] { BeforeTransitive(a[1..], b[1..], c[1..]); }
  }

  lemma {:induction false} BeforeTotal(a: bytes, b: bytes)
    ensures Before(a, b) || a == b || Before(b, a)
  {
    if a != [] && b != [] && a[0] == b[0] {
      BeforeTotal(a[1..], b[1..]);
      assert a == [a[0]] + a[1..] && b == [b[0]] + b[1..];
    }
  }

  lemma OrderedIsDistinct(edges: seq<Edge>)
    requires Ordered(edges)
    ensures DistinctNames(edges)
  {
    forall i, j | 0 <= i < j < |edges| ensures edges[i].name != edges[j].name {
      BeforeIrreflexive(edges[i].name);
    }
  }

  /** Every name of `edges` comes after `name`. */
  predicate AllAfter(name: bytes, edges: seq<Edge>) {
    forall e :: e in edges ==> Before(name, e.name)
  }

  lemma ConsOrdered(e: Edge, edges: seq<Edge>)
    ensures Ordered([e] + edges) <==> AllAfter(e.name, edges) && Ordered(edges)
  {
    var all := [e] + edges;
    if Ordered(all) {
      forall x | x in edges ensures Before(e.name, x.name) {
        var i :| 0 <= i < |edges| && edges[i] == x;
        assert all[i + 1] == x && Before(all[0].name, all[i + 1].name);
      }
      forall i, j | 0 <= i < j < |edges| ensures Before(edges[i].name, edges[j].name) {
        assert all[i + 1] == edges[i] && all[j + 1] == edges[j];
      }
    }
  }

  /** Insertion or replacement keeps the order, and holds exactly the new edge and the
      old edges of other names. */
  lemma {:induction false} UpsertIsExact(edges: seq<Edge>, e: Edge)
    requires Ordered(edges)
    ensures Ordered(Upsert(edges, e))
    ensures forall x :: x in Upsert(edges, e) <==> x == e || (x in edges && x.name != e.name)
  {
    hide Ordered, Before;
    if edges == [] {
      ConsOrdered(e, []);
      assert Ordered([e]) by { assert [e] + [] == [e]; EmptyOrdered(); }
    } else {
      var head, rest := edges[0], edges[1..];
      assert edges == [head] + rest;
      ConsOrdered(head, rest);
      BeforeIrreflexive(head.name);
      if head.name == e.name {
        ConsOrdered(e, rest);
      } else if Before(e.name, head.name) {
        forall x | x in edges ensures Before(e.name, x.name) {
          if x in rest { BeforeTransitive(e.name, head.name, x.name); }
        }
        BeforeIrreflexive(e.name);
        ConsOrdered(e, edges);
      } else {
        BeforeTotal(head.name, e.name);
        UpsertIsExact(rest, e);
        ConsOrdered(head, Upsert(rest, e));
      }
    }
  }

  lemma EmptyOrdered()
    ensures Ordered([])
  {
  }

  lemma {:induction false} RemoveIsExact(edges: seq<Edge>, name: bytes)
    requires Ordered(edges)
    ensures Ordered(Remove(edges, name))
    ensures forall x :: x in Remove(edges, name) <==> x in edges && x.name != name
  {
    hide Ordered, Before;
    if edges == [] {
    } else {
      var head, rest := edges[0], edges[1..];
      assert edges == [head] + rest;
      ConsOrdered(head, rest);
      BeforeIrreflexive(head.name);
      if head.name != name {
        RemoveIsExact(rest, name);
        ConsOrdered(head, Remove(rest, name));
      }
    }
  }

  lemma {:induction false} IndexOfDistinct(edges: seq<Edge>, i: nat)
    requires DistinctNames(edges) && i < |edges|
    ensures IndexOf(edges, edges[i].name) == i
  {
    if i > 0 {
      assert edges[0].name != edges[i].name;
      IndexOfDistinct(edges[1..], i - 1);
    }
  }

  /** The effect of `set_edge`, by name: the others stay, a generation of zero removes,
      an unchanged generation keeps everything but the size limit, a changed one starts
      a connection without a token. */
  ghost predicate Retabled(edges: seq<Edge>, after: seq<Edge>, name: bytes, generation: nat, peer: bool, limit: nat) {
    && Ordered(after)
    && (forall x: Edge :: x.name != name ==> (x in after <==> x in edges))
    && (forall x :: x in after && x.name == name ==> generation != 0 && IsNewEdge(edges, x, generation, peer, limit))
    && (generation != 0 ==> exists x :: x in after && x.name == name)
  }

  ghost predicate IsNewEdge(edges: seq<Edge>, x: Edge, generation: nat, peer: bool, limit: nat) {
    || (exists e :: e in edges && e.name == x.name && e.generation == generation && x == e.(limit := limit))
    || ((forall e :: e in edges && e.name == x.name ==> e.generation != generation)
        && x == Edge(x.name, generation, ZERO_ID, peer, limit))
  }

  lemma SetEdgeIsExact(r: Router, name: bytes, generation: nat, peer: bool, limit: nat)
    requires Ordered(r.edges)
    ensures var after := SetEdge(r, name, generation, peer, limit);
            after == r.(edges := after.edges) && Retabled(r.edges, after.edges, name, generation, peer, limit)
  {
    hide Ordered, Upsert, Remove, IndexOf, Retabled;
    OrderedIsDistinct(r.edges);
    var i := IndexOf(r.edges, name);
    if generation == 0 {
      RemoveRetables(r.edges, name, peer, limit);
    } else if i == |r.edges| || r.edges[i].generation != generation {
      InsertRetables(r.edges, name, generation, peer, limit);
    } else {
      RelimitRetables(r.edges, i, peer, limit);
    }
  }

  lemma RemoveRetables(edges: seq<Edge>, name: bytes, peer: bool, limit: nat)
    requires Ordered(edges)
    ensures Retabled(edges, Remove(edges, name), name, 0, peer, limit)
  {
    hide Ordered, Remove;
    RemoveIsExact(edges, name);
  }

  lemma OnlyAt(edges: seq<Edge>, x: Edge)
    requires DistinctNames(edges) && x in edges
    ensures IndexOf(edges, x.name) < |edges| && edges[IndexOf(edges, x.name)] == x
  {
    var j :| 0 <= j < |edges| && edges[j] == x;
    IndexOfDistinct(edges, j);
  }

  lemma InsertRetables(edges: seq<Edge>, name: bytes, generation: nat, peer: bool, limit: nat)
    requires Ordered(edges) && DistinctNames(edges) && generation != 0
    requires var i := IndexOf(edges, name); i == |edges| || edges[i].generation != generation
    ensures Retabled(edges, Upsert(edges, Edge(name, generation, ZERO_ID, peer, limit)), name, generation, peer, limit)
  {
    hide Ordered, Upsert, IndexOf;
    var e := Edge(name, generation, ZERO_ID, peer, limit);
    UpsertIsExact(edges, e);
    forall x | x in edges && x.name == name ensures x.generation != generation {
      OnlyAt(edges, x);
    }
    assert e in Upsert(edges, e);
  }

  lemma RelimitRetables(edges: seq<Edge>, i: nat, peer: bool, limit: nat)
    requires Ordered(edges) && DistinctNames(edges) && i < |edges| && edges[i].generation != 0
    ensures Retabled(edges, edges[i := edges[i].(limit := limit)], edges[i].name, edges[i].generation, peer, limit)
  {
    hide Ordered;
    RelimitIsExact(edges, i, limit);
    var after := edges[i := edges[i].(limit := limit)];
    assert edges[i] in edges;
    forall x | x in after && x.name == edges[i].name ensures IsNewEdge(edges, x, edges[i].generation, peer, limit) {
      assert x == edges[i].(limit := limit);
    }
  }

  lemma RelimitIsExact(edges: seq<Edge>, i: nat, limit: nat)
    requires Ordered(edges) && DistinctNames(edges) && i < |edges|
    ensures var after := edges[i := edges[i].(limit := limit)];
            && Ordered(after)
            && (forall x :: x in after ==> (x.name == edges[i].name ==> x == edges[i].(limit := limit)))
            && (forall x: Edge :: x.name != edges[i].name ==> (x in after <==> x in edges))
            && edges[i].(limit := limit) in after
  {
    hide Before;
    var after := edges[i := edges[i].(limit := limit)];
    assert after[i] in after;
    forall x: Edge | x.name != edges[i].name && x in edges ensures x in after {
      var j :| 0 <= j < |edges| && edges[j] == x;
      assert after[j] == x;
    }
  }
}
