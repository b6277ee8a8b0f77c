/** The problem journal as the object it is (fabric/journal.py): a table and two
    dictionaries that an observation updates row by row, proved against `Journal`. */
module JournalObject {
  import opened Bytes
  import J = Journal

  /** Notes for the first `n` rows that `who` selects. */
  function Upto(notes: map<nat, J.Note>, n: nat): map<nat, J.Note> {
    map i | i in notes && i < n :: notes[i]
  }

  lemma MarkNone(b: J.Book, notes: map<nat, J.Note>)
    ensures J.Marked(b, Upto(notes, 0)) == b
  {
    hide J.Noted, J.Recovery;
    var after := J.Marked(b, Upto(notes, 0));
    assert after.rows == b.rows;
    assert after.recovery == b.recovery;
  }

  lemma MarkAll(b: J.Book, notes: map<nat, J.Note>)
    requires forall i :: i in notes ==> i < |b.rows|
    ensures J.Marked(b, Upto(notes, |b.rows|)) == J.Marked(b, notes)
  {
    assert Upto(notes, |b.rows|) == notes;
  }

  /** Marking one more row. */
  lemma MarkNext(b: J.Book, notes: map<nat, J.Note>, n: nat)
    requires n < |b.rows|
    ensures var done := J.Marked(b, Upto(notes, n));
            && done.rows[n] == b.rows[n] && J.Get(done.recovery, n) == J.Get(b.recovery, n)
            && J.Marked(b, Upto(notes, n + 1))
               == if n in notes then
                    done.(rows := done.rows[n := J.Noted(b.rows[n], J.Get(b.recovery, n), notes[n])],
                          recovery := Put(done.recovery, n, J.Recovery(J.Get(b.recovery, n), notes[n])))
                  else done
  {
    hide J.Noted, J.Recovery, J.Marked, Put, Upto;
    var done, next := J.Marked(b, Upto(notes, n)), J.Marked(b, Upto(notes, n + 1));
    RowsAre(b, Upto(notes, n));
    RowsAre(b, Upto(notes, n + 1));
    UptoIs(notes, n);
    UptoIs(notes, n + 1);
    EntryIs(b, Upto(notes, n), n);
    if n in notes {
      var v := J.Recovery(J.Get(b.recovery, n), notes[n]);
      assert next.rows == done.rows[n := J.Noted(b.rows[n], J.Get(b.recovery, n), notes[n])];
      forall i: nat ensures J.Get(next.recovery, i) == J.Get(Put(done.recovery, n, v), i) {
        EntryIs(b, Upto(notes, n), i);
        EntryIs(b, Upto(notes, n + 1), i);
        PutIs(done.recovery, n, v, i);
      }
      SameGets(next.recovery, Put(done.recovery, n, v));
    } else {
      assert Upto(notes, n + 1) == Upto(notes, n);
    }
  }

  lemma UptoIs(notes: map<nat, J.Note>, n: nat)
    ensures forall i :: i in Upto(notes, n) <==> i in notes && i < n
    ensures forall i :: i in Upto(notes, n) ==> Upto(notes, n)[i] == notes[i]
  {
  }

  lemma RowsAre(b: J.Book, notes: map<nat, J.Note>)
    ensures var after := J.Marked(b, notes);
            && |after.rows| == |b.rows| && after.samples == b.samples
            && forall i :: 0 <= i < |b.rows| ==>
                 after.rows[i] == if i in notes then J.Noted(b.rows[i], J.Get(b.recovery, i), notes[i]) else b.rows[i]
  {
    hide J.Noted, J.Recovery;
  }

  lemma EntryIs(b: J.Book, notes: map<nat, J.Note>, i: nat)
    ensures J.Get(J.Marked(b, notes).recovery, i)
            == if i in notes then J.Recovery(J.Get(b.recovery, i), notes[i]) else J.Get(b.recovery, i)
  {
    hide J.Noted, J.Recovery;
  }

  lemma PutIs(m: map<nat, (real, real)>, i: nat, v: Option<(real, real)>, k: nat)
    ensures J.Get(Put(m, i, v), k) == if k == i then v else J.Get(m, k)
  {
  }

  lemma SameGets(m: map<nat, (real, real)>, k: map<nat, (real, real)>)
    requires forall i: nat :: J.Get(m, i) == J.Get(k, i)
    ensures m == k
  {
    forall i: nat ensures i in m <==> i in k { assert J.Get(m, i) == J.Get(k, i); }
    forall i: nat | i in m ensures m[i] == k[i] { assert J.Get(m, i) == J.Get(k, i); }
  }

  function Put(m: map<nat, (real, real)>, i: nat, v: Option<(real, real)>): map<nat, (real, real)> {
    if v.Some? then m[i := v.value] else m - {i}
  }

  class Store {
    var rows: seq<J.Problem>
    var samples: map<string, real>
    var recovery: map<nat, (real, real)>

    ghost function State(): J.Book
      reads this
    {
      J.Book(rows, samples, recovery)
    }

    constructor ()
      ensures State() == J.Book([], map[], map[])
    {
      rows, samples, recovery := [], map[], map[];
    }

    /** Updates one row and the recovery in progress for it. */
    method Mark(i: nat, n: J.Note)
      requires i < |rows|
      modifies `rows, `recovery
      ensures rows == old(rows)[i := J.Noted(old(rows)[i], J.Get(old(recovery), i), n)]
      ensures recovery == Put(old(recovery), i, J.Recovery(J.Get(old(recovery), i), n))
    {
      var row := rows[i];
      match n {
        case Fault(t) =>
          recovery := recovery - {i};
          row := row.(seen := t, count := row.count + 1);
        case Healthy(t) =>
          var ends := if i in recovery then recovery[i] else (t, t);
          var first := if 0.0 < t - ends.1 <= 15.0 then ends.0 else t;
          if t - first >= 30.0 {
            row := row.(state := J.Resolved, ended := Some(t));
            recovery := recovery - {i};
          } else {
            recovery := recovery[i := (first, t)];
          }
        case Missing =>
          row := row.(state := J.Unknown);
          recovery := recovery - {i};
        case _ => recovery := recovery - {i};
      }
      rows := rows[i := row];
    }

    /** Marks the active rows of targets that are gone. */
    method MarkAbsent(present: set<string>)
      modifies this
      ensures State() == J.Absent(old(State()), present)
    {
      hide J.Marked, J.Noted, J.Recovery;
      samples := map t | t in samples && t in present :: samples[t];
      ghost var b := State();
      ghost var notes: map<nat, J.Note> := map i | 0 <= i < |b.rows| && b.rows[i].state.Active?
          && b.rows[i].target !in present :: J.Missing;
      MarkNone(b, notes);
      for i := 0 to |rows|
        invariant |rows| == |b.rows| && State() == J.Marked(b, Upto(notes, i))
      {
        MarkNext(b, notes, i);
        if rows[i].state.Active? && rows[i].target !in present { Mark(i, J.Missing); }
      }
      MarkAll(b, notes);
    }

    method MarkStale(target: string)
      modifies this
      ensures State() == J.Marked(old(State()), J.StaleNotes(old(State()), target))
    {
      hide J.Marked, J.Noted, J.Recovery;
      ghost var b := State();
      ghost var notes := J.StaleNotes(b, target);
      MarkNone(b, notes);
      for i := 0 to |rows|
        invariant |rows| == |b.rows| && State() == J.Marked(b, Upto(notes, i))
      {
        MarkNext(b, notes, i);
        if rows[i].state.Active? && rows[i].target == target { Mark(i, J.Stale); }
      }
      MarkAll(b, notes);
    }

    /** What a new sample means for the active rows of its endpoint. */
    method MarkSampled(e: J.Endpoint)
      requires e.sample.Some?
      modifies this
      ensures State() == J.Marked(old(State()), J.SampleNotes(old(State()), e))
    {
      hide J.Marked, J.Noted, J.Recovery, J.NoteOf;
      ghost var b := State();
      ghost var notes := J.SampleNotes(b, e);
      MarkNone(b, notes);
      for i := 0 to |rows|
        invariant |rows| == |b.rows| && State() == J.Marked(b, Upto(notes, i))
      {
        MarkNext(b, notes, i);
        if rows[i].state.Active? && rows[i].target == e.id { Mark(i, J.NoteOf(e, rows[i].code)); }
      }
      MarkAll(b, notes);
    }

    /** One endpoint of an observation. */
    method Visit(e: J.Endpoint, tick: real)
      modifies this
      ensures State() == J.Visit(old(State()), e, tick)
    {
      hide J.Marked, J.Noted, J.NoteOf, J.Opened, J.FaultOrder, J.Open;
      if !(e.reachable && e.sample.Some? && -5.0 <= tick - e.sample.value <= 15.0) {
        MarkStale(e.id);
        return;
      }
      if e.id in samples && samples[e.id] >= e.sample.value { return; }
      ghost var b := State();
      var before := J.Book(rows, samples, recovery);
      samples := samples[e.id := e.sample.value];
      assert J.SampleNotes(State(), e) == J.SampleNotes(b, e);
      MarkSampled(e);
      OpenMissing(before, e);
    }

    /** Opens a problem for every fault that had no active one. */
    method OpenMissing(before: J.Book, e: J.Endpoint)
      requires e.sample.Some?
      modifies `rows
      ensures State() == J.Opened(old(State()), before, e, J.FaultOrder(e.checks))
    {
      hide J.Open, J.FaultOrder, J.NewRow;
      var codes := J.FaultOrder(e.checks);
      ghost var base := State();
      for i := 0 to |codes|
        invariant State() == J.Opened(base, before, e, codes[..i])
      {
        assert codes[..i + 1][..i] == codes[..i] && codes[..i + 1][i] == codes[i];
        if !J.Open(before, e.id, codes[i]) { rows := rows + [J.NewRow(e, codes[i])]; }
      }
      assert codes[..|codes|] == codes;
    }

    /** `_observe_problems`. */
    method ObserveProblems(endpoints: seq<J.Endpoint>, tick: real)
      modifies this
      ensures State() == J.Observe(old(State()), endpoints, tick)
    {
      hide J.Absent, J.Visit;
      var present := set e | e in endpoints :: e.id;
      MarkAbsent(present);
      ghost var base := State();
      for i := 0 to |endpoints|
        invariant State() == J.Visits(base, endpoints[..i], tick)
      {
        assert endpoints[..i + 1][..i] == endpoints[..i] && endpoints[..i + 1][i] == endpoints[i];
        Visit(endpoints[i], tick);
      }
      assert endpoints[..|endpoints|] == endpoints;
    }
  }
}
