/** Every run of observations and restarts of the problem journal (fabric/journal.py). */
module JournalRuns {
  import opened Bytes
  import opened Journal
  import opened JournalMoments

  // ---------------------------------------------------------------- events and moments

  datatype Event = Observed(endpoints: seq<Endpoint>, tick: real) | Restarted

  function After(b: Book, ev: Event): Book {
    match ev
    case Observed(endpoints, tick) => Observe(b, endpoints, tick)
    case Restarted => Restart(b)
  }

  ghost function Run(events: seq<Event>): Book {
    if events == [] then Book([], map[], map[]) else After(Run(events[..|events| - 1]), events[|events| - 1])
  }

  function Showings(endpoints: seq<Endpoint>, tick: real, target: string): seq<Moment> {
    if endpoints == [] then []
    else
      var last := |endpoints| - 1;
      Showings(endpoints[..last], tick, target)
      + if endpoints[last].id == target then [Shown(endpoints[last], tick)] else []
  }

  /** What an event shows of a target. A restart, like an observation without it, shows it gone. */
  function Shows(ev: Event, target: string): seq<Moment> {
    if ev.Restarted? || forall e :: e in ev.endpoints ==> e.id != target then [Gone]
    else Showings(ev.endpoints, ev.tick, target)
  }

  /** All that the events show of a target. */
  function Moments(events: seq<Event>, target: string): seq<Moment> {
    if events == [] then [] else Moments(events[..|events| - 1], target) + Shows(events[|events| - 1], target)
  }

  // ---------------------------------------------------------------- single steps

  /** An event, taken apart: who is there, then one endpoint after the other. */
  datatype Step = Leave(present: set<string>) | Show(e: Endpoint, tick: real)

  function Do(b: Book, s: Step): Book {
    match s
    case Leave(present) => Absent(b, present)
    case Show(e, tick) => Visit(b, e, tick)
  }

  function Sight(s: Step, target: string): seq<Moment> {
    match s
    case Leave(present) => if target in present then [] else [Gone]
    case Show(e, tick) => if e.id == target then [Shown(e, tick)] else []
  }

  /** The moments of a target in a row of steps. */
  function Past(steps: seq<Step>, target: string): seq<Moment> {
    if steps == [] then [] else Past(steps[..|steps| - 1], target) + Sight(steps[|steps| - 1], target)
  }

  function SampleOf(b: Book, target: string): Option<real> {
    if target in b.samples then Some(b.samples[target]) else None
  }

  /** No two active problems of one kind at one target. */
  ghost predicate OneActive(rows: seq<Problem>) {
    forall i, j :: 0 <= i < j < |rows| && rows[i].state.Active? && rows[j].state.Active? ==>
      rows[i].target != rows[j].target || rows[i].code != rows[j].code
  }

  /** Where each problem begins and ends among the moments of its target. */
  type Spans = seq<(nat, nat)>

  ghost predicate RowIn(b: Book, steps: seq<Step>, spans: Spans, i: nat)
    requires i < |b.rows| == |spans|
  {
    var ms := Past(steps, b.rows[i].target);
    && RowOk(ms, b.rows[i], Get(b.recovery, i), spans[i].0, spans[i].1)
    && (b.rows[i].state.Active? ==> spans[i].1 == |ms|)
  }

  ghost predicate SamplesOk(b: Book, steps: seq<Step>) {
    forall t :: SampleOf(b, t) == Latest(Past(steps, t), |Past(steps, t)|)
  }

  /** Problems of one kind at one target follow each other. */
  ghost predicate Apart(rows: seq<Problem>, spans: Spans)
    requires |rows| == |spans|
  {
    forall i, j :: 0 <= i < j < |rows| && rows[i].target == rows[j].target && rows[i].code == rows[j].code ==>
      spans[i].1 <= spans[j].0
  }

  ghost predicate Covered(rows: seq<Problem>, spans: Spans, target: string, code: string, m: nat)
    requires |rows| == |spans|
  {
    exists i :: 0 <= i < |rows| && rows[i].target == target && rows[i].code == code && spans[i].0 <= m < spans[i].1
  }

  ghost predicate Inv(b: Book, steps: seq<Step>, spans: Spans) {
    && |b.rows| == |spans|
    && (forall i :: i in b.recovery ==> i < |b.rows|)
    && (forall i :: 0 <= i < |b.rows| ==> RowIn(b, steps, spans, i))
    && SamplesOk(b, steps) && Apart(b.rows, spans)
    && (forall t, code, m: nat :: m < |Past(steps, t)| && Faulty(Past(steps, t), m, code) ==>
        Covered(b.rows, spans, t, code, m))
  }

  // ---------------------------------------------------------------- opening

  predicate Distinct(s: seq<string>) {
    forall i, j :: 0 <= i < j < |s| ==> s[i] != s[j]
  }

  lemma DistinctSnoc(s: seq<string>, x: string)
    requires Distinct(s) && x !in s
    ensures Distinct(s + [x])
  {
    var r := s + [x];
    forall i, j | 0 <= i < j < |r| ensures r[i] != r[j] {
      if j == |s| { assert s[i] in s; }
    }
  }

  lemma {:induction false} AddNewIs(a: seq<string>, b: seq<string>)
    requires Distinct(a)
    ensures Distinct(AddNew(a, b))
    ensures forall x :: x in AddNew(a, b) <==> x in a || x in b
  {
    hide Distinct;
    if b != [] {
      AddNewIs(a, b[..|b| - 1]);
      var front := AddNew(a, b[..|b| - 1]);
      if b[|b| - 1] !in front { DistinctSnoc(front, b[|b| - 1]); }
    }
  }

  /** The faults of a sample are listed once each. */
  lemma {:induction false} FaultsOnce(checks: seq<Check>)
    ensures Distinct(FaultOrder(checks))
    ensures forall x :: x in FaultOrder(checks) <==> x in Faults(checks)
  {
    hide AddNew, CheckOrder, CheckFaults;
    if checks != [] {
      var last := |checks| - 1;
      FaultsOnce(checks[..last]);
      AddNewIs(FaultOrder(checks[..last]), CheckOrder(checks[last]));
      CheckOrderIs(checks[last]);
      forall x ensures x in FaultOrder(checks) <==> x in Faults(checks) {
        if x in Faults(checks) {
          var c :| c in checks && x in CheckFaults(c);
          assert c in checks[..last] || c == checks[last];
        }
        if x in CheckFaults(checks[last]) { assert checks[last] in checks; }
      }
    }
  }

  lemma CheckOrderIs(c: Check)
    ensures forall x :: x in CheckOrder(c) <==> x in CheckFaults(c)
  {
    if c.verdict.Warning? && c.key == ERRORS {
      forall x | x in CheckFaults(c) ensures x in CheckOrder(c) {
        var y :| y in c.counters && x == ERRORS_PREFIX + y;
        var i :| 0 <= i < |c.counters| && c.counters[i] == y;
        assert CheckOrder(c)[i] == x;
      }
    }
  }

  /** Rows are only added, one for each code that had none active. */
  ghost predicate Adds(base: Book, before: Book, e: Endpoint, codes: seq<string>, b: Book)
    requires e.sample.Some?
  {
    && b == base.(rows := b.rows) && base.rows <= b.rows
    && (forall i :: |base.rows| <= i < |b.rows| ==>
        b.rows[i].code in codes && b.rows[i] == NewRow(e, b.rows[i].code) && !Open(before, e.id, b.rows[i].code))
    && (forall i, j :: |base.rows| <= i < j < |b.rows| ==> b.rows[i].code != b.rows[j].code)
  }

  ghost predicate HasNew(base: Book, b: Book, code: string) {
    exists i :: |base.rows| <= i < |b.rows| && b.rows[i].code == code
  }

  lemma {:induction false} OpenedAdds(base: Book, before: Book, e: Endpoint, codes: seq<string>)
    requires e.sample.Some? && Distinct(codes)
    ensures Adds(base, before, e, codes, Opened(base, before, e, codes))
  {
    hide Open;
    if codes != [] {
      var last := |codes| - 1;
      OpenedAdds(base, before, e, codes[..last]);
      var front := Opened(base, before, e, codes[..last]);
      forall i | |base.rows| <= i < |front.rows|
        ensures front.rows[i].code != codes[last] && front.rows[i].code in codes
      {
        var k :| 0 <= k < last && codes[..last][k] == front.rows[i].code;
        assert codes[k] != codes[last];
      }
    }
  }

  lemma {:induction false} OpenedAll(base: Book, before: Book, e: Endpoint, codes: seq<string>)
    requires e.sample.Some?
    ensures base.rows <= Opened(base, before, e, codes).rows
    ensures forall c :: c in codes && !Open(before, e.id, c) ==> HasNew(base, Opened(base, before, e, codes), c)
  {
    hide Open;
    if codes != [] {
      var last := |codes| - 1;
      OpenedAll(base, before, e, codes[..last]);
      var front := Opened(base, before, e, codes[..last]);
      var all := Opened(base, before, e, codes);
      forall c | c in codes && !Open(before, e.id, c) ensures HasNew(base, all, c) {
        if c == codes[last] {
          assert all.rows[|front.rows|].code == c;
        } else {
          assert c in codes[..last] && HasNew(base, front, c);
          var i :| |base.rows| <= i < |front.rows| && front.rows[i].code == c;
          assert all.rows[i] == front.rows[i];
        }
      }
    }
  }

  // ---------------------------------------------------------------- what one step does

  /** An open row takes note of what its target shows; any other stays as it is. */
  ghost predicate OldRow(b: Book, after: Book, ms: seq<Moment>, seen: seq<Moment>, i: nat)
    requires i < |b.rows| <= |after.rows|
  {
    var row, run := b.rows[i], Get(b.recovery, i);
    if row.state.Active? && seen != [] then
      var note := NoteAt(ms + seen, |ms|, row.code);
      after.rows[i] == NotedIf(row, run, note) && Get(after.recovery, i) == RecoveryIf(run, note)
    else
      after.rows[i] == row && Get(after.recovery, i) == run
  }

  /** The fault without an open problem that an endpoint shows. */
  ghost predicate Unopened(b: Book, steps: seq<Step>, s: Step, code: string) {
    && s.Show? && s.e.sample.Some? && !Open(b, s.e.id, code)
    && Faulty(Past(steps, s.e.id) + [Shown(s.e, s.tick)], |Past(steps, s.e.id)|, code)
  }

  ghost predicate NewRows(b: Book, after: Book, steps: seq<Step>, s: Step) {
    && (forall i :: |b.rows| <= i < |after.rows| ==>
          Unopened(b, steps, s, after.rows[i].code) && after.rows[i] == NewRow(s.e, after.rows[i].code))
    && (forall i, j :: |b.rows| <= i < j < |after.rows| ==> after.rows[i].code != after.rows[j].code)
    && (forall code :: Unopened(b, steps, s, code) ==> HasNew(b, after, code))
  }

  ghost predicate Advances(b: Book, after: Book, steps: seq<Step>, s: Step) {
    && |b.rows| <= |after.rows|
    && (forall i :: i in after.recovery ==> i < |b.rows|)
    && (forall i :: 0 <= i < |b.rows| ==>
        OldRow(b, after, Past(steps, b.rows[i].target), Sight(s, b.rows[i].target), i))
    && (forall t :: var ms := Past(steps, t) + Sight(s, t); SampleOf(after, t) == Latest(ms, |ms|))
    && NewRows(b, after, steps, s)
  }

  lemma MarkedIs(b: Book, notes: map<nat, Note>)
    requires forall i :: i in notes ==> i < |b.rows|
    requires forall i :: i in b.recovery ==> i < |b.rows|
    ensures var after := Marked(b, notes);
            && |after.rows| == |b.rows| && after.samples == b.samples
            && (forall i :: i in after.recovery ==> i < |b.rows|)
            && forall i :: 0 <= i < |b.rows| ==>
                 var note := if i in notes then Some(notes[i]) else None;
                 after.rows[i] == NotedIf(b.rows[i], Get(b.recovery, i), note)
                 && Get(after.recovery, i) == RecoveryIf(Get(b.recovery, i), note)
  {
    hide Noted, Recovery;
  }

  lemma LeaveAdvances(b: Book, steps: seq<Step>, present: set<string>)
    requires SamplesOk(b, steps) && forall i :: i in b.recovery ==> i < |b.rows|
    ensures Advances(b, Absent(b, present), steps, Leave(present))
  {
    hide Noted, Recovery, Marked, Past, Latest;
    var kept := b.(samples := map t | t in b.samples && t in present :: b.samples[t]);
    var notes: map<nat, Note> := map i | 0 <= i < |b.rows| && b.rows[i].state.Active?
        && b.rows[i].target !in present :: Missing;
    MarkedIs(kept, notes);
    var after := Absent(b, present);
    forall t ensures var ms := Past(steps, t) + Sight(Leave(present), t); SampleOf(after, t) == Latest(ms, |ms|) {
      LatestLeft(Past(steps, t), t, present);
    }
    forall i | 0 <= i < |b.rows|
      ensures OldRow(b, after, Past(steps, b.rows[i].target), Sight(Leave(present), b.rows[i].target), i)
    {
      if b.rows[i].state.Active? && b.rows[i].target !in present {
        GoneIsMissing(Past(steps, b.rows[i].target), b.rows[i].code);
      }
    }
  }

  lemma LatestLeft(ms: seq<Moment>, t: string, present: set<string>)
    ensures var ns := ms + Sight(Leave(present), t);
            Latest(ns, |ns|) == if t in present then Latest(ms, |ms|) else None
  {
    assert ms + [] == ms;
  }

  lemma GoneIsMissing(ms: seq<Moment>, code: string)
    ensures NoteAt(ms + [Gone], |ms|, code) == Some(Missing)
  {
  }

  /** What one more state of the endpoint means. */
  lemma ShownIs(ms: seq<Moment>, e: Endpoint, tick: real, code: string)
    ensures var ns := ms + [Shown(e, tick)];
            && (FreshAt(ns, |ms|) <==> Fresh(e, tick)) && (Fresh(e, tick) ==> e.sample.Some?)
            && (News(ns, |ms|) <==> Fresh(e, tick) && Exceeds(e.sample.value, Latest(ms, |ms|)))
            && Latest(ns, |ns|) == (if News(ns, |ms|) then e.sample else Latest(ms, |ms|))
            && (Faulty(ns, |ms|, code) <==> News(ns, |ms|) && code in Faults(e.checks))
            && NoteAt(ns, |ms|, code)
               == if !Fresh(e, tick) then Some(Stale) else if News(ns, |ms|) then Some(NoteOf(e, code)) else None
  {
    hide Faults, Heals;
    LatestStays(ms, ms + [Shown(e, tick)], |ms|);
  }

  lemma ShowAdvances(b: Book, steps: seq<Step>, e: Endpoint, tick: real)
    requires SamplesOk(b, steps) && forall i :: i in b.recovery ==> i < |b.rows|
    ensures Advances(b, Visit(b, e, tick), steps, Show(e, tick))
  {
    hide Noted, Recovery, Marked, Past, Latest, Fresh, NoteOf, Opened, FaultOrder, Faults, NoteAt, News, FreshAt,
        Faulty, Open;
    var s := Show(e, tick);
    var ms := Past(steps, e.id);
    var after := Visit(b, e, tick);
    assert SampleOf(b, e.id) == Latest(ms, |ms|);
    ShownIs(ms, e, tick, "");
    if !Fresh(e, tick) {
      MarkedIs(b, StaleNotes(b, e.id));
    } else if News(ms + [Shown(e, tick)], |ms|) {
      SampleAdvances(b, steps, e, tick);
    }
    if !News(ms + [Shown(e, tick)], |ms|) {
      forall i | 0 <= i < |b.rows|
        ensures OldRow(b, after, Past(steps, b.rows[i].target), Sight(s, b.rows[i].target), i)
      {
        ShownIs(ms, e, tick, b.rows[i].code);
      }
      forall t ensures var ns := Past(steps, t) + Sight(s, t); SampleOf(after, t) == Latest(ns, |ns|) {
        assert Past(steps, t) + [] == Past(steps, t);
      }
      forall code ensures !Unopened(b, steps, s, code) { ShownIs(ms, e, tick, code); }
    }
  }

  lemma SampleAdvances(b: Book, steps: seq<Step>, e: Endpoint, tick: real)
    requires SamplesOk(b, steps) && forall i :: i in b.recovery ==> i < |b.rows|
    requires Fresh(e, tick) && e.sample.Some? && Newer(b, e)
    ensures Advances(b, Visit(b, e, tick), steps, Show(e, tick))
  {
    hide Noted, Recovery, Marked, Past, Latest, Fresh, NoteOf, Opened, FaultOrder, Faults, NoteAt, News, FreshAt,
        Faulty, Open;
    var s := Show(e, tick);
    var ms := Past(steps, e.id);
    var sampled := b.(samples := b.samples[e.id := e.sample.value]);
    var notes := SampleNotes(b, e);
    var base := Marked(sampled, notes);
    var after := Visit(b, e, tick);
    MarkedIs(sampled, notes);
    FaultsOnce(e.checks);
    OpenedAdds(base, b, e, FaultOrder(e.checks));
    OpenedAll(base, b, e, FaultOrder(e.checks));
    assert after == Opened(base, b, e, FaultOrder(e.checks));
    assert SampleOf(b, e.id) == Latest(ms, |ms|);
    forall code ensures Unopened(b, steps, s, code) <==> code in FaultOrder(e.checks) && !Open(b, e.id, code) {
      ShownIs(ms, e, tick, code);
    }
    forall i | 0 <= i < |b.rows|
      ensures OldRow(b, after, Past(steps, b.rows[i].target), Sight(s, b.rows[i].target), i)
    {
      ShownIs(ms, e, tick, b.rows[i].code);
    }
    ShownIs(ms, e, tick, "");
    forall t ensures var ns := Past(steps, t) + Sight(s, t); SampleOf(after, t) == Latest(ns, |ns|) {
      assert Past(steps, t) + [] == Past(steps, t);
    }
    assert NewRows(b, after, steps, s) by {
      forall code | Unopened(b, steps, s, code) ensures HasNew(b, after, code) { assert HasNew(base, after, code); }
    }
  }

  // ---------------------------------------------------------------- every step

  ghost function NextSpans(b: Book, after: Book, steps: seq<Step>, s: Step, spans: Spans): (r: Spans)
    requires |b.rows| == |spans| <= |after.rows|
    ensures |r| == |after.rows|
  {
    seq(|after.rows|, i requires 0 <= i < |after.rows| =>
      var ms := Past(steps, after.rows[i].target);
      if i >= |b.rows| then (|ms|, |ms| + 1)
      else if b.rows[i].state.Active? then (spans[i].0, |ms + Sight(s, after.rows[i].target)|)
      else spans[i])
  }

  lemma PastSnoc(steps: seq<Step>, s: Step, t: string)
    ensures Past(steps + [s], t) == Past(steps, t) + Sight(s, t)
  {
    assert (steps + [s])[..|steps|] == steps;
  }

  lemma NotedSame(row: Problem, run: Option<(real, real)>, n: Option<Note>)
    ensures var r := NotedIf(row, run, n); r.target == row.target && r.code == row.code
  {
  }

  lemma OldRowKeeps(b: Book, after: Book, steps: seq<Step>, s: Step, spans: Spans, i: nat)
    requires Inv(b, steps, spans) && Advances(b, after, steps, s) && i < |b.rows|
    ensures after.rows[i].target == b.rows[i].target && after.rows[i].code == b.rows[i].code
    ensures RowIn(after, steps + [s], NextSpans(b, after, steps, s, spans), i)
  {
    hide RowOk, NotedIf, RecoveryIf, NoteAt, Past, SamplesOk, NewRows, Latest, Faulty, Covered;
    var row, run, t := b.rows[i], Get(b.recovery, i), b.rows[i].target;
    var ms, seen := Past(steps, t), Sight(s, t);
    assert RowIn(b, steps, spans, i) && OldRow(b, after, ms, seen, i);
    RowStays(ms, ms + seen, row, run, spans[i].0, spans[i].1);
    PastSnoc(steps, s, t);
    if row.state.Active? && seen != [] {
      NoteKeeps(ms + seen, row, run, spans[i].0, |ms|);
      NotedSame(row, run, NoteAt(ms + seen, |ms|, row.code));
    }
  }

  lemma NewRowKeeps(b: Book, after: Book, steps: seq<Step>, s: Step, spans: Spans, i: nat)
    requires Inv(b, steps, spans) && Advances(b, after, steps, s) && |b.rows| <= i < |after.rows|
    ensures RowIn(after, steps + [s], NextSpans(b, after, steps, s, spans), i)
  {
    hide RowOk, Past, SamplesOk, Latest, Faulty, Covered, Open, OldRow;
    var row := after.rows[i];
    assert Unopened(b, steps, s, row.code) && row == NewRow(s.e, row.code);
    var ms := Past(steps, s.e.id);
    NewRowOk(ms + [Shown(s.e, s.tick)], |ms|, row.code);
    PastSnoc(steps, s, s.e.id);
  }

  lemma ApartKeeps(b: Book, after: Book, steps: seq<Step>, s: Step, spans: Spans)
    requires Inv(b, steps, spans) && Advances(b, after, steps, s)
    ensures Apart(after.rows, NextSpans(b, after, steps, s, spans))
  {
    hide RowOk, Past, SamplesOk, Latest, Faulty, Covered, OldRow, NewRow;
    var next := NextSpans(b, after, steps, s, spans);
    forall i, j | 0 <= i < j < |after.rows| && after.rows[i].target == after.rows[j].target
        && after.rows[i].code == after.rows[j].code
      ensures next[i].1 <= next[j].0
    {
      if j < |b.rows| {
        OldRowKeeps(b, after, steps, s, spans, i);
        OldRowKeeps(b, after, steps, s, spans, j);
        OlderIsClosed(b, steps, spans, i, j);
      } else {
        NewRowIs(s.e, after.rows[j].code);
        assert Unopened(b, steps, s, after.rows[j].code);
        if i < |b.rows| {
          OldRowKeeps(b, after, steps, s, spans, i);
          assert Concerns(b, i, s.e.id) <==> b.rows[i].state.Active?;
          SpanInside(b, steps, spans, i);
        }
      }
    }
  }

  lemma SpanInside(b: Book, steps: seq<Step>, spans: Spans, i: nat)
    requires Inv(b, steps, spans) && i < |b.rows|
    ensures spans[i].0 < spans[i].1 <= |Past(steps, b.rows[i].target)|
  {
    hide Past, Counts, Stands, Covered, SamplesOk, Latest, Faulty;
    assert RowIn(b, steps, spans, i);
  }

  /** Of two problems of one kind at one target, the older is closed. */
  lemma OlderIsClosed(b: Book, steps: seq<Step>, spans: Spans, i: nat, j: nat)
    requires Inv(b, steps, spans) && i < j < |b.rows|
    requires b.rows[i].target == b.rows[j].target && b.rows[i].code == b.rows[j].code
    ensures !b.rows[i].state.Active? && spans[i].1 <= spans[j].0
  {
    hide Past, Counts, Stands, Covered, SamplesOk, Latest, Faulty;
    assert RowIn(b, steps, spans, i) && RowIn(b, steps, spans, j);
  }

  lemma NewRowIs(e: Endpoint, code: string)
    requires e.sample.Some?
    ensures NewRow(e, code).target == e.id && NewRow(e, code).code == code
  {
  }

  lemma OldCover(b: Book, after: Book, steps: seq<Step>, s: Step, spans: Spans, t: string, code: string, m: nat)
    requires Inv(b, steps, spans) && Advances(b, after, steps, s)
    requires m < |Past(steps, t)| && Covered(b.rows, spans, t, code, m)
    ensures Covered(after.rows, NextSpans(b, after, steps, s, spans), t, code, m)
  {
    hide RowOk, Past, SamplesOk, Latest, Faulty, OldRow, NewRow, Apart;
    var i :| 0 <= i < |b.rows| && b.rows[i].target == t && b.rows[i].code == code && spans[i].0 <= m < spans[i].1;
    OldRowKeeps(b, after, steps, s, spans, i);
    SpanInside(b, steps, spans, i);
  }

  /** A fault that the last step shows belongs to the open problem or to a new one. */
  lemma NewCover(b: Book, after: Book, steps: seq<Step>, s: Step, spans: Spans, t: string, code: string)
    requires Inv(b, steps, spans) && Advances(b, after, steps, s)
    requires s.Show? && s.e.id == t && s.e.sample.Some?
    requires Faulty(Past(steps, t) + [Shown(s.e, s.tick)], |Past(steps, t)|, code)
    ensures Covered(after.rows, NextSpans(b, after, steps, s, spans), t, code, |Past(steps, t)|)
  {
    hide RowOk, Past, SamplesOk, Latest, Faulty, OldRow, NewRow, Apart;
    if Open(b, t, code) {
      var i :| 0 <= i < |b.rows| && Concerns(b, i, t) && b.rows[i].code == code;
      OldRowKeeps(b, after, steps, s, spans, i);
      SpanInside(b, steps, spans, i);
    } else {
      assert Unopened(b, steps, s, code);
      var i :| |b.rows| <= i < |after.rows| && after.rows[i].code == code;
      NewRowIs(s.e, code);
    }
  }

  lemma CoverKeeps(b: Book, after: Book, steps: seq<Step>, s: Step, spans: Spans, t: string, code: string, m: nat)
    requires Inv(b, steps, spans) && Advances(b, after, steps, s)
    requires m < |Past(steps + [s], t)| && Faulty(Past(steps + [s], t), m, code)
    ensures Covered(after.rows, NextSpans(b, after, steps, s, spans), t, code, m)
  {
    hide RowOk, Past, SamplesOk, Faulty, OldRow, NewRow, Apart, Covered, Advances, RowIn;
    var ms := Past(steps, t);
    PastSnoc(steps, s, t);
    if m < |ms| {
      MomentStays(ms, Past(steps + [s], t), m, code);
      OldCover(b, after, steps, s, spans, t, code, m);
    } else {
      FaultIsShown(Past(steps + [s], t), m, code);
      NewCover(b, after, steps, s, spans, t, code);
    }
  }

  lemma FaultIsShown(ms: seq<Moment>, m: nat, code: string)
    requires m < |ms| && Faulty(ms, m, code)
    ensures ms[m].Shown? && ms[m].e.sample.Some?
  {
  }

  lemma StepKeeps(b: Book, steps: seq<Step>, s: Step, spans: Spans) returns (next: Spans)
    requires Inv(b, steps, spans)
    ensures Inv(Do(b, s), steps + [s], next)
  {
    hide RowOk, Past, Latest, Faulty, OldRow, NewRow, Apart, Covered, NewRows, Absent, Visit;
    var after := Do(b, s);
    match s {
      case Leave(present) => LeaveAdvances(b, steps, present);
      case Show(e, tick) => ShowAdvances(b, steps, e, tick);
    }
    next := NextSpans(b, after, steps, s, spans);
    forall i | 0 <= i < |after.rows| ensures RowIn(after, steps + [s], next, i) {
      if i < |b.rows| { OldRowKeeps(b, after, steps, s, spans, i); } else { NewRowKeeps(b, after, steps, s, spans, i); }
    }
    forall t ensures SampleOf(after, t) == Latest(Past(steps + [s], t), |Past(steps + [s], t)|) {
      PastSnoc(steps, s, t);
    }
    ApartKeeps(b, after, steps, s, spans);
    forall t, code, m: nat | m < |Past(steps + [s], t)| && Faulty(Past(steps + [s], t), m, code)
      ensures Covered(after.rows, next, t, code, m)
    {
      CoverKeeps(b, after, steps, s, spans, t, code, m);
    }
  }

  // ---------------------------------------------------------------- every run

  lemma {:induction false} VisitsKeep(b: Book, steps: seq<Step>, endpoints: seq<Endpoint>, tick: real, spans: Spans)
    returns (more: seq<Step>, next: Spans)
    requires Inv(b, steps, spans)
    ensures Inv(Visits(b, endpoints, tick), more, next)
    ensures forall t :: Past(more, t) == Past(steps, t) + Showings(endpoints, tick, t)
  {
    hide Inv, Visit, Past;
    if endpoints == [] {
      more, next := steps, spans;
    } else {
      var last := |endpoints| - 1;
      var front, between := VisitsKeep(b, steps, endpoints[..last], tick, spans);
      var s := Show(endpoints[last], tick);
      next := StepKeeps(Visits(b, endpoints[..last], tick), front, s, between);
      more := front + [s];
      forall t ensures Past(more, t) == Past(steps, t) + Showings(endpoints, tick, t) { PastSnoc(front, s, t); }
    }
  }

  lemma {:induction false} ShowingsAre(endpoints: seq<Endpoint>, tick: real, t: string)
    ensures forall e :: Shown(e, tick) in Showings(endpoints, tick, t) <==> e in endpoints && e.id == t
    ensures forall x :: x in Showings(endpoints, tick, t) ==> x.Shown? && x.tick == tick
  {
    if endpoints != [] { ShowingsAre(endpoints[..|endpoints| - 1], tick, t); }
  }

  /** Every event shows something of every target: that it is gone, exactly if it is a
      restart or an observation without the target, or else each state it is found in. */
  lemma EveryEventShows(ev: Event, t: string)
    ensures Shows(ev, t) != []
    ensures Gone in Shows(ev, t) <==> ev.Restarted? || forall e :: e in ev.endpoints ==> e.id != t
    ensures ev.Observed? ==> forall e :: Shown(e, ev.tick) in Shows(ev, t) <==> e in ev.endpoints && e.id == t
  {
    if ev.Observed? {
      ShowingsAre(ev.endpoints, ev.tick, t);
      if e :| e in ev.endpoints && e.id == t { assert Shown(e, ev.tick) in Showings(ev.endpoints, ev.tick, t); }
    }
  }

  /** A restart forgets no more than the absence of all targets does. */
  lemma RestartIs(b: Book, steps: seq<Step>, spans: Spans)
    requires Inv(b, steps, spans)
    ensures Restart(b) == Absent(b, {})
  {
    hide RowOk, Recovery, Marked, SamplesOk, Covered, Apart, Past, Latest, Faulty;
    var present: set<string> := {};
    var after := Absent(b, present);
    var kept := b.(samples := map t | t in b.samples && t in present :: b.samples[t]);
    var notes: map<nat, Note> := map i | 0 <= i < |b.rows| && b.rows[i].state.Active?
        && b.rows[i].target !in present :: Missing;
    MarkedIs(kept, notes);
    forall i | 0 <= i < |b.rows| ensures Get(after.recovery, i).None? {
      assert RowIn(b, steps, spans, i);
      if !b.rows[i].state.Active? {
        ClosedHasNone(Past(steps, b.rows[i].target), b.rows[i], Get(b.recovery, i), spans[i].0, spans[i].1);
      }
      else { MissingHasNone(Get(b.recovery, i)); }
    }
    assert after.recovery == map[] by {
      forall i ensures i !in after.recovery { if 0 <= i < |b.rows| { assert Get(after.recovery, i).None?; } }
    }
    assert after.samples == map[];
  }

  lemma ClosedHasNone(ms: seq<Moment>, row: Problem, run: Option<(real, real)>, from: nat, to: nat)
    requires RowOk(ms, row, run, from, to) && !row.state.Active?
    ensures run.None?
  {
  }

  lemma MissingHasNone(run: Option<(real, real)>)
    ensures Recovery(run, Missing).None?
  {
  }

  lemma EventKeeps(b: Book, steps: seq<Step>, ev: Event, spans: Spans) returns (more: seq<Step>, next: Spans)
    requires Inv(b, steps, spans)
    ensures Inv(After(b, ev), more, next)
    ensures forall t :: Past(more, t) == Past(steps, t) + Shows(ev, t)
  {
    hide Inv, Absent, Visits, Past, Restart, Showings;
    var present := if ev.Observed? then set e | e in ev.endpoints :: e.id else {};
    var between := StepKeeps(b, steps, Leave(present), spans);
    var front := steps + [Leave(present)];
    forall t ensures Past(front, t) == Past(steps, t) + Sight(Leave(present), t) { PastSnoc(steps, Leave(present), t); }
    match ev {
      case Observed(endpoints, tick) =>
        more, next := VisitsKeep(Absent(b, present), front, endpoints, tick, between);
        forall t ensures Past(more, t) == Past(steps, t) + Shows(ev, t) {
          ShowingsAre(endpoints, tick, t);
          ShowsSplit(ev, t, present);
          Assoc(Past(steps, t), Sight(Leave(present), t), Showings(endpoints, tick, t));
        }
      case Restarted =>
        RestartIs(b, steps, spans);
        more, next := front, between;
    }
  }

  lemma {:induction false} NoShowings(endpoints: seq<Endpoint>, tick: real, t: string)
    requires forall e :: e in endpoints ==> e.id != t
    ensures Showings(endpoints, tick, t) == []
  {
    if endpoints != [] { NoShowings(endpoints[..|endpoints| - 1], tick, t); }
  }

  lemma ShowsSplit(ev: Event, t: string, present: set<string>)
    requires ev.Observed? && present == set e | e in ev.endpoints :: e.id
    ensures Shows(ev, t) == Sight(Leave(present), t) + Showings(ev.endpoints, ev.tick, t)
  {
    if t in present {
      assert exists e :: e in ev.endpoints && e.id == t;
    } else {
      forall e | e in ev.endpoints ensures e.id != t { assert e.id in present; }
      NoShowings(ev.endpoints, ev.tick, t);
    }
  }

  lemma {:induction false} RunKeeps(events: seq<Event>) returns (steps: seq<Step>, spans: Spans)
    ensures Inv(Run(events), steps, spans)
    ensures forall t :: Past(steps, t) == Moments(events, t)
  {
    hide Inv, After, Past, Shows;
    if events == [] {
      steps, spans := [], [];
      EmptyInv();
    } else {
      var last := |events| - 1;
      var before, until := RunKeeps(events[..last]);
      steps, spans := EventKeeps(Run(events[..last]), before, events[last], until);
    }
  }

  lemma EmptyInv()
    ensures Inv(Book([], map[], map[]), [], []) && forall t :: Past([], t) == []
  {
  }

  // ---------------------------------------------------------------- what the problems say

  /** The row says what the moments say. */
  lemma RowTells(ms: seq<Moment>, row: Problem, run: Option<(real, real)>, from: nat, to: nat)
    requires RowOk(ms, row, run, from, to) && (row.state.Active? ==> to == |ms|)
    ensures Tells(ms, row, from, to)
  {
    hide Faulty, Healing, FreshAt, SampleAt, Course, FaultyIn, Recovered;
    assert exists m :: from <= m < to && Faulty(ms, m, row.code) && row.seen == SampleAt(ms, m)
             && forall l :: m < l < to ==> !Faulty(ms, l, row.code) by {
      var m :| from <= m < to && LastFault(ms, row.code, m, to) && row.seen == SampleAt(ms, m);
    }
    WaitsIsPending(ms, row.code, from, if row.state.Active? then to else to - 1);
    if row.state.Resolved? {
      RecoveredIffLong(ms, row.code, from, to - 1);
      HealingIsFresh(ms, to - 1, row.code);
    }
  }

  lemma WaitsIsPending(ms: seq<Moment>, code: string, from: nat, to: nat)
    requires from < to <= |ms| && Faulty(ms, from, code) && Waits(ms, code, from, to)
    ensures Pending(ms, code, from, to)
  {
    hide Faulty, Healing, Course, Recovered;
    forall m | from < m < to ensures !ms[m].Gone? && !Recovered(ms, code, from, m) {
      RecoveredIffLong(ms, code, from, m);
    }
  }

  /** `spans` says where each problem begins and ends: each row tells what its target showed
      there, no two of a kind overlap, and no fault shown by a new sample is left out. */
  ghost predicate Chronicle(events: seq<Event>, spans: Spans) {
    var rows := Run(events).rows;
    && |rows| == |spans|
    && (forall i :: 0 <= i < |rows| ==> Tells(Moments(events, rows[i].target), rows[i], spans[i].0, spans[i].1))
    && Apart(rows, spans)
    && (forall t, code, m: nat :: m < |Moments(events, t)| && Faulty(Moments(events, t), m, code) ==>
        Covered(rows, spans, t, code, m))
  }

  /** In every run the stored problems are exactly what the observations say. A problem opens
      with a new faulty sample; it is resolved exactly with the first complete recovery,
      undecided exactly if the target goes before, and open otherwise; it counts the faulty
      samples of its time; and each faulty sample is counted by exactly one problem. */
  lemma ProblemsAreExact(events: seq<Event>)
    ensures exists spans :: Chronicle(events, spans)
  {
    hide Tells, RowOk, Run, Moments, Past, SamplesOk, Faulty, Covered, Apart;
    var steps, spans := RunKeeps(events);
    var b := Run(events);
    forall i | 0 <= i < |b.rows| ensures Tells(Moments(events, b.rows[i].target), b.rows[i], spans[i].0, spans[i].1) {
      assert RowIn(b, steps, spans, i);
      RowTells(Past(steps, b.rows[i].target), b.rows[i], Get(b.recovery, i), spans[i].0, spans[i].1);
    }
    assert Chronicle(events, spans);
  }

  /** A recovery after the fault at `from`, complete at `last`, the target never gone. */
  ghost predicate EndedBy(ms: seq<Moment>, row: Problem, from: nat, last: nat) {
    && from < last < |ms| && Faulty(ms, from, row.code) && Recovered(ms, row.code, from, last)
    && NeverGone(ms, from, last + 1) && row.since == SampleAt(ms, from) && row.ended == Some(SampleAt(ms, last))
  }

  /** In every run, a resolved problem was ended by an unbroken row of new healthy samples
      that began after the fault it opened with: each at most 15 seconds after the one before,
      30 seconds from the first to the last, and between two of them the target was never
      gone, unreachable or stale and showed no new sample that was faulty or silent. */
  lemma RecoveryIsNeverInvented(events: seq<Event>, i: nat)
    requires i < |Run(events).rows| && Run(events).rows[i].state.Resolved?
    ensures var row := Run(events).rows[i];
            exists from: nat, last: nat :: EndedBy(Moments(events, row.target), row, from, last)
  {
    hide Run, Moments, Covered, Apart, Tells, EndedBy;
    ProblemsAreExact(events);
    var row := Run(events).rows[i];
    var spans: Spans :| Chronicle(events, spans);
    EndIs(Moments(events, row.target), row, spans[i].0, spans[i].1);
  }

  lemma EndIs(ms: seq<Moment>, row: Problem, from: nat, to: nat)
    requires Tells(ms, row, from, to) && row.state.Resolved?
    ensures to > 0 && EndedBy(ms, row, from, to - 1)
  {
    hide Faulty, FreshAt, SampleAt, FaultyIn, Recovered;
    FaultIsShown(ms, from, row.code);
    ShownWhenFresh(ms, to - 1);
    RecoveredLater(ms, row.code, from, to - 1);
  }

  lemma RecoveredLater(ms: seq<Moment>, code: string, from: nat, last: nat)
    requires Recovered(ms, code, from, last)
    ensures from < last
  {
    hide Healing, Repeats, SampleAt, FreshAt;
    var js :| Recovers(ms, code, from, last, js);
    OrderedTo(ms, code, js, |js| - 1);
  }

  lemma {:induction false} OrderedTo(ms: seq<Moment>, code: string, js: seq<nat>, k: nat)
    requires Unbroken(ms, code, js) && k < |js|
    ensures js[0] <= js[k]
  {
    hide Healing, Repeats, SampleAt, FreshAt;
    if k > 0 { OrderedTo(ms, code, js, k - 1); }
  }

  lemma ShownWhenFresh(ms: seq<Moment>, m: nat)
    requires m < |ms| && FreshAt(ms, m)
    ensures !ms[m].Gone?
  {
  }

  /** The row counts the new samples since `from` that showed the fault, no two of one time. */
  ghost predicate CountsSince(ms: seq<Moment>, row: Problem, from: nat) {
    && from < |ms| && Faulty(ms, from, row.code) && row.since == SampleAt(ms, from)
    && row.count == |FaultyIn(ms, row.code, from, |ms|)|
    && forall l, m :: l in FaultyIn(ms, row.code, from, |ms|) && m in FaultyIn(ms, row.code, from, |ms|) && l < m ==>
         SampleAt(ms, l) < SampleAt(ms, m)
  }

  /** In every run there is at most one active problem per target and code, and it counts the
      new samples that showed the fault since it opened. */
  lemma CountIsFaultySamples(events: seq<Event>, i: nat)
    requires i < |Run(events).rows| && Run(events).rows[i].state.Active?
    ensures OneActive(Run(events).rows)
    ensures var row := Run(events).rows[i];
            exists from :: CountsSince(Moments(events, row.target), row, from)
  {
    hide Faulty, Healing, FreshAt, SampleAt, Run, Moments, Covered, Recovered, FaultyIn, CountsSince;
    ProblemsAreExact(events);
    var rows := Run(events).rows;
    var spans: Spans :| Chronicle(events, spans);
    forall k, j | 0 <= k < j < |rows| && rows[k].state.Active? && rows[j].state.Active?
      ensures rows[k].target != rows[j].target || rows[k].code != rows[j].code
    {
      assert Tells(Moments(events, rows[k].target), rows[k], spans[k].0, spans[k].1);
      assert Tells(Moments(events, rows[j].target), rows[j], spans[j].0, spans[j].1);
    }
    TalliesSince(Moments(events, rows[i].target), rows[i], spans[i].0, spans[i].1);
  }

  lemma TalliesSince(ms: seq<Moment>, row: Problem, from: nat, to: nat)
    requires Tells(ms, row, from, to) && row.state.Active?
    ensures CountsSince(ms, row, from)
  {
    hide Faulty, FreshAt, SampleAt, Recovered;
    forall l, m | l in FaultyIn(ms, row.code, from, |ms|) && m in FaultyIn(ms, row.code, from, |ms|) && l < m
      ensures SampleAt(ms, l) < SampleAt(ms, m)
    {
      FaultIsNews(ms, l, row.code);
      FaultIsNews(ms, m, row.code);
      FaultIsShown(ms, from, row.code);
      NewsIncrease(ms, l, m);
    }
  }

  lemma FaultIsNews(ms: seq<Moment>, m: nat, code: string)
    requires m < |ms| && Faulty(ms, m, code)
    ensures FreshAt(ms, m) && News(ms, m)
  {
  }
}
