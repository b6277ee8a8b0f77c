/** What the moments of one target mean for one problem of its (fabric/journal.py): where a
    recovery is complete, and what a stored row must say. */
module JournalMoments {
  import opened Bytes
  import opened Journal

  // ---------------------------------------------------------------- the latest sample

  ghost predicate NeverGone(ms: seq<Moment>, from: nat, to: nat)
    requires to <= |ms|
  {
    forall m :: from <= m < to ==> !ms[m].Gone?
  }

  /** `Latest` is the greatest fresh sample since the target was last gone. */
  lemma {:induction false} LatestIsGreatest(ms: seq<Moment>, n: nat)
    requires n <= |ms|
    ensures forall m :: 0 <= m < n && FreshAt(ms, m) && NeverGone(ms, m, n) ==>
              Latest(ms, n).Some? && SampleAt(ms, m) <= Latest(ms, n).value
    ensures Latest(ms, n).Some? ==>
              exists m :: 0 <= m < n && FreshAt(ms, m) && NeverGone(ms, m, n) && SampleAt(ms, m) == Latest(ms, n).value
  {
    if n > 0 {
      LatestIsGreatest(ms, n - 1);
      forall m | 0 <= m < n && FreshAt(ms, m) && NeverGone(ms, m, n)
        ensures Latest(ms, n).Some? && SampleAt(ms, m) <= Latest(ms, n).value
      {
        assert !ms[n - 1].Gone?;
        if m < n - 1 { assert NeverGone(ms, m, n - 1); }
      }
      if Latest(ms, n).Some? {
        if News(ms, n - 1) {
          assert NeverGone(ms, n - 1, n);
        } else {
          var m :| 0 <= m < n - 1 && FreshAt(ms, m) && NeverGone(ms, m, n - 1)
              && SampleAt(ms, m) == Latest(ms, n - 1).value;
          assert NeverGone(ms, m, n);
        }
      }
    }
  }

  /** While a target is not gone, its new samples come in the order of their times. */
  lemma NewsIncrease(ms: seq<Moment>, l: nat, m: nat)
    requires l < m < |ms| && FreshAt(ms, l) && News(ms, m) && NeverGone(ms, l, m)
    ensures SampleAt(ms, l) < SampleAt(ms, m)
  {
    LatestIsGreatest(ms, m);
  }

  // ---------------------------------------------------------------- growing histories

  /** What later moments show does not change what earlier ones mean. */
  lemma {:induction false} LatestStays(ms: seq<Moment>, ns: seq<Moment>, n: nat)
    requires ms <= ns && n <= |ms|
    ensures Latest(ns, n) == Latest(ms, n)
  {
    hide Fresh;
    if n > 0 { LatestStays(ms, ns, n - 1); }
  }

  lemma MomentStays(ms: seq<Moment>, ns: seq<Moment>, m: nat, code: string)
    requires ms <= ns && m < |ms|
    ensures FreshAt(ns, m) == FreshAt(ms, m) && News(ns, m) == News(ms, m) && Repeats(ns, m) == Repeats(ms, m)
    ensures Faulty(ns, m, code) == Faulty(ms, m, code) && Healing(ns, m, code) == Healing(ms, m, code)
    ensures SampleAt(ns, m) == SampleAt(ms, m)
  {
    hide Fresh, Latest, Faults, Heals;
    LatestStays(ms, ns, m);
  }

  // ---------------------------------------------------------------- chains

  ghost predicate Near(ms: seq<Moment>, l: nat, m: nat)
    requires l < |ms| && m < |ms|
  {
    FreshAt(ms, l) && FreshAt(ms, m) && 0.0 < SampleAt(ms, m) - SampleAt(ms, l) <= 15.0
  }

  /** The healthy moments that the first `n` end in, repeated samples aside. */
  ghost function Chain(ms: seq<Moment>, code: string, n: nat): (js: seq<nat>)
    requires n <= |ms|
    ensures forall k :: 0 <= k < |js| ==> js[k] < n && Healing(ms, js[k], code)
  {
    if n == 0 then []
    else
      var front := Chain(ms, code, n - 1);
      if Repeats(ms, n - 1) then front
      else if !Healing(ms, n - 1, code) then []
      else if front != [] && Near(ms, front[|front| - 1], n - 1) then front + [n - 1]
      else [n - 1]
  }

  ghost function Ends(ms: seq<Moment>, js: seq<nat>): Option<(real, real)>
    requires forall k :: 0 <= k < |js| ==> js[k] < |ms|
  {
    if js == [] then None else Some((SampleAt(ms, js[0]), SampleAt(ms, js[|js| - 1])))
  }

  /** First and last sample of the recovery under way. */
  ghost function Course(ms: seq<Moment>, code: string, n: nat): Option<(real, real)>
    requires n <= |ms|
  {
    Ends(ms, Chain(ms, code, n))
  }

  lemma {:induction false} ChainStays(ms: seq<Moment>, ns: seq<Moment>, code: string, n: nat)
    requires ms <= ns && n <= |ms|
    ensures Chain(ns, code, n) == Chain(ms, code, n)
  {
    hide Healing, News, Repeats, FreshAt, SampleAt;
    if n > 0 {
      ChainStays(ms, ns, code, n - 1);
      MomentStays(ms, ns, n - 1, code);
      var front := Chain(ms, code, n - 1);
      if front != [] {
        var l := front[|front| - 1];
        HealingIsFresh(ms, l, code);
        MomentStays(ms, ns, l, code);
      }
      if Healing(ms, n - 1, code) { HealingIsFresh(ms, n - 1, code); }
    }
  }

  lemma CourseStays(ms: seq<Moment>, ns: seq<Moment>, code: string, n: nat)
    requires ms <= ns && n <= |ms|
    ensures Course(ns, code, n) == Course(ms, code, n)
  {
    hide Healing, News, Repeats, Chain;
    ChainStays(ms, ns, code, n);
  }

  lemma HealingIsFresh(ms: seq<Moment>, m: nat, code: string)
    requires m < |ms| && Healing(ms, m, code)
    ensures FreshAt(ms, m) && News(ms, m)
  {
  }

  /** The recovery under way after one more moment. */
  lemma CourseNext(ms: seq<Moment>, code: string, n: nat)
    requires n < |ms|
    ensures Course(ms, code, n + 1)
            == if Repeats(ms, n) then Course(ms, code, n)
               else if Healing(ms, n, code) then Some(Continued(Course(ms, code, n), SampleAt(ms, n)))
               else None
  {
    hide Healing, News, Repeats, FreshAt, SampleAt;
    if Healing(ms, n, code) { HealingIsFresh(ms, n, code); }
    var front := Chain(ms, code, n);
    if front != [] {
      HealingIsFresh(ms, front[0], code);
      HealingIsFresh(ms, front[|front| - 1], code);
    }
  }

  lemma {:induction false} ChainIsUnbroken(ms: seq<Moment>, code: string, n: nat)
    requires n <= |ms| && Chain(ms, code, n) != []
    ensures var js := Chain(ms, code, n);
            Unbroken(ms, code, js) && forall m :: js[|js| - 1] < m < n ==> Repeats(ms, m)
  {
    hide Healing, News, Repeats, FreshAt, SampleAt, Continues;
    var front := Chain(ms, code, n - 1);
    if front != [] { ChainIsUnbroken(ms, code, n - 1); }
    if !Repeats(ms, n - 1) && front != [] && Near(ms, front[|front| - 1], n - 1) {
      assert Continues(ms, front[|front| - 1], n - 1) by { NearContinues(ms, front[|front| - 1], n - 1); }
    }
  }

  lemma NearContinues(ms: seq<Moment>, l: nat, m: nat)
    requires l < m < |ms| && Near(ms, l, m) && forall x :: l < x < m ==> Repeats(ms, x)
    ensures Continues(ms, l, m)
  {
  }

  lemma ContinuesIs(ms: seq<Moment>, l: nat, m: nat)
    requires Continues(ms, l, m)
    ensures l < m < |ms| && Near(ms, l, m) && forall x :: l < x < m ==> Repeats(ms, x)
  {
  }

  lemma {:induction false} UnbrokenRises(ms: seq<Moment>, code: string, js: seq<nat>, k: nat)
    requires Unbroken(ms, code, js) && k < |js|
    ensures FreshAt(ms, js[0]) && FreshAt(ms, js[k])
    ensures SampleAt(ms, js[0]) <= SampleAt(ms, js[k])
  {
    hide Healing, Repeats, News, FreshAt, SampleAt;
    HealingIsFresh(ms, js[0], code);
    HealingIsFresh(ms, js[k], code);
    if k > 0 { UnbrokenRises(ms, code, js, k - 1); }
  }

  lemma ChainStep(ms: seq<Moment>, code: string, n: nat)
    requires n < |ms|
    ensures Repeats(ms, n) ==> Chain(ms, code, n + 1) == Chain(ms, code, n)
    ensures var front := Chain(ms, code, n);
            !Repeats(ms, n) && Healing(ms, n, code) ==>
              Chain(ms, code, n + 1)
              == if front != [] && Near(ms, front[|front| - 1], n) then front + [n] else [n]
  {
    hide Healing, Repeats, Near;
  }

  lemma ChainRises(ms: seq<Moment>, code: string, n: nat)
    requires n <= |ms| && Chain(ms, code, n) != []
    ensures var js := Chain(ms, code, n); SampleAt(ms, js[0]) <= SampleAt(ms, js[|js| - 1])
  {
    hide Healing, Chain, SampleAt, FreshAt, Continues;
    ChainIsUnbroken(ms, code, n);
    UnbrokenRises(ms, code, Chain(ms, code, n), |Chain(ms, code, n)| - 1);
  }

  /** No unbroken row of healthy samples reaches further back than the chain. */
  lemma {:induction false} ChainIsLongest(ms: seq<Moment>, code: string, js: seq<nat>, n: nat)
    requires Unbroken(ms, code, js) && js[|js| - 1] < n <= |ms|
    requires forall m :: js[|js| - 1] < m < n ==> Repeats(ms, m)
    ensures var chain := Chain(ms, code, n);
            chain != [] && chain[|chain| - 1] == js[|js| - 1] && SampleAt(ms, chain[0]) <= SampleAt(ms, js[0])
    decreases n
  {
    hide Healing, News, Repeats, FreshAt, SampleAt, Continues, Chain;
    var last := js[|js| - 1];
    var front := Chain(ms, code, n - 1);
    ChainStep(ms, code, n - 1);
    if n - 1 > last {
      ChainIsLongest(ms, code, js, n - 1);
    } else {
      HealingNoRepeat(ms, last, code);
      if |js| > 1 {
        ContinuesIs(ms, js[|js| - 2], last);
        assert Unbroken(ms, code, js[..|js| - 1]);
        ChainIsLongest(ms, code, js[..|js| - 1], n - 1);
      } else if front != [] && Near(ms, front[|front| - 1], last) {
        ChainRises(ms, code, n - 1);
      }
    }
  }

  lemma HealingNoRepeat(ms: seq<Moment>, m: nat, code: string)
    requires m < |ms|
    ensures Healing(ms, m, code) ==> !Repeats(ms, m) && !Faulty(ms, m, code)
    ensures Faulty(ms, m, code) ==> !Repeats(ms, m)
  {
    hide Latest, Fresh, Faults, Heals;
  }

  // ---------------------------------------------------------------- recoveries

  predicate Long(course: Option<(real, real)>) {
    course.Some? && course.value.1 - course.value.0 >= 30.0
  }

  /** After a fault, a recovery is complete exactly where the healthy samples that the
      moments end in span 30 seconds. */
  lemma RecoveredIffLong(ms: seq<Moment>, code: string, from: nat, m: nat)
    requires from < m < |ms| && Faulty(ms, from, code)
    ensures Recovered(ms, code, from, m) <==> Healing(ms, m, code) && Long(Course(ms, code, m + 1))
  {
    hide Faulty, Healing, News, Repeats, FreshAt, SampleAt, Unbroken, Chain;
    var chain := Chain(ms, code, m + 1);
    if Recovered(ms, code, from, m) {
      var js :| Recovers(ms, code, from, m, js);
      assert Healing(ms, m, code) by { LastHeals(ms, code, js); }
      ChainIsLongest(ms, code, js, m + 1);
    }
    if Healing(ms, m, code) && Long(Course(ms, code, m + 1)) {
      ChainIsUnbroken(ms, code, m + 1);
      ChainReaches(ms, code, m);
      FaultOutside(ms, code, chain, from);
      assert Recovers(ms, code, from, m, chain);
    }
  }

  lemma LastHeals(ms: seq<Moment>, code: string, js: seq<nat>)
    requires Unbroken(ms, code, js)
    ensures js[|js| - 1] < |ms| && Healing(ms, js[|js| - 1], code)
  {
    hide Healing, Repeats;
  }

  lemma ChainReaches(ms: seq<Moment>, code: string, m: nat)
    requires m < |ms| && Healing(ms, m, code)
    ensures var chain := Chain(ms, code, m + 1); chain != [] && chain[|chain| - 1] == m
  {
    hide Healing, News, Repeats, FreshAt, SampleAt;
    HealingNoRepeat(ms, m, code);
  }

  lemma {:induction false} FaultOutside(ms: seq<Moment>, code: string, js: seq<nat>, from: nat)
    requires Unbroken(ms, code, js) && from < |ms| && Faulty(ms, from, code) && from < js[|js| - 1]
    ensures from < js[0]
  {
    hide Healing, Repeats, Faulty, FreshAt, SampleAt;
    if |js| > 1 {
      var l := js[|js| - 2];
      HealingNoRepeat(ms, from, code);
      assert Continues(ms, l, js[|js| - 1]) && Healing(ms, l, code);
      assert Unbroken(ms, code, js[..|js| - 1]);
      FaultOutside(ms, code, js[..|js| - 1], from);
    }
  }

  // ---------------------------------------------------------------- one row

  /** What a moment means for a problem. A repeated sample means nothing. */
  function NoteAt(ms: seq<Moment>, m: nat, code: string): Option<Note>
    requires m < |ms|
  {
    if ms[m].Gone? then Some(Missing)
    else if !FreshAt(ms, m) then Some(Stale)
    else if News(ms, m) then Some(NoteOf(ms[m].e, code))
    else None
  }

  ghost predicate LastFault(ms: seq<Moment>, code: string, m: nat, to: nat)
    requires m < to <= |ms|
  {
    Faulty(ms, m, code) && forall l :: m < l < to ==> !Faulty(ms, l, code)
  }

  /** Neither gone nor recovered within these moments. */
  ghost predicate Waits(ms: seq<Moment>, code: string, from: nat, to: nat)
    requires to <= |ms|
  {
    forall m :: from < m < to ==> !ms[m].Gone? && !Long(Course(ms, code, m + 1))
  }

  ghost predicate Counts(ms: seq<Moment>, row: Problem, from: nat, to: nat)
    requires from < to <= |ms|
  {
    && Faulty(ms, from, row.code) && row.since == SampleAt(ms, from)
    && row.count == |FaultyIn(ms, row.code, from, to)|
    && exists m :: from <= m < to && LastFault(ms, row.code, m, to) && row.seen == SampleAt(ms, m)
  }

  ghost predicate Stands(ms: seq<Moment>, row: Problem, run: Option<(real, real)>, from: nat, to: nat)
    requires from < to <= |ms|
  {
    match row.state
    case Active => row.ended.None? && Waits(ms, row.code, from, to) && run == Course(ms, row.code, to)
    case Unknown =>
      row.ended.None? && Waits(ms, row.code, from, to - 1) && run.None? && ms[to - 1].Gone? && from < to - 1
    case Resolved =>
      && Waits(ms, row.code, from, to - 1) && run.None? && from < to - 1
      && Healing(ms, to - 1, row.code) && Long(Course(ms, row.code, to)) && row.ended == Some(SampleAt(ms, to - 1))
  }

  /** The row and its recovery under way agree with the moments from its opening to its end. */
  ghost predicate RowOk(ms: seq<Moment>, row: Problem, run: Option<(real, real)>, from: nat, to: nat) {
    from < to <= |ms| && Counts(ms, row, from, to) && Stands(ms, row, run, from, to)
  }

  function NotedIf(row: Problem, run: Option<(real, real)>, n: Option<Note>): Problem {
    if n.Some? then Noted(row, run, n.value) else row
  }

  function RecoveryIf(run: Option<(real, real)>, n: Option<Note>): Option<(real, real)> {
    if n.Some? then Recovery(run, n.value) else run
  }

  lemma NoteIs(ms: seq<Moment>, m: nat, code: string)
    requires m < |ms|
    ensures var n := NoteAt(ms, m, code);
            && (n.None? <==> Repeats(ms, m)) && (n == Some(Missing) <==> ms[m].Gone?)
            && (Faulty(ms, m, code) <==> n.Some? && n.value.Fault?)
            && (Faulty(ms, m, code) ==> n.value.at == SampleAt(ms, m))
            && (Healing(ms, m, code) <==> n.Some? && n.value.Healthy?)
            && (Healing(ms, m, code) ==> n.value.at == SampleAt(ms, m))
  {
    hide Latest, Faults, Heals;
  }

  lemma CountNext(ms: seq<Moment>, row: Problem, run: Option<(real, real)>, from: nat, n: nat)
    requires from < n < |ms| && Counts(ms, row, from, n)
    ensures Counts(ms, NotedIf(row, run, NoteAt(ms, n, row.code)), from, n + 1)
  {
    hide Faulty, SampleAt, NoteAt;
    var note := NoteAt(ms, n, row.code);
    NoteIs(ms, n, row.code);
    var before := FaultyIn(ms, row.code, from, n);
    var after := FaultyIn(ms, row.code, from, n + 1);
    var m :| from <= m < n && LastFault(ms, row.code, m, n) && row.seen == SampleAt(ms, m);
    if Faulty(ms, n, row.code) {
      assert after == before + {n};
      assert LastFault(ms, row.code, n, n + 1);
    } else {
      assert after == before;
      assert LastFault(ms, row.code, m, n + 1);
    }
  }

  lemma StandNext(ms: seq<Moment>, row: Problem, run: Option<(real, real)>, from: nat, n: nat)
    requires from < n < |ms| && Stands(ms, row, run, from, n) && row.state.Active? && Faulty(ms, from, row.code)
    ensures var note := NoteAt(ms, n, row.code);
            Stands(ms, NotedIf(row, run, note), RecoveryIf(run, note), from, n + 1)
  {
    hide Faulty, Healing, Repeats, News, FreshAt, SampleAt, NoteAt, Course;
    NoteIs(ms, n, row.code);
    CourseNext(ms, row.code, n);
    NotLong(ms, row.code, from, n);
    if !ms[n].Gone? && !Long(Course(ms, row.code, n + 1)) { WaitsOn(ms, row.code, from, n); }
    assert Long(Course(ms, row.code, n + 1)) ==> Healing(ms, n, row.code);
  }

  lemma WaitsOn(ms: seq<Moment>, code: string, from: nat, n: nat)
    requires n < |ms| && Waits(ms, code, from, n) && !ms[n].Gone? && !Long(Course(ms, code, n + 1))
    ensures Waits(ms, code, from, n + 1)
  {
    hide Course, Long;
  }

  lemma NotLong(ms: seq<Moment>, code: string, from: nat, n: nat)
    requires from < n <= |ms| && Waits(ms, code, from, n) && Faulty(ms, from, code)
    ensures !Long(Course(ms, code, n))
  {
    hide Faulty, Healing, Repeats, Course;
    if n == from + 1 {
      CourseNext(ms, code, from);
      HealingNoRepeat(ms, from, code);
    } else {
      assert !ms[n - 1].Gone?;
    }
  }

  /** A moment leaves an open row in order. */
  lemma NoteKeeps(ms: seq<Moment>, row: Problem, run: Option<(real, real)>, from: nat, n: nat)
    requires n < |ms| && RowOk(ms, row, run, from, n) && row.state.Active?
    ensures var note := NoteAt(ms, n, row.code);
            RowOk(ms, NotedIf(row, run, note), RecoveryIf(run, note), from, n + 1)
  {
    hide Stands, NoteAt, Noted, Recovery, Faulty, FaultyIn, LastFault;
    CountNext(ms, row, run, from, n);
    StandNext(ms, row, run, from, n);
  }

  lemma NewRowOk(ms: seq<Moment>, n: nat, code: string)
    requires n < |ms| && Faulty(ms, n, code)
    ensures RowOk(ms, NewRow(ms[n].e, code), None, n, n + 1)
  {
    hide Course, Repeats, Healing;
    CourseNext(ms, code, n);
    HealingNoRepeat(ms, n, code);
    assert FaultyIn(ms, code, n, n + 1) == {n};
    assert LastFault(ms, code, n, n + 1);
  }

  /** A row keeps agreeing with a longer history. */
  lemma RowStays(ms: seq<Moment>, ns: seq<Moment>, row: Problem, run: Option<(real, real)>, from: nat, to: nat)
    requires ms <= ns && RowOk(ms, row, run, from, to)
    ensures RowOk(ns, row, run, from, to)
  {
    hide Counts, Stands;
    CountsStay(ms, ns, row, from, to);
    StandStays(ms, ns, row, run, from, to);
  }

  lemma CountsStay(ms: seq<Moment>, ns: seq<Moment>, row: Problem, from: nat, to: nat)
    requires ms <= ns && from < to <= |ms| && Counts(ms, row, from, to)
    ensures Counts(ns, row, from, to)
  {
    hide Faulty, FreshAt, SampleAt;
    var code := row.code;
    forall m | 0 <= m < |ms|
      ensures Faulty(ns, m, code) == Faulty(ms, m, code)
    {
      MomentStays(ms, ns, m, code);
    }
    MomentStays(ms, ns, from, code);
    assert FaultyIn(ns, code, from, to) == FaultyIn(ms, code, from, to);
    var m :| from <= m < to && LastFault(ms, code, m, to) && row.seen == SampleAt(ms, m);
    MomentStays(ms, ns, m, code);
    assert LastFault(ns, code, m, to);
  }

  lemma StandStays(ms: seq<Moment>, ns: seq<Moment>, row: Problem, run: Option<(real, real)>, from: nat, to: nat)
    requires ms <= ns && from < to <= |ms| && Stands(ms, row, run, from, to)
    ensures Stands(ns, row, run, from, to)
  {
    hide Healing, FreshAt, SampleAt, Course;
    var code := row.code;
    MomentStays(ms, ns, to - 1, code);
    forall n | 0 <= n <= |ms| ensures Course(ns, code, n) == Course(ms, code, n) { CourseStays(ms, ns, code, n); }
  }
}
