/** The bounded table of background requests (fabric/async_requests.py): submissions,
    completions, reads and shutdown in any interleaving of the locked sections. */
module Requests {
  import opened Bytes

  const RECORDS_PER_TARGET := 8

  datatype Job = Job(id: string, target: string, finished: Option<real>)

  /** `jobs` is the insertion-ordered dictionary; a thread goes by the job it runs. */
  datatype Table = Table(jobs: seq<Job>, threads: set<string>, closed: bool, limit: nat, concurrency: nat,
                         retention: real)

  datatype Outcome = Accepted | ShuttingDown | AlreadyRunning | NoThread | NoRoom

  predicate Keeps(t: Table, j: Job, now: real) { j.finished.None? || j.finished.value > now - t.retention }

  function Kept(t: Table, jobs: seq<Job>, now: real): seq<Job> {
    if jobs == [] then []
    else Kept(t, jobs[..|jobs| - 1], now) + (if Keeps(t, jobs[|jobs| - 1], now) then [jobs[|jobs| - 1]] else [])
  }

  function Prune(t: Table, now: real): Table { t.(jobs := Kept(t, t.jobs, now)) }

  predicate Busy(jobs: seq<Job>, target: string) {
    exists j :: j in jobs && j.target == target && j.finished.None?
  }

  /** Completed, and of this target if one is given. */
  predicate Eligible(j: Job, target: Option<string>) {
    j.finished.Some? && (target.Some? ==> j.target == target.value)
  }

  /** The place of the eligible job that finished first; of several, the first. */
  function Oldest(jobs: seq<Job>, target: Option<string>): (r: Option<nat>)
    ensures r.Some? ==> r.value < |jobs| && Eligible(jobs[r.value], target)
    ensures r.None? <==> forall j :: j in jobs ==> !Eligible(j, target)
    ensures r.Some? ==> forall i :: 0 <= i < |jobs| && Eligible(jobs[i], target) ==>
              jobs[r.value].finished.value <= jobs[i].finished.value
  {
    if jobs == [] then None
    else
      var last := |jobs| - 1;
      var front := Oldest(jobs[..last], target);
      assert jobs == jobs[..last] + [jobs[last]];
      if !Eligible(jobs[last], target) then front
      else if front.Some? && jobs[front.value].finished.value <= jobs[last].finished.value then front
      else Some(last)
  }

  function Own(jobs: seq<Job>, target: string): nat {
    if jobs == [] then 0
    else
      Own(jobs[..|jobs| - 1], target)
      + (if Eligible(jobs[|jobs| - 1], Some(target)) then 1 else 0)
  }

  function Without(jobs: seq<Job>, i: nat): seq<Job>
    requires i < |jobs|
  {
    jobs[..i] + jobs[i + 1..]
  }

  /** Makes room: first within the target's share, then in the table. */
  function OwnShare(jobs: seq<Job>, target: string): seq<Job> {
    if Own(jobs, target) >= RECORDS_PER_TARGET && Oldest(jobs, Some(target)).Some?
    then Without(jobs, Oldest(jobs, Some(target)).value) else jobs
  }

  function Submit(t0: Table, target: string, id: string, now: real): (Table, Outcome) {
    var t := Prune(t0, now);
    if t.closed then (t, ShuttingDown)
    else if Busy(t.jobs, target) then (t, AlreadyRunning)
    else if |t.threads| >= t.concurrency then (t, NoThread)
    else
      var shared := OwnShare(t.jobs, target);
      var oldest := Oldest(shared, None);
      if |shared| >= t.limit && oldest.None? then (t.(jobs := shared), NoRoom)
      else
        var room := if |shared| >= t.limit then Without(shared, oldest.value) else shared;
        (t.(jobs := room + [Job(id, target, None)], threads := t.threads + {id}), Accepted)
  }

  /** The end of a job's thread. */
  function Finish(t: Table, id: string, now: real): Table {
    t.(jobs := seq(|t.jobs|, i requires 0 <= i < |t.jobs| =>
                     if t.jobs[i].id == id then t.jobs[i].(finished := Some(now)) else t.jobs[i]),
       threads := t.threads - {id})
  }

  // ---------------------------------------------------------------- runs

  datatype Event =
    | Submitted(target: string, id: string, now: real)
    | Finished(id: string, now: real)
    | Read(now: real)
    | Closing

  predicate HasId(jobs: seq<Job>, id: string) { exists j :: j in jobs && j.id == id }

  /** Identifiers are drawn fresh; a thread ends once. */
  predicate Legal(t: Table, ev: Event) {
    match ev
    case Submitted(_, id, _) => !HasId(t.jobs, id) && id !in t.threads
    case Finished(id, _) => id in t.threads
    case _ => true
  }

  function Next(t: Table, ev: Event): Table {
    match ev
    case Submitted(target, id, now) => Submit(t, target, id, now).0
    case Finished(id, now) => Finish(t, id, now)
    case Read(now) => Prune(t, now)
    case Closing => t.(closed := true)
  }

  ghost predicate Runs(t: Table, events: seq<Event>)
    decreases |events|
  {
    events != [] ==> Runs(t, events[..|events| - 1]) && Legal(After(t, events[..|events| - 1]), events[|events| - 1])
  }

  ghost function After(t: Table, events: seq<Event>): Table
    decreases |events|
  {
    if events == [] then t else Next(After(t, events[..|events| - 1]), events[|events| - 1])
  }

  function Empty(limit: nat, concurrency: nat, retention: real): Table {
    Table([], {}, false, limit, concurrency, retention)
  }

  // ---------------------------------------------------------------- the invariant

  /** Records of a target, finished or not. */
  function Records(jobs: seq<Job>, target: string): nat {
    if jobs == [] then 0 else Records(jobs[..|jobs| - 1], target) + (if jobs[|jobs| - 1].target == target then 1 else 0)
  }

  ghost predicate DistinctIds(jobs: seq<Job>) {
    forall i, j :: 0 <= i < j < |jobs| ==> jobs[i].id != jobs[j].id
  }

  /** One unfinished job at most per target. */
  ghost predicate OneEach(jobs: seq<Job>) {
    forall i, j :: 0 <= i < j < |jobs| && jobs[i].finished.None? && jobs[j].finished.None? ==>
      jobs[i].target != jobs[j].target
  }

  function Unfinished(jobs: seq<Job>): set<string> { set j | j in jobs && j.finished.None? :: j.id }

  ghost predicate Inv(t: Table) {
    && DistinctIds(t.jobs) && OneEach(t.jobs) && Unfinished(t.jobs) == t.threads
    && (forall target :: Records(t.jobs, target) <= RECORDS_PER_TARGET)
    && |t.threads| <= t.concurrency && |t.jobs| <= t.limit
  }

  // ---------------------------------------------------------------- lists

  lemma {:induction false} RecordsConcat(a: seq<Job>, b: seq<Job>, target: string)
    ensures Records(a + b, target) == Records(a, target) + Records(b, target)
    ensures Own(a + b, target) == Own(a, target) + Own(b, target)
  {
    if b == [] {
      assert a + b == a;
    } else {
      assert (a + b)[..|a + b| - 1] == a + b[..|b| - 1];
      RecordsConcat(a, b[..|b| - 1], target);
    }
  }

  lemma RecordsOne(j: Job, target: string)
    ensures Records([j], target) == (if j.target == target then 1 else 0)
            && Own([j], target) == (if Eligible(j, Some(target)) then 1 else 0)
  {
    assert [j][..0] == [];
  }

  lemma RecordsWithout(jobs: seq<Job>, i: nat, target: string)
    requires i < |jobs|
    ensures Records(jobs, target) == Records(Without(jobs, i), target) + (if jobs[i].target == target then 1 else 0)
    ensures Own(jobs, target) == Own(Without(jobs, i), target) + (if Eligible(jobs[i], Some(target)) then 1 else 0)
  {
    hide Records, Own;
    assert jobs == jobs[..i] + [jobs[i]] + jobs[i + 1..];
    RecordsConcat(jobs[..i] + [jobs[i]], jobs[i + 1..], target);
    RecordsConcat(jobs[..i], [jobs[i]], target);
    RecordsConcat(jobs[..i], jobs[i + 1..], target);
    RecordsOne(jobs[i], target);
  }

  /** The order-preserving part of a list: where each of its elements came from. */
  ghost predicate Part(sub: seq<Job>, jobs: seq<Job>, from: seq<nat>) {
    && |from| == |sub| && (forall i :: 0 <= i < |from| ==> from[i] < |jobs| && sub[i] == jobs[from[i]])
    && (forall i, j :: 0 <= i < j < |from| ==> from[i] < from[j])
  }

  lemma PartKeeps(sub: seq<Job>, jobs: seq<Job>, from: seq<nat>)
    requires Part(sub, jobs, from) && DistinctIds(jobs) && OneEach(jobs)
    ensures DistinctIds(sub) && OneEach(sub)
  {
  }

  lemma {:induction false} KeptIs(t: Table, jobs: seq<Job>, now: real) returns (from: seq<nat>)
    ensures Part(Kept(t, jobs, now), jobs, from) && |Kept(t, jobs, now)| <= |jobs|
    ensures forall j :: j in jobs && Keeps(t, j, now) ==> j in Kept(t, jobs, now)
    ensures forall target :: Records(Kept(t, jobs, now), target) <= Records(jobs, target)
  {
    hide Records;
    from := [];
    if jobs == [] {
    } else {
      var last := |jobs| - 1;
      var front := jobs[..last];
      from := KeptIs(t, front, now);
      var k := Kept(t, front, now);
      assert jobs == front + [jobs[last]];
      if !Keeps(t, jobs[last], now) { assert Kept(t, jobs, now) == k; }
      forall target ensures Records(Kept(t, jobs, now), target) <= Records(jobs, target) {
        RecordsConcat(front, [jobs[last]], target);
        RecordsConcat(k, [jobs[last]], target);
      }
      if Keeps(t, jobs[last], now) { from := from + [last]; }
    }
  }

  lemma WithoutIs(jobs: seq<Job>, i: nat)
    requires i < |jobs| && DistinctIds(jobs) && OneEach(jobs)
    ensures DistinctIds(Without(jobs, i)) && OneEach(Without(jobs, i)) && |Without(jobs, i)| == |jobs| - 1
    ensures forall j :: j in jobs && j != jobs[i] ==> j in Without(jobs, i)
    ensures forall j :: j in Without(jobs, i) ==> j in jobs
  {
    var w := Without(jobs, i);
    forall j | j in jobs && j != jobs[i] ensures j in w {
      var k :| 0 <= k < |jobs| && jobs[k] == j;
      if k < i { assert w[k] == j; } else { assert w[k - 1] == j; }
    }
    var from := seq(|w|, k requires 0 <= k < |w| => if k < i then k else k + 1);
    PartKeeps(w, jobs, from);
  }

  /** What makes room keeps the unfinished jobs. */
  ghost predicate Shrinks(before: seq<Job>, after: seq<Job>) {
    && DistinctIds(after) && OneEach(after) && |after| <= |before|
    && (forall j :: j in after ==> j in before) && (forall j :: j in before && j.finished.None? ==> j in after)
    && (forall target :: Records(after, target) <= Records(before, target))
  }

  lemma SelfShrinks(jobs: seq<Job>)
    requires DistinctIds(jobs) && OneEach(jobs)
    ensures Shrinks(jobs, jobs)
  {
  }

  lemma SameUnfinished(before: seq<Job>, after: seq<Job>)
    requires Shrinks(before, after)
    ensures Unfinished(after) == Unfinished(before)
  {
    hide DistinctIds, OneEach, Records;
  }

  lemma PruneShrinks(t: Table, now: real)
    requires DistinctIds(t.jobs) && OneEach(t.jobs)
    ensures Shrinks(t.jobs, Prune(t, now).jobs)
  {
    hide DistinctIds, OneEach, Records, Kept;
    var from := KeptIs(t, t.jobs, now);
    PartKeeps(Kept(t, t.jobs, now), t.jobs, from);
  }

  lemma EvictShrinks(jobs: seq<Job>, i: nat)
    requires i < |jobs| && DistinctIds(jobs) && OneEach(jobs) && jobs[i].finished.Some?
    ensures Shrinks(jobs, Without(jobs, i))
  {
    hide Records;
    WithoutIs(jobs, i);
    forall target ensures Records(Without(jobs, i), target) <= Records(jobs, target) {
      RecordsWithout(jobs, i, target);
    }
  }

  /** Without an unfinished job, a target's records are its completed ones. */
  lemma {:induction false} IdleRecords(jobs: seq<Job>, target: string)
    requires !Busy(jobs, target)
    ensures Records(jobs, target) == Own(jobs, target)
  {
    if jobs != [] {
      var last := |jobs| - 1;
      assert !Busy(jobs[..last], target);
      IdleRecords(jobs[..last], target);
      assert jobs[last] in jobs;
    }
  }

  lemma ShareShrinks(jobs: seq<Job>, target: string)
    requires DistinctIds(jobs) && OneEach(jobs) && !Busy(jobs, target) && Records(jobs, target) <= RECORDS_PER_TARGET
    ensures Shrinks(jobs, OwnShare(jobs, target)) && Records(OwnShare(jobs, target), target) < RECORDS_PER_TARGET
  {
    hide DistinctIds, OneEach, Shrinks, Records, Own, Without, Busy;
    IdleRecords(jobs, target);
    SelfShrinks(jobs);
    var oldest := Oldest(jobs, Some(target));
    if Own(jobs, target) >= RECORDS_PER_TARGET {
      if oldest.None? { NoOwn(jobs, target); }
      EvictShrinks(jobs, oldest.value);
      RecordsWithout(jobs, oldest.value, target);
    }
  }

  lemma {:induction false} NoOwn(jobs: seq<Job>, target: string)
    requires forall j :: j in jobs ==> !Eligible(j, Some(target))
    ensures Own(jobs, target) == 0
  {
    if jobs != [] {
      NoOwn(jobs[..|jobs| - 1], target);
      assert jobs[|jobs| - 1] in jobs;
    }
  }

  // ---------------------------------------------------------------- events keep the invariant

  lemma ShrunkInv(t: Table, jobs: seq<Job>)
    requires Inv(t) && Shrinks(t.jobs, jobs)
    ensures Inv(t.(jobs := jobs))
  {
    hide DistinctIds, OneEach, Records;
    SameUnfinished(t.jobs, jobs);
  }

  /** Room for one more job of a target that has none running. */
  lemma AddedInv(t: Table, target: string, id: string)
    requires Inv(t) && !HasId(t.jobs, id) && !Busy(t.jobs, target) && |t.threads| < t.concurrency && |t.jobs| < t.limit
    requires Records(t.jobs, target) < RECORDS_PER_TARGET && id !in t.threads
    ensures Inv(t.(jobs := t.jobs + [Job(id, target, None)], threads := t.threads + {id}))
  {
    hide Records;
    var j := Job(id, target, None);
    var jobs := t.jobs + [j];
    forall x ensures Records(jobs, x) <= RECORDS_PER_TARGET {
      RecordsConcat(t.jobs, [j], x);
      RecordsOne(j, x);
    }
    assert DistinctIds(jobs) by {
      forall a, b | 0 <= a < b < |jobs| ensures jobs[a].id != jobs[b].id {
        if b == |t.jobs| { assert t.jobs[a] in t.jobs; }
      }
    }
    assert OneEach(jobs) by {
      forall a, b | 0 <= a < b < |jobs| && jobs[a].finished.None? && jobs[b].finished.None?
        ensures jobs[a].target != jobs[b].target
      {
        if b == |t.jobs| { assert t.jobs[a] in t.jobs; }
      }
    }
    assert Unfinished(jobs) == Unfinished(t.jobs) + {id} by {
      assert j in jobs;
      forall x | x in t.jobs ensures x in jobs { }
    }
  }

  lemma ShrunkIdle(before: seq<Job>, after: seq<Job>, target: string, id: string)
    requires Shrinks(before, after) && !Busy(before, target) && !HasId(before, id)
    ensures !Busy(after, target) && !HasId(after, id)
  {
    hide DistinctIds, OneEach, Records;
  }

  lemma SubmitKeeps(t0: Table, target: string, id: string, now: real)
    requires Inv(t0) && Legal(t0, Submitted(target, id, now))
    ensures Inv(Submit(t0, target, id, now).0)
    ensures Submit(t0, target, id, now).1.NoRoom? ==> t0.limit < t0.concurrency
  {
    hide Inv, Shrinks, Busy, HasId, OwnShare, Without, Kept;
    var t := Prune(t0, now);
    PruneInv(t0, now);
    PrunedFresh(t0, now, id);
    if !t.closed && !Busy(t.jobs, target) && |t.threads| < t.concurrency {
      var shared := OwnShare(t.jobs, target);
      InvParts(t, target);
      ShareShrinks(t.jobs, target);
      ShrunkInv(t, shared);
      ShrunkIdle(t.jobs, shared, target, id);
      var u := t.(jobs := shared);
      var oldest := Oldest(shared, None);
      InvParts(u, target);
      if |shared| < t.limit {
        AddedInv(u, target, id);
      } else if oldest.Some? {
        EvictShrinks(shared, oldest.value);
        var room := Without(shared, oldest.value);
        ShrunkInv(u, room);
        ShrunkIdle(shared, room, target, id);
        RecordsWithout(shared, oldest.value, target);
        WithoutIs(shared, oldest.value);
        AddedInv(u.(jobs := room), target, id);
      } else {
        AllRunning(u);
      }
    }
  }

  lemma InvParts(t: Table, target: string)
    requires Inv(t)
    ensures DistinctIds(t.jobs) && OneEach(t.jobs) && Records(t.jobs, target) <= RECORDS_PER_TARGET
            && |t.jobs| <= t.limit
  {
  }

  /** If nothing is completed, there are as many jobs as threads. */
  lemma AllRunning(t: Table)
    requires Inv(t) && forall j :: j in t.jobs ==> !Eligible(j, None)
    ensures |t.jobs| == |t.threads|
  {
    hide Records;
    CountIds(t.jobs);
    assert Unfinished(t.jobs) == set j | j in t.jobs :: j.id;
  }

  lemma {:induction false} CountIds(jobs: seq<Job>)
    requires DistinctIds(jobs)
    ensures |set j | j in jobs :: j.id| == |jobs|
  {
    if jobs != [] {
      var last := |jobs| - 1;
      var front := jobs[..last];
      CountIds(front);
      var ids := set j | j in front :: j.id;
      assert jobs == front + [jobs[last]];
      assert (set j | j in jobs :: j.id) == ids + {jobs[last].id};
      assert jobs[last].id !in ids;
    }
  }

  lemma PruneInv(t: Table, now: real)
    requires Inv(t)
    ensures Inv(Prune(t, now))
  {
    hide Records, Kept, Shrinks;
    PruneShrinks(t, now);
    ShrunkInv(t, Kept(t, t.jobs, now));
  }

  lemma PrunedFresh(t: Table, now: real, id: string)
    requires Inv(t) && !HasId(t.jobs, id)
    ensures !HasId(Prune(t, now).jobs, id)
  {
    hide Records, Kept;
    PruneShrinks(t, now);
  }

  lemma FinishKeeps(t: Table, id: string, now: real)
    requires Inv(t) && id in t.threads
    ensures Inv(Finish(t, id, now))
  {
    var after := Finish(t, id, now);
    forall target ensures Records(after.jobs, target) == Records(t.jobs, target) {
      SameRecords(t.jobs, after.jobs, target);
    }
    assert Unfinished(after.jobs) == Unfinished(t.jobs) - {id} by {
      forall x | x in Unfinished(t.jobs) - {id} ensures x in Unfinished(after.jobs) {
        var j :| j in t.jobs && j.finished.None? && j.id == x;
        var i :| 0 <= i < |t.jobs| && t.jobs[i] == j;
        assert after.jobs[i] == j;
      }
    }
    Fewer(after.threads, t.threads);
  }

  lemma Fewer(a: set<string>, b: set<string>)
    requires a <= b
    ensures |a| <= |b|
    decreases a
  {
    if a != {} {
      var x :| x in a;
      Fewer(a - {x}, b - {x});
    }
  }

  lemma {:induction false} SameRecords(a: seq<Job>, b: seq<Job>, target: string)
    requires |a| == |b| && forall i :: 0 <= i < |a| ==> a[i].target == b[i].target
    ensures Records(a, target) == Records(b, target)
  {
    if a != [] { SameRecords(a[..|a| - 1], b[..|b| - 1], target); }
  }

  lemma EventKeeps(t: Table, ev: Event)
    requires Inv(t) && Legal(t, ev)
    ensures Inv(Next(t, ev)) && Next(t, ev).limit == t.limit && Next(t, ev).concurrency == t.concurrency
  {
    hide DistinctIds, OneEach, Records, Finish, Kept, HasId;
    match ev {
      case Submitted(target, id, now) => SubmitKeeps(t, target, id, now);
      case Finished(id, now) => FinishKeeps(t, id, now); FinishFrame(t, id, now);
      case Read(now) => PruneInv(t, now);
      case Closing =>
    }
  }

  lemma FinishFrame(t: Table, id: string, now: real)
    ensures var a := Finish(t, id, now); a.limit == t.limit && a.concurrency == t.concurrency
  {
  }

  /** In every interleaving: one thread per unfinished job and no more than allowed, one
      running job and eight records per target, and the table within its limit. */
  lemma {:induction false} EveryInterleavingKeeps(limit: nat, concurrency: nat, retention: real, events: seq<Event>)
    requires Runs(Empty(limit, concurrency, retention), events)
    ensures var t := After(Empty(limit, concurrency, retention), events);
            Inv(t) && t.limit == limit && t.concurrency == concurrency
  {
    hide Inv, Next, Legal;
    if events == [] {
      EmptyInv(limit, concurrency, retention);
    } else {
      EveryInterleavingKeeps(limit, concurrency, retention, events[..|events| - 1]);
      EventKeeps(After(Empty(limit, concurrency, retention), events[..|events| - 1]), events[|events| - 1]);
    }
  }

  lemma EmptyInv(limit: nat, concurrency: nat, retention: real)
    ensures Inv(Empty(limit, concurrency, retention))
  {
  }

  /** A running job is never evicted or pruned: only its own end changes it. */
  lemma RunningJobStays(t: Table, ev: Event, j: Job)
    requires Inv(t) && Legal(t, ev) && j in t.jobs && j.finished.None? && !(ev.Finished? && ev.id == j.id)
    ensures j in Next(t, ev).jobs
  {
    hide Records;
    match ev {
      case Submitted(target, id, now) => SubmitKeepsRunning(t, target, id, now, j);
      case Finished(id, now) =>
        var i :| 0 <= i < |t.jobs| && t.jobs[i] == j;
        assert Finish(t, id, now).jobs[i] == j;
      case Read(now) => PruneShrinks(t, now);
      case Closing =>
    }
  }

  lemma SubmitKeepsRunning(t0: Table, target: string, id: string, now: real, j: Job)
    requires Inv(t0) && j in t0.jobs && j.finished.None?
    ensures j in Submit(t0, target, id, now).0.jobs
  {
    hide Records, Inv, Busy, OwnShare, Kept, Without, DistinctIds, OneEach;
    var t := Prune(t0, now);
    InvParts(t0, target);
    PruneInv(t0, now);
    PruneShrinks(t0, now);
    InvParts(t, target);
    if !t.closed && !Busy(t.jobs, target) && |t.threads| < t.concurrency {
      ShareShrinks(t.jobs, target);
      var shared := OwnShare(t.jobs, target);
      var oldest := Oldest(shared, None);
      if oldest.Some? { WithoutIs(shared, oldest.value); }
    }
  }

  // ---------------------------------------------------------------- the refusal for lack of room

  /** Distinct names. */
  function Unary(n: nat): string { if n == 0 then "" else Unary(n - 1) + "x" }

  lemma {:induction false} UnaryLength(n: nat)
    ensures |Unary(n)| == n
  {
    if n > 0 { UnaryLength(n - 1); }
  }

  function Fill(n: nat): seq<Event> {
    if n == 0 then [] else Fill(n - 1) + [Submitted(Unary(n - 1), Unary(n - 1), 0.0)]
  }

  function Filled(n: nat): seq<Job> {
    if n == 0 then [] else Filled(n - 1) + [Job(Unary(n - 1), Unary(n - 1), None)]
  }

  lemma {:induction false} FilledIs(n: nat)
    ensures |Filled(n)| == n && forall j :: j in Filled(n) ==> j.finished.None? && j.id == j.target && |j.id| < n
  {
    if n > 0 {
      FilledIs(n - 1);
      UnaryLength(n - 1);
    }
  }

  lemma {:induction false} AllKept(t: Table, jobs: seq<Job>, now: real)
    requires forall j :: j in jobs ==> j.finished.None?
    ensures Kept(t, jobs, now) == jobs
  {
    if jobs != [] {
      AllKept(t, jobs[..|jobs| - 1], now);
      assert jobs[|jobs| - 1] in jobs;
      assert jobs == jobs[..|jobs| - 1] + [jobs[|jobs| - 1]];
    }
  }

  /** `n` jobs of different targets fill the table. */
  lemma {:induction false} FillRuns(limit: nat, concurrency: nat, retention: real, n: nat)
    requires n <= limit < concurrency
    ensures var t := Empty(limit, concurrency, retention);
            && Runs(t, Fill(n)) && After(t, Fill(n)).jobs == Filled(n) && !After(t, Fill(n)).closed
            && (forall x :: x in After(t, Fill(n)).threads ==> |x| < n)
  {
    hide Inv, Submit, Legal, Runs, After, Unary;
    var empty := Empty(limit, concurrency, retention);
    if n == 0 {
      NoEvents(empty);
    } else {
      FillRuns(limit, concurrency, retention, n - 1);
      var before := Fill(n - 1);
      var t := After(empty, before);
      EveryInterleavingKeeps(limit, concurrency, retention, before);
      UnaryLength(n - 1);
      FillStep(t, n - 1);
      OneMore(empty, before, Submitted(Unary(n - 1), Unary(n - 1), 0.0));
    }
  }

  lemma NoEvents(t: Table)
    ensures Runs(t, []) && After(t, []) == t
  {
  }

  lemma OneMore(t: Table, events: seq<Event>, ev: Event)
    requires Runs(t, events) && Legal(After(t, events), ev)
    ensures Runs(t, events + [ev]) && After(t, events + [ev]) == Next(After(t, events), ev)
  {
    hide Next, Legal;
    assert (events + [ev])[..|events|] == events;
  }

  lemma FillStep(t: Table, n: nat)
    requires Inv(t) && t.jobs == Filled(n) && n < t.limit < t.concurrency && !t.closed
             && forall x :: x in t.threads ==> |x| < n
    ensures var id := Unary(n);
            && Legal(t, Submitted(id, id, 0.0))
            && var s := Submit(t, id, id, 0.0);
               s.0 == t.(jobs := Filled(n) + [Job(id, id, None)], threads := t.threads + {id})
  {
    hide Inv, Filled, Unary, Busy, Prune, OwnShare, Oldest, Legal;
    FilledRoom(t, n);
  }

  /** A filled table with room: nothing to prune, nothing running for the next target. */
  lemma FilledRoom(t: Table, n: nat)
    requires Inv(t) && t.jobs == Filled(n) && n < t.limit < t.concurrency && !t.closed
             && forall x :: x in t.threads ==> |x| < n
    ensures var id := Unary(n);
            && Legal(t, Submitted(id, id, 0.0)) && Prune(t, 0.0) == t && !Busy(t.jobs, id)
            && |t.threads| < t.concurrency && |t.jobs| < t.limit && OwnShare(t.jobs, id) == t.jobs
  {
    hide Records;
    FilledIs(n);
    UnaryLength(n);
    AllKept(t, t.jobs, 0.0);
    AllRunning(t);
    NoOwn(t.jobs, Unary(n));
    assert !Busy(t.jobs, Unary(n));
  }

  /** Submitting to a full table without a completed job is refused for lack of room. */
  lemma FullRefuses(t: Table)
    requires Inv(t) && t.jobs == Filled(t.limit) && t.limit < t.concurrency && !t.closed
    ensures Submit(t, Unary(t.limit), Unary(t.limit), 0.0).1.NoRoom?
  {
    hide Records;
    var n := t.limit;
    FilledIs(n);
    UnaryLength(n);
    AllKept(t, t.jobs, 0.0);
    AllRunning(t);
    NoOwn(t.jobs, Unary(n));
    assert !Busy(t.jobs, Unary(n));
  }

  /** The refusal for lack of room can happen exactly if more threads than records are
      allowed. */
  lemma NoRoomIffMoreThreads(limit: nat, concurrency: nat, retention: real)
    ensures limit < concurrency
            <==> exists events, target, id, now ::
                Refuses(Empty(limit, concurrency, retention), events, target, id, now)
  {
    var empty := Empty(limit, concurrency, retention);
    if limit < concurrency {
      FillRuns(limit, concurrency, retention, limit);
      var t := After(empty, Fill(limit));
      EveryInterleavingKeeps(limit, concurrency, retention, Fill(limit));
      FilledIs(limit);
      UnaryLength(limit);
      FullRefuses(t);
      assert Refuses(empty, Fill(limit), Unary(limit), Unary(limit), 0.0);
    }
    forall events, target, id, now | Refuses(empty, events, target, id, now) ensures limit < concurrency {
      EveryInterleavingKeeps(limit, concurrency, retention, events);
      SubmitKeeps(After(empty, events), target, id, now);
    }
  }

  ghost predicate Refuses(t: Table, events: seq<Event>, target: string, id: string, now: real) {
    && Runs(t, events) && Legal(After(t, events), Submitted(target, id, now))
    && Submit(After(t, events), target, id, now).1.NoRoom?
  }
}
