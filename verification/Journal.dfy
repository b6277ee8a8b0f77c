/** The projection of observed warnings into problems (fabric/journal.py): a problem is
    resolved exactly by an unbroken chain of healthy samples, never for lack of news. */
module Journal {
  import opened Bytes

  datatype Verdict = Fine | Warning | Neither

  datatype Check = Check(key: string, verdict: Verdict, counters: seq<string>)

  datatype Endpoint = Endpoint(id: string, reachable: bool, sample: Option<real>, checks: seq<Check>)

  datatype State = Active | Unknown | Resolved

  /** What an observation means for a problem. Repeated samples mean nothing. */
  datatype Note = Fault(at: real) | Healthy(at: real) | Silent(at: real) | Stale | Missing

  /** A stored problem; its number is its place. */
  datatype Problem = Problem(target: string, code: string, since: real, seen: real, state: State, count: nat,
                             ended: Option<real>)

  datatype Book = Book(rows: seq<Problem>, samples: map<string, real>, recovery: map<nat, (real, real)>)

  // ---------------------------------------------------------------- checks

  const ERRORS := "errors"
  const ERRORS_PREFIX := "errors:"

  function CheckFaults(c: Check): set<string> {
    if !c.verdict.Warning? then {}
    else if c.key == ERRORS then set x | x in c.counters :: ERRORS_PREFIX + x
    else {c.key}
  }

  predicate CheckHeals(c: Check, code: string) {
    if c.key == ERRORS then !c.verdict.Neither? && ERRORS_PREFIX <= code
    else c.verdict.Fine? && c.key == code
  }

  function Faults(checks: seq<Check>): set<string> {
    set c, x | c in checks && x in CheckFaults(c) :: x
  }

  predicate Heals(checks: seq<Check>, code: string) {
    exists c :: c in checks && CheckHeals(c, code)
  }

  /** Reached, with a sample that is neither run nor from the future. */
  predicate Fresh(e: Endpoint, tick: real) {
    e.reachable && e.sample.Some? && -5.0 <= tick - e.sample.value <= 15.0
  }

  predicate Newer(b: Book, e: Endpoint)
    requires e.sample.Some?
  {
    e.id in b.samples ==> b.samples[e.id] < e.sample.value
  }

  function NoteOf(e: Endpoint, code: string): Note
    requires e.sample.Some?
  {
    if code in Faults(e.checks) then Fault(e.sample.value)
    else if Heals(e.checks, code) then Healthy(e.sample.value)
    else Silent(e.sample.value)
  }

  // ---------------------------------------------------------------- one row

  /** The recovery in progress, continued by a healthy sample. */
  function Continued(run: Option<(real, real)>, t: real): (real, real) {
    if run.Some? && 0.0 < t - run.value.1 <= 15.0 then (run.value.0, t) else (t, t)
  }

  function Noted(row: Problem, run: Option<(real, real)>, n: Note): Problem {
    match n
    case Fault(t) => row.(seen := t, count := row.count + 1)
    case Healthy(t) => if t - Continued(run, t).0 >= 30.0 then row.(state := Resolved, ended := Some(t)) else row
    case Silent(_) => row
    case Stale => row
    case Missing => row.(state := Unknown)
  }

  function Recovery(run: Option<(real, real)>, n: Note): Option<(real, real)> {
    if n.Healthy? && n.at - Continued(run, n.at).0 < 30.0 then Some(Continued(run, n.at)) else None
  }

  function Get(m: map<nat, (real, real)>, i: nat): Option<(real, real)> {
    if i in m then Some(m[i]) else None
  }

  // ---------------------------------------------------------------- the book

  /** Gives each concerned row its note. */
  function Marked(b: Book, notes: map<nat, Note>): Book {
    b.(rows := seq(|b.rows|, i requires 0 <= i < |b.rows| =>
               if i in notes then Noted(b.rows[i], Get(b.recovery, i), notes[i]) else b.rows[i]),
       recovery := map i | i in b.recovery.Keys + notes.Keys
                           && (if i in notes then Recovery(Get(b.recovery, i), notes[i])
                               else Get(b.recovery, i)).Some? ::
                     (if i in notes then Recovery(Get(b.recovery, i), notes[i]) else Get(b.recovery, i)).value)
  }

  predicate Concerns(b: Book, i: nat, target: string) {
    i < |b.rows| && b.rows[i].state.Active? && b.rows[i].target == target
  }

  predicate Open(b: Book, target: string, code: string) {
    exists i :: 0 <= i < |b.rows| && Concerns(b, i, target) && b.rows[i].code == code
  }

  function StaleNotes(b: Book, target: string): map<nat, Note> {
    map i | 0 <= i < |b.rows| && Concerns(b, i, target) :: Stale
  }

  function SampleNotes(b: Book, e: Endpoint): map<nat, Note>
    requires e.sample.Some?
  {
    map i | 0 <= i < |b.rows| && Concerns(b, i, e.id) :: NoteOf(e, b.rows[i].code)
  }

  function NewRow(e: Endpoint, code: string): Problem
    requires e.sample.Some?
  {
    var t := e.sample.value;
    Problem(e.id, code, t, t, Active, 1, None)
  }

  /** The faults of a sample, in the order of its checks; each once. */
  function FaultOrder(checks: seq<Check>): seq<string> {
    if checks == [] then [] else AddNew(FaultOrder(checks[..|checks| - 1]), CheckOrder(checks[|checks| - 1]))
  }

  function CheckOrder(c: Check): seq<string> {
    if !c.verdict.Warning? then []
    else if c.key == ERRORS then seq(|c.counters|, i requires 0 <= i < |c.counters| => ERRORS_PREFIX + c.counters[i])
    else [c.key]
  }

  function AddNew(a: seq<string>, b: seq<string>): seq<string> {
    if b == [] then a
    else
      var front := AddNew(a, b[..|b| - 1]);
      if b[|b| - 1] in front then front else front + [b[|b| - 1]]
  }

  /** New rows for the faults without an active one. */
  function Opened(b: Book, before: Book, e: Endpoint, codes: seq<string>): Book
    requires e.sample.Some?
  {
    if codes == [] then b
    else
      var rest := Opened(b, before, e, codes[..|codes| - 1]);
      var code := codes[|codes| - 1];
      if Open(before, e.id, code) then rest else rest.(rows := rest.rows + [NewRow(e, code)])
  }

  function Visit(b: Book, e: Endpoint, tick: real): Book {
    if !Fresh(e, tick) then Marked(b, StaleNotes(b, e.id))
    else if !Newer(b, e) then b
    else
      var sampled := b.(samples := b.samples[e.id := e.sample.value]);
      Opened(Marked(sampled, SampleNotes(b, e)), b, e, FaultOrder(e.checks))
  }

  function Visits(b: Book, endpoints: seq<Endpoint>, tick: real): Book {
    if endpoints == [] then b
    else Visit(Visits(b, endpoints[..|endpoints| - 1], tick), endpoints[|endpoints| - 1], tick)
  }

  /** Targets that are no longer there leave their problems undecided. */
  function Absent(b: Book, present: set<string>): Book {
    var kept := b.(samples := map t | t in b.samples && t in present :: b.samples[t]);
    Marked(kept, map i | 0 <= i < |b.rows| && b.rows[i].state.Active? && b.rows[i].target !in present :: Missing)
  }

  function Observe(b: Book, endpoints: seq<Endpoint>, tick: real): Book {
    Visits(Absent(b, set e | e in endpoints :: e.id), endpoints, tick)
  }

  /** A restart breaks the continuity of observation. */
  function Restart(b: Book): Book {
    Absent(b, {}).(samples := map[], recovery := map[])
  }

  // ---------------------------------------------------------------- what a target shows

  /** What an observation shows of one target: nothing, or an endpoint's state. */
  datatype Moment = Gone | Shown(e: Endpoint, tick: real)

  predicate FreshAt(ms: seq<Moment>, m: nat)
    requires m < |ms|
  {
    ms[m].Shown? && Fresh(ms[m].e, ms[m].tick)
  }

  /** The greatest fresh sample since the target was last gone (`LatestIsGreatest`). */
  function Latest(ms: seq<Moment>, n: nat): Option<real>
    requires n <= |ms|
  {
    if n == 0 || ms[n - 1].Gone? then None
    else if FreshAt(ms, n - 1) && Exceeds(ms[n - 1].e.sample.value, Latest(ms, n - 1)) then ms[n - 1].e.sample
    else Latest(ms, n - 1)
  }

  predicate Exceeds(t: real, latest: Option<real>) {
    latest.Some? ==> latest.value < t
  }

  /** A fresh sample, newer than all since the target was last gone. */
  predicate News(ms: seq<Moment>, m: nat)
    requires m < |ms|
  {
    FreshAt(ms, m) && Exceeds(ms[m].e.sample.value, Latest(ms, m))
  }

  /** A fresh sample that is not newer. */
  predicate Repeats(ms: seq<Moment>, m: nat)
    requires m < |ms|
  {
    FreshAt(ms, m) && !News(ms, m)
  }

  /** The time of a fresh sample. */
  function SampleAt(ms: seq<Moment>, m: nat): real
    requires m < |ms|
  {
    if FreshAt(ms, m) then ms[m].e.sample.value else 0.0
  }

  /** A new sample that shows the fault. */
  predicate Faulty(ms: seq<Moment>, m: nat, code: string)
    requires m < |ms|
  {
    News(ms, m) && code in Faults(ms[m].e.checks)
  }

  /** A new sample that shows the fault healed. */
  predicate Healing(ms: seq<Moment>, m: nat, code: string)
    requires m < |ms|
  {
    News(ms, m) && code !in Faults(ms[m].e.checks) && Heals(ms[m].e.checks, code)
  }

  /** From one sample to a newer one, at most 15 seconds later; in between the target shows
      nothing but samples already seen. */
  ghost predicate Continues(ms: seq<Moment>, l: nat, m: nat) {
    && l < m < |ms| && FreshAt(ms, l) && FreshAt(ms, m)
    && 0.0 < SampleAt(ms, m) - SampleAt(ms, l) <= 15.0
    && forall x :: l < x < m ==> Repeats(ms, x)
  }

  /** New healthy samples, each continued by the next. */
  ghost predicate Unbroken(ms: seq<Moment>, code: string, js: seq<nat>) {
    && js != []
    && (forall k :: 0 <= k < |js| ==> js[k] < |ms| && Healing(ms, js[k], code))
    && (forall k :: 0 < k < |js| ==> Continues(ms, js[k - 1], js[k]))
  }

  /** An unbroken recovery over 30 seconds, after `from` and complete at `last`. */
  ghost predicate Recovers(ms: seq<Moment>, code: string, from: nat, last: nat, js: seq<nat>) {
    && Unbroken(ms, code, js) && from < js[0] && js[|js| - 1] == last
    && SampleAt(ms, last) - SampleAt(ms, js[0]) >= 30.0
  }

  ghost predicate Recovered(ms: seq<Moment>, code: string, from: nat, last: nat) {
    exists js :: Recovers(ms, code, from, last, js)
  }

  /** After `from`, neither has the target gone nor was a recovery complete. */
  ghost predicate Pending(ms: seq<Moment>, code: string, from: nat, to: nat)
    requires to <= |ms|
  {
    forall m :: from < m < to ==> !ms[m].Gone? && !Recovered(ms, code, from, m)
  }

  /** The moments since `from` that show the fault in a new sample. */
  ghost function FaultyIn(ms: seq<Moment>, code: string, from: nat, to: nat): set<nat>
    requires to <= |ms|
  {
    set m | from <= m < to && Faulty(ms, m, code)
  }

  /** What a stored problem must say, by what its target showed from the moment `from`, in
      which it opened, up to `to`, where it ended or the observations do. */
  ghost predicate Tells(ms: seq<Moment>, row: Problem, from: nat, to: nat) {
    && from < to <= |ms|
    && Faulty(ms, from, row.code) && row.since == SampleAt(ms, from)
    && row.count == |FaultyIn(ms, row.code, from, to)|
    && (exists m :: from <= m < to && Faulty(ms, m, row.code) && row.seen == SampleAt(ms, m)
                    && forall l :: m < l < to ==> !Faulty(ms, l, row.code))
    && match row.state
       case Active => to == |ms| && row.ended.None? && Pending(ms, row.code, from, to)
       case Unknown => ms[to - 1].Gone? && row.ended.None? && Pending(ms, row.code, from, to - 1)
       case Resolved =>
         && Pending(ms, row.code, from, to - 1) && Recovered(ms, row.code, from, to - 1)
         && FreshAt(ms, to - 1) && row.ended == Some(SampleAt(ms, to - 1))
  }
}
