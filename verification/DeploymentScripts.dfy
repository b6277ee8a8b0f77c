/** What single attempts of a deployment do (fabric/tunnel_deployments.py): the steps of the
    script, their order, and the rollbacks. */
module DeploymentScripts {
  import opened Bytes
  import opened TunnelDeployments

  // ---------------------------------------------------------------- what a script does

  /** All steps of a script, each successful. */
  function AllDone(script: seq<Item>): seq<Action> {
    if script == [] then []
    else (if script[0].Try? then [Do(script[0].side, script[0].step, true)] else []) + AllDone(script[1..])
  }

  function Dos(actions: seq<Action>): seq<Action> {
    if actions == [] then [] else (if actions[0].Do? then [actions[0]] else []) + Dos(actions[1..])
  }

  lemma {:induction false} DosConcat(x: seq<Action>, y: seq<Action>)
    ensures Dos(x + y) == Dos(x) + Dos(y)
  {
    if x == [] {
      assert x + y == y;
    } else {
      assert (x + y)[1..] == x[1..] + y;
      DosConcat(x[1..], y);
      Assoc(if x[0].Do? then [x[0]] else [], Dos(x[1..]), Dos(y));
    }
  }

  lemma StepDos(s: Side, step: StepName, ok: bool)
    ensures Dos(Step(s, step, ok)) == [Do(s, step, ok)]
  {
    var x := Step(s, step, ok);
    assert x == [x[0]] + [x[1]] + [x[2]];
    DosConcat([x[0]] + [x[1]], [x[2]]);
    DosConcat([x[0]], [x[1]]);
    assert forall y: Action :: [y][1..] == [];
  }

  /** A script that succeeds has done all its steps, in its order. */
  lemma {:induction false} PlayDoes(script: seq<Item>, o: nat -> bool, n: nat)
    requires forall x :: x in script ==> !(x.Note? && x.action.Do?)
    ensures var p := Play(script, o, n); p.ok ==> Dos(p.actions) == AllDone(script)
  {
    if script != [] {
      var next := if script[0].Try? then n + 1 else n;
      PlayDoes(script[1..], o, next);
      var rest := Play(script[1..], o, next);
      match script[0] {
        case Note(x) => assert ([x] + rest.actions)[1..] == rest.actions;
        case Begin(_) =>
        case Try(s, step) =>
          StepDos(s, step, true);
          DosConcat(Step(s, step, true), rest.actions);
      }
    }
  }

  /** The kind of action that may occur during a deployment. */
  predicate Constructive(x: Action) {
    match x
    case SetStatus(s) => s.Starting?
    case SetSide(_, st) => !st.Down?
    case Do(_, _, _) => true
    case Erase(_) => false
  }

  lemma {:induction false} PlayIsConstructive(script: seq<Item>, o: nat -> bool, n: nat)
    requires forall x :: x in script && x.Note? ==> Constructive(x.action)
    ensures forall x :: x in Play(script, o, n).actions ==> Constructive(x)
  {
    if script != [] {
      PlayIsConstructive(script[1..], o, if script[0].Try? then n + 1 else n);
    }
  }

  lemma {:induction false} RollbackIsConstructive(c: Config, sides: seq<Side>, o: nat -> bool, n: nat)
    ensures forall x :: x in Rollback(c, sides, o, n) ==> Constructive(x)
  {
    if sides != [] { RollbackIsConstructive(c, sides[1..], o, n + 1); }
  }

  lemma ScriptNotes(c: Config)
    ensures forall x :: x in Script(c) && x.Note? ==> Constructive(x.action) && !x.action.Do?
  {
    hide PrepareBoth, Start, Enable;
    PrepareNotes(c);
    StartNotes(c, Listener(c));
    StartNotes(c, Initiator(c));
    EnableNotes(c, Listener(c));
    EnableNotes(c, Initiator(c));
  }

  lemma PrepareNotes(c: Config)
    ensures forall x :: x in PrepareBoth(c) ==> x.Try?
  {
  }

  lemma StartNotes(c: Config, s: Side)
    ensures forall x :: x in Start(c, s) && x.Note? ==> x.action == SetSide(s, Up)
  {
    hide StartSteps;
  }

  lemma EnableNotes(c: Config, s: Side)
    ensures forall x :: x in Enable(c, s) && x.Note? ==> x.action == SetSide(s, Up)
  {
  }

  /** A deployment is: the claim, constructive actions, and the verdict. */
  lemma DeployShape(c: Config, o: nat -> bool)
    ensures var x := Deploy(c, o);
            && |x| >= 2 && x[0] == SetStatus(Preparing)
            && (x[|x| - 1] == SetStatus(Running) || x[|x| - 1] == SetStatus(Failed))
            && forall i :: 1 <= i < |x| - 1 ==> Constructive(x[i])
  {
    hide Script, Play, Rollback;
    ScriptNotes(c);
    var p := Play(Script(c), o, 0);
    PlayIsConstructive(Script(c), o, 0);
    RollbackIsConstructive(c, Reversed(p.started), o, p.used);
    var x := Deploy(c, o);
    forall i | 1 <= i < |x| - 1 ensures Constructive(x[i]) {
      assert x[i] in p.actions || x[i] in Rollback(c, Reversed(p.started), o, p.used);
    }
  }

  /** While constructive actions go on, the key stays and no side is down. */
  lemma {:induction false} ConstructiveKeeps(d: Deployment, actions: seq<Action>)
    requires forall x :: x in actions ==> Constructive(x)
    ensures var e := Exec(d, actions);
            && e.key == d.key && (e.status == d.status || e.status.Starting?)
            && (!d.a.Down? ==> !e.a.Down?) && (!d.b.Down? ==> !e.b.Down?) && e.attempt == d.attempt + Dos(actions)
  {
    if actions != [] {
      var last := |actions| - 1;
      ConstructiveKeeps(d, actions[..last]);
      assert Constructive(actions[last]);
      assert actions == actions[..last] + [actions[last]] && [actions[last]][1..] == [];
      DosConcat(actions[..last], [actions[last]]);
    }
  }

  // ---------------------------------------------------------------- order of starts and rollbacks

  lemma {:induction false} AllDoneConcat(x: seq<Item>, y: seq<Item>)
    ensures AllDone(x + y) == AllDone(x) + AllDone(y)
  {
    if x == [] {
      assert x + y == y;
    } else {
      assert (x + y)[1..] == x[1..] + y;
      AllDoneConcat(x[1..], y);
      Assoc(if x[0].Try? then [Do(x[0].side, x[0].step, true)] else [], AllDone(x[1..]), AllDone(y));
    }
  }

  lemma {:induction false} AllDoneTries(s: Side, steps: seq<StepName>)
    ensures AllDone(Tries(s, steps)) == seq(|steps|, i requires 0 <= i < |steps| => Do(s, steps[i], true))
  {
    if steps != [] {
      assert Tries(s, steps)[1..] == Tries(s, steps[1..]);
      AllDoneTries(s, steps[1..]);
    }
  }

  function Done(s: Side, steps: seq<StepName>): seq<Action> {
    seq(|steps|, i requires 0 <= i < |steps| => Do(s, steps[i], true))
  }

  lemma StartDone(c: Config, s: Side)
    ensures AllDone(Start(c, s)) == Done(s, StartSteps(c, s))
  {
    hide StartSteps;
    var steps := StartSteps(c, s);
    AllDoneConcat([Begin(s)] + Tries(s, steps), [Note(SetSide(s, Up))]);
    AllDoneConcat([Begin(s)], Tries(s, steps));
    AllDoneTries(s, steps);
    assert [Begin(s)][1..] == [] && [Note(SetSide(s, Up))][1..] == [];
  }

  /** What a script does, by its parts. */
  lemma ScriptDone(c: Config)
    ensures var l, i := Listener(c), Initiator(c);
            AllDone(Script(c)) == AllDone(PrepareBoth(c)) + Done(l, StartSteps(c, l)) + Done(i, StartSteps(c, i))
                                  + AllDone(Enable(c, l)) + AllDone(Enable(c, i))
  {
    hide PrepareBoth, Start, Enable, StartSteps, Done, AllDone;
    var l, i := Listener(c), Initiator(c);
    var note := [Note(SetStatus(Starting))];
    var one := PrepareBoth(c) + note;
    AllDoneConcat(one + Start(c, l) + Start(c, i) + Enable(c, l), Enable(c, i));
    AllDoneConcat(one + Start(c, l) + Start(c, i), Enable(c, l));
    AllDoneConcat(one + Start(c, l), Start(c, i));
    AllDoneConcat(one, Start(c, l));
    AllDoneConcat(PrepareBoth(c), note);
    NoteDone(SetStatus(Starting));
    assert AllDone(PrepareBoth(c)) + [] == AllDone(PrepareBoth(c));
    StartDone(c, l);
    StartDone(c, i);
  }

  lemma NoteDone(x: Action)
    ensures AllDone([Note(x)]) == []
  {
    assert [Note(x)][1..] == [];
  }

  /** The step is one of those that start the side. */
  predicate Starts(c: Config, x: Action, s: Side) {
    x.Do? && x.side == s && x.step in StartSteps(c, s)
  }

  predicate AllSucceeded(dos: seq<Action>, s: Side, steps: seq<StepName>) {
    forall step :: step in steps ==> Do(s, step, true) in dos
  }

  /** No step that starts the initiator is tried before every step that starts the listener
      has succeeded. */
  predicate InOrder(c: Config, dos: seq<Action>) {
    forall j :: 0 <= j < |dos| && Starts(c, dos[j], Initiator(c)) ==>
      AllSucceeded(dos[..j], Listener(c), StartSteps(c, Listener(c)))
  }

  lemma InOrderSnoc(c: Config, dos: seq<Action>, x: Action)
    requires InOrder(c, dos)
             && (Starts(c, x, Initiator(c)) ==> AllSucceeded(dos, Listener(c), StartSteps(c, Listener(c))))
    ensures InOrder(c, dos + [x])
  {
    hide StartSteps, Starts, AllSucceeded;
    var all := dos + [x];
    forall j | 0 <= j < |all| && Starts(c, all[j], Initiator(c))
      ensures AllSucceeded(all[..j], Listener(c), StartSteps(c, Listener(c)))
    {
      if j < |dos| { assert all[..j] == dos[..j]; } else { assert all[..j] == dos; }
    }
  }

  lemma InOrderPrefix(c: Config, dos: seq<Action>, more: seq<Action>)
    requires InOrder(c, dos + more)
    ensures InOrder(c, dos)
  {
    hide StartSteps, Starts, AllSucceeded;
    var all := dos + more;
    forall j | 0 <= j < |dos| && Starts(c, dos[j], Initiator(c))
      ensures AllSucceeded(dos[..j], Listener(c), StartSteps(c, Listener(c)))
    {
      assert all[j] == dos[j] && all[..j] == dos[..j];
    }
  }

  /** What a script has tried, up to a failure, are its steps in order, all but the last
      successful. */
  ghost predicate Follows(dos: seq<Action>, all: seq<Action>) {
    && |dos| <= |all|
    && (forall i :: 0 <= i < |dos| ==>
          dos[i].Do? && all[i].Do? && dos[i].side == all[i].side && dos[i].step == all[i].step)
    && (forall i :: 0 <= i < |dos| - 1 ==> dos[i] == all[i])
  }

  lemma {:induction false} PlayFollows(script: seq<Item>, o: nat -> bool, n: nat)
    requires forall x :: x in script ==> !(x.Note? && x.action.Do?)
    ensures Follows(Dos(Play(script, o, n).actions), AllDone(script))
  {
    hide Dos, Step;
    if script == [] {
      assert Dos([]) == [] by { NoDos(); }
    } else {
      var next := if script[0].Try? then n + 1 else n;
      PlayFollows(script[1..], o, next);
      var rest := Play(script[1..], o, next).actions;
      match script[0] {
        case Note(x) =>
          DosConcat([x], rest);
          NoDo(x);
          assert [] + Dos(rest) == Dos(rest);
          assert [] + AllDone(script[1..]) == AllDone(script[1..]);
        case Begin(_) => assert [] + AllDone(script[1..]) == AllDone(script[1..]);
        case Try(s, step) =>
          StepDos(s, step, o(n));
          if o(n) {
            DosConcat(Step(s, step, true), rest);
            FollowsCons(Do(s, step, true), Dos(rest), AllDone(script[1..]));
          }
      }
    }
  }

  lemma NoDos()
    ensures Dos([]) == []
  {
  }

  lemma FollowsCons(x: Action, dos: seq<Action>, all: seq<Action>)
    requires x.Do? && Follows(dos, all)
    ensures Follows([x] + dos, [x] + all)
  {
  }

  lemma PrepareStartsNothing(c: Config)
    ensures forall x :: x in AllDone(PrepareBoth(c)) ==> !Starts(c, x, SideA) && !Starts(c, x, SideB)
  {
    hide AllDone, Prepare;
    AllDoneConcat(Prepare(c, SideA), Prepare(c, SideB));
    AllDoneConcat(Prepare(c, SideB), Prepare(c, SideA));
    PrepareStartsNone(c, SideA);
    PrepareStartsNone(c, SideB);
  }

  lemma PrepareStartsNone(c: Config, s: Side)
    ensures forall x :: x in AllDone(Prepare(c, s)) ==> !Starts(c, x, SideA) && !Starts(c, x, SideB)
  {
    hide AllDone, Starts;
    AllDoneFrom(Prepare(c, s));
    forall x | x in AllDone(Prepare(c, s)) ensures !Starts(c, x, SideA) && !Starts(c, x, SideB) {
      PrepareNeverStarts(c, s, x);
    }
  }

  lemma {:induction false} AllDoneFrom(script: seq<Item>)
    ensures forall x :: x in AllDone(script) ==> x.Do? && Try(x.side, x.step) in script
  {
    if script != [] { AllDoneFrom(script[1..]); }
  }

  lemma PrepareNeverStarts(c: Config, s: Side, x: Action)
    requires x.Do? && Try(x.side, x.step) in Prepare(c, s)
    ensures !Starts(c, x, SideA) && !Starts(c, x, SideB)
  {
  }

  /** Whatever follows the script stays in order. */
  lemma FollowsInOrder(c: Config, dos: seq<Action>)
    requires Follows(dos, AllDone(Script(c)))
    ensures InOrder(c, dos)
  {
    hide AllDone, Script, StartSteps, PrepareBoth, Enable;
    var l, i := Listener(c), Initiator(c);
    ScriptDone(c);
    PrepareStartsNothing(c);
    var all, before, starts := AllDone(Script(c)), AllDone(PrepareBoth(c)), Done(l, StartSteps(c, l));
    forall m | 0 <= m < |before| + |starts| ensures !Starts(c, all[m], i) {
      assert m < |before| ==> all[m] == before[m] && before[m] in before;
      assert m >= |before| ==> all[m] == starts[m - |before|];
    }
    forall j | 0 <= j < |dos| && Starts(c, dos[j], i) ensures AllSucceeded(dos[..j], l, StartSteps(c, l)) {
      assert Starts(c, all[j], i);
      forall step | step in StartSteps(c, l) ensures Do(l, step, true) in dos[..j] {
        var m :| 0 <= m < |StartSteps(c, l)| && StartSteps(c, l)[m] == step;
        assert all[|before| + m] == starts[m] && dos[..j][|before| + m] == Do(l, step, true);
      }
    }
  }

  /** Every beginning of a deployment is in order, whatever fails. */
  lemma DeployInOrder(c: Config, o: nat -> bool, n: nat)
    requires 1 <= n <= |Deploy(c, o)|
    ensures var x := Deploy(c, o); InOrder(c, Dos(x[1..if n == |x| then n - 1 else n]))
  {
    hide Script, Play, Rollback, Dos, InOrder, AllDone, Reversed, Follows, StartSteps;
    var x := Deploy(c, o);
    var to := if n == |x| then n - 1 else n;
    var p := Play(Script(c), o, 0);
    var back := if p.ok then [] else Rollback(c, Reversed(p.started), o, p.used);
    ScriptNotes(c);
    PlayFollows(Script(c), o, 0);
    FollowsInOrder(c, Dos(p.actions));
    RollbackInOrder(c, Dos(p.actions), Reversed(p.started), o, p.used);
    assert x[1..|x| - 1] == p.actions + back;
    DosConcat(p.actions, back);
    assert InOrder(c, Dos(x[1..|x| - 1])) by {
      if p.ok {
        NoDos();
        assert Dos(p.actions) + [] == Dos(p.actions);
      }
    }
    assert x[1..|x| - 1] == x[1..to] + x[to..|x| - 1];
    DosConcat(x[1..to], x[to..|x| - 1]);
    InOrderPrefix(c, Dos(x[1..to]), Dos(x[to..|x| - 1]));
  }

  lemma {:induction false} RollbackInOrder(c: Config, dos: seq<Action>, sides: seq<Side>, o: nat -> bool, n: nat)
    requires InOrder(c, dos)
    ensures InOrder(c, dos + Dos(Rollback(c, sides, o, n)))
    decreases |sides|
  {
    hide InOrder, Dos, StartSteps, RollbackOne;
    if sides == [] {
      NoDos();
      assert dos + [] == dos;
    } else {
      var s, x := sides[0], Do(sides[0], RollbackStep(c, sides[0]), o(n));
      var rest := Rollback(c, sides[1..], o, n + 1);
      RollbackDos(c, s, o(n));
      DosConcat(RollbackOne(c, s, o(n)), rest);
      RollbackStartsNothing(c, s, o(n));
      InOrderSnoc(c, dos, x);
      RollbackInOrder(c, dos + [x], sides[1..], o, n + 1);
      assert dos + ([x] + Dos(rest)) == dos + [x] + Dos(rest);
    }
  }

  lemma RollbackStartsNothing(c: Config, s: Side, ok: bool)
    ensures forall t :: !Starts(c, Do(s, RollbackStep(c, s), ok), t)
  {
  }

  /** Sides in the order in which their first start step was tried. */
  function StartedIn(c: Config, dos: seq<Action>): seq<Side> {
    if dos == [] then []
    else
      var rest := StartedIn(c, dos[1..]);
      if dos[0].Do? && dos[0].step == StartSteps(c, dos[0].side)[0] then [dos[0].side] + rest else rest
  }

  function RolledBackIn(c: Config, dos: seq<Action>): seq<Side> {
    if dos == [] then []
    else
      var rest := RolledBackIn(c, dos[1..]);
      if dos[0].Do? && dos[0].step == RollbackStep(c, dos[0].side) then [dos[0].side] + rest else rest
  }

  /** Every start is announced, and nothing but starts uses the first start step. */
  predicate Marked(c: Config, script: seq<Item>)
    decreases |script|
  {
    if script == [] then true
    else match script[0]
      case Note(x) => !x.Do? && Marked(c, script[1..])
      case Begin(s) => |script| >= 2 && script[1] == Try(s, StartSteps(c, s)[0]) && Marked(c, script[2..])
      case Try(s, step) => step != StartSteps(c, s)[0] && step != RollbackStep(c, s) && Marked(c, script[1..])
  }

  lemma {:induction false} MarkedConcat(c: Config, x: seq<Item>, y: seq<Item>)
    requires Marked(c, x) && Marked(c, y)
    ensures Marked(c, x + y)
    decreases |x|
  {
    if x == [] {
      assert x + y == y;
    } else if x[0].Begin? {
      assert (x + y)[2..] == x[2..] + y;
      MarkedConcat(c, x[2..], y);
    } else {
      assert (x + y)[1..] == x[1..] + y;
      MarkedConcat(c, x[1..], y);
    }
  }

  lemma {:induction false} PlainMarked(c: Config, script: seq<Item>)
    requires forall x :: x in script ==>
               !x.Begin? && (x.Note? ==> !x.action.Do?)
                   && (x.Try? ==> x.step != StartSteps(c, x.side)[0] && x.step != RollbackStep(c, x.side))
    ensures Marked(c, script)
  {
    if script != [] { PlainMarked(c, script[1..]); }
  }

  lemma StartMarked(c: Config, s: Side)
    ensures Marked(c, Start(c, s))
  {
    var x := Start(c, s);
    PlainMarked(c, x[2..]);
  }

  lemma ScriptMarked(c: Config)
    ensures Marked(c, Script(c))
  {
    hide Start, Enable, PrepareBoth, Marked;
    var l, i := Listener(c), Initiator(c);
    var note := [Note(SetStatus(Starting))];
    PreparedMarked(c);
    PlainMarked(c, note);
    StartMarked(c, l);
    StartMarked(c, i);
    EnableMarked(c, l);
    EnableMarked(c, i);
    MarkedConcat(c, PrepareBoth(c), note);
    MarkedConcat(c, PrepareBoth(c) + note, Start(c, l));
    MarkedConcat(c, PrepareBoth(c) + note + Start(c, l), Start(c, i));
    MarkedConcat(c, PrepareBoth(c) + note + Start(c, l) + Start(c, i), Enable(c, l));
    MarkedConcat(c, PrepareBoth(c) + note + Start(c, l) + Start(c, i) + Enable(c, l), Enable(c, i));
  }

  lemma PreparedMarked(c: Config)
    ensures Marked(c, PrepareBoth(c))
  {
    hide Marked, Prepare;
    PrepareMarked(c, SideA);
    PrepareMarked(c, SideB);
    MarkedConcat(c, Prepare(c, SideA), Prepare(c, SideB));
    MarkedConcat(c, Prepare(c, SideB), Prepare(c, SideA));
  }

  lemma PrepareMarked(c: Config, s: Side)
    ensures Marked(c, Prepare(c, s))
  {
    hide Marked;
    PlainMarked(c, Prepare(c, s));
  }

  lemma EnableMarked(c: Config, s: Side)
    ensures Marked(c, Enable(c, s))
  {
    PlainMarked(c, Enable(c, s));
  }

  lemma ConsDos(c: Config, x: Action, rest: seq<Action>)
    requires x.Do?
    ensures StartedIn(c, [x] + rest) == (if x.step == StartSteps(c, x.side)[0] then [x.side] else [])
            + StartedIn(c, rest)
    ensures RolledBackIn(c, [x] + rest) == (if x.step == RollbackStep(c, x.side) then [x.side] else [])
            + RolledBackIn(c, rest)
  {
    assert ([x] + rest)[1..] == rest;
  }

  /** The sides that were started are those whose first start step was tried. */
  lemma {:induction false} PlayStarts(c: Config, script: seq<Item>, o: nat -> bool, n: nat)
    requires Marked(c, script)
    ensures var p := Play(script, o, n);
            StartedIn(c, Dos(p.actions)) == p.started && RolledBackIn(c, Dos(p.actions)) == []
    decreases |script|
  {
    hide StartSteps, RollbackStep, Step, StartedIn, RolledBackIn, Dos;
    if script == [] {
      EmptyDos(c);
    } else {
      match script[0] {
        case Note(x) =>
          PlayStarts(c, script[1..], o, n);
          DosConcat([x], Play(script[1..], o, n).actions);
          NoDo(x);
          assert [] + Dos(Play(script[1..], o, n).actions) == Dos(Play(script[1..], o, n).actions);
        case Begin(s) => BeginStarts(c, script, o, n);
        case Try(s, step) =>
          StepDos(s, step, o(n));
          if o(n) {
            PlayStarts(c, script[1..], o, n + 1);
            var rest := Play(script[1..], o, n + 1).actions;
            DosConcat(Step(s, step, true), rest);
            ConsDos(c, Do(s, step, true), Dos(rest));
          } else {
            EmptyDos(c);
            ConsDos(c, Do(s, step, false), []);
            assert [Do(s, step, false)] + [] == [Do(s, step, false)];
          }
      }
    }
  }

  lemma EmptyDos(c: Config)
    ensures Dos([]) == [] && StartedIn(c, []) == [] && RolledBackIn(c, []) == []
  {
  }

  lemma NoDo(x: Action)
    requires !x.Do?
    ensures Dos([x]) == []
  {
    assert [x][1..] == [];
  }

  lemma StartIsNotRollback(c: Config, s: Side)
    ensures StartSteps(c, s)[0] != RollbackStep(c, s)
  {
  }

  lemma {:induction false} BeginStarts(c: Config, script: seq<Item>, o: nat -> bool, n: nat)
    requires Marked(c, script) && script != [] && script[0].Begin?
    ensures var p := Play(script, o, n);
            StartedIn(c, Dos(p.actions)) == p.started && RolledBackIn(c, Dos(p.actions)) == []
    decreases |script|, 0
  {
    hide StartSteps, RollbackStep, Step, StartedIn, RolledBackIn, Dos;
    var s := script[0].side;
    var first := StartSteps(c, s)[0];
    assert script[1..][0] == Try(s, first) && script[1..][1..] == script[2..];
    StepDos(s, first, o(n));
    StartIsNotRollback(c, s);
    if o(n) {
      PlayStarts(c, script[2..], o, n + 1);
      var rest := Play(script[2..], o, n + 1).actions;
      DosConcat(Step(s, first, true), rest);
      ConsDos(c, Do(s, first, true), Dos(rest));
    } else {
      EmptyDos(c);
      ConsDos(c, Do(s, first, false), []);
      assert [Do(s, first, false)] + [] == [Do(s, first, false)];
    }
  }

  lemma {:induction false} RollbackTries(c: Config, sides: seq<Side>, o: nat -> bool, n: nat)
    ensures var dos := Dos(Rollback(c, sides, o, n)); RolledBackIn(c, dos) == sides && StartedIn(c, dos) == []
  {
    hide StartSteps, RollbackStep, StartedIn, RolledBackIn, Dos;
    if sides == [] {
      EmptyDos(c);
    } else {
      var s, step := sides[0], RollbackStep(c, sides[0]);
      RollbackTries(c, sides[1..], o, n + 1);
      var rest := Rollback(c, sides[1..], o, n + 1);
      RollbackDos(c, s, o(n));
      DosConcat(RollbackOne(c, s, o(n)), rest);
      ConsDos(c, Do(s, step, o(n)), Dos(rest));
      StartIsNotRollback(c, s);
    }
  }

  lemma RollbackDos(c: Config, s: Side, ok: bool)
    ensures Dos(RollbackOne(c, s, ok)) == [Do(s, RollbackStep(c, s), ok)]
  {
    hide Dos, RollbackStep, Step;
    var end := SetSide(s, if ok then RolledBack else RollbackFailed);
    StepDos(s, RollbackStep(c, s), ok);
    DosConcat(Step(s, RollbackStep(c, s), ok), [end]);
    NoDo(end);
  }

  lemma {:induction false} InConcat(c: Config, x: seq<Action>, y: seq<Action>)
    ensures StartedIn(c, x + y) == StartedIn(c, x) + StartedIn(c, y)
            && RolledBackIn(c, x + y) == RolledBackIn(c, x) + RolledBackIn(c, y)
  {
    if x == [] {
      assert x + y == y;
    } else {
      assert (x + y)[1..] == x[1..] + y;
      InConcat(c, x[1..], y);
      if x[0].Do? {
        Assoc([x[0].side], StartedIn(c, x[1..]), StartedIn(c, y));
        Assoc([x[0].side], RolledBackIn(c, x[1..]), RolledBackIn(c, y));
      }
    }
  }

  /** A failed attempt tries to roll back exactly the sides it started, last first, no
      matter which steps fail, rollbacks included. */
  lemma FailedAttemptRollsBack(c: Config, o: nat -> bool)
    ensures var dos := Dos(Deploy(c, o));
            RolledBackIn(c, dos) == if Play(Script(c), o, 0).ok then [] else Reversed(StartedIn(c, dos))
  {
    hide Script, Play, Rollback, Dos, StartedIn, RolledBackIn, Marked, Reversed;
    ScriptMarked(c);
    PlayStarts(c, Script(c), o, 0);
    EmptyDos(c);
    var p := Play(Script(c), o, 0);
    var claim := [SetStatus(Preparing)];
    NoDo(claim[0]);
    NoDo(SetStatus(Running));
    NoDo(SetStatus(Failed));
    DosConcat(claim, p.actions);
    if p.ok {
      DosConcat(claim + p.actions, [SetStatus(Running)]);
      assert Deploy(c, o) == claim + p.actions + [SetStatus(Running)];
      assert [] + Dos(p.actions) + [] == Dos(p.actions);
    } else {
      var back := Rollback(c, Reversed(p.started), o, p.used);
      RollbackTries(c, Reversed(p.started), o, p.used);
      DosConcat(back, [SetStatus(Failed)]);
      DosConcat(claim + p.actions, back + [SetStatus(Failed)]);
      InConcat(c, Dos(p.actions), Dos(back));
      assert Deploy(c, o) == claim + p.actions + (back + [SetStatus(Failed)]);
      assert [] + Dos(p.actions) + (Dos(back) + []) == Dos(p.actions) + Dos(back);
      assert p.started + [] == p.started && [] + Reversed(p.started) == Reversed(p.started);
    }
  }
}
