/** The stored deployment as the object it is (fabric/tunnel_deployments.py): durable writes
    and remote steps, one after the other. The trace of an operation that is not cut short
    is the one that `TunnelDeployments` reasons about. */
module DeploymentObject {
  import opened Bytes
  import opened TunnelDeployments

  lemma {:induction false} ReversedAppend(s: seq<Side>, x: Side)
    ensures Reversed(s + [x]) == [x] + Reversed(s)
  {
    if s == [] {
      assert s + [x] == [x] && [x][1..] == [];
    } else {
      assert (s + [x])[1..] == s[1..] + [x];
      ReversedAppend(s[1..], x);
      Assoc([x], Reversed(s[1..]), [s[0]]);
    }
  }

  class Row {
    var status: Status
    var a: SideState
    var b: SideState
    var key: Secret
    ghost var first: Deployment
    ghost var trace: seq<Action>

    /** The row is what its trace has made of it. */
    ghost predicate Valid()
      reads this
    {
      var d := Exec(first, trace);
      status == d.status && a == d.a && b == d.b && key == d.key
    }

    constructor ()
      ensures Valid() && first == CREATED.d && trace == [] && status == Draft
    {
      status, a, b, key := Draft, Unknown, Unknown, Kept;
      first, trace := CREATED.d, [];
    }

    /** One durable write or remote step. */
    method Perform(x: Action)
      requires Valid()
      modifies this
      ensures Valid() && first == old(first) && trace == old(trace) + [x]
    {
      hide Exec;
      ExecSnoc(first, trace, x);
      match x {
        case SetStatus(s) => status := s;
        case SetSide(side, st) => if side == SideA { a := st; } else { b := st; }
        case Do(_, _, _) =>
        case Erase(left) => key := left;
      }
      trace := trace + [x];
    }

    /** `_step`: notes the attempt, tries, notes the result. */
    method TryStep(side: Side, step: StepName, ok: bool)
      requires Valid()
      modifies this
      ensures Valid() && first == old(first) && trace == old(trace) + Step(side, step, ok)
    {
      Perform(SetSide(side, Working));
      Perform(Do(side, step, ok));
      if ok { Perform(SetSide(side, Succeeded)); } else { Perform(SetSide(side, StepFailed)); }
    }

    /** The steps of a script until one fails; which sides were started, and how many
        outcomes were used. */
    method PlayScript(script: seq<Item>, o: nat -> bool) returns (ok: bool, started: seq<Side>, n: nat)
      requires Valid()
      modifies this
      ensures Valid() && first == old(first)
      ensures var p := Play(script, o, 0);
              trace == old(trace) + p.actions && ok == p.ok && started == p.started && n == p.used
    {
      hide Step, Valid;
      ok, started, n := true, [], 0;
      assert script[0..] == script;
      for i := 0 to |script|
        invariant Valid() && first == old(first) && ok
        invariant var p, rest := Play(script, o, 0), Play(script[i..], o, n);
                  && old(trace) + p.actions == trace + rest.actions && p.ok == rest.ok
                  && p.started == started + rest.started && p.used == rest.used
      {
        assert script[i..][0] == script[i] && script[i..][1..] == script[i + 1..];
        ghost var was := trace;
        match script[i] {
          case Note(x) =>
            Perform(x);
            ghost var rest := Play(script[i + 1..], o, n);
            assert was + ([x] + rest.actions) == trace + rest.actions;
          case Begin(s) =>
            ghost var rest := Play(script[i + 1..], o, n);
            assert started + ([s] + rest.started) == (started + [s]) + rest.started;
            started := started + [s];
          case Try(s, step) =>
            ok := o(n);
            TryStep(s, step, ok);
            n := n + 1;
            if !ok {
              assert started + [] == started;
              return;
            }
            ghost var rest := Play(script[i + 1..], o, n);
            assert was + (Step(s, step, true) + rest.actions) == trace + rest.actions;
        }
      }
      assert script[|script|..] == [];
      assert trace + [] == trace && started + [] == started;
    }

    /** Rolls back in reverse order of starting, whatever fails on the way. */
    method RollbackAll(c: Config, started: seq<Side>, o: nat -> bool, from: nat)
      requires Valid()
      modifies this
      ensures Valid() && first == old(first) && trace == old(trace) + Rollback(c, Reversed(started), o, from)
    {
      hide Step, Valid, RollbackStep;
      var i, n := |started|, from;
      assert started[..i] == started;
      while i > 0
        invariant 0 <= i <= |started| && Valid() && first == old(first)
        invariant old(trace) + Rollback(c, Reversed(started), o, from) == trace
                  + Rollback(c, Reversed(started[..i]), o, n)
      {
        i := i - 1;
        var s, ok := started[i], o(n);
        assert started[..i + 1] == started[..i] + [s];
        ReversedAppend(started[..i], s);
        assert ([s] + Reversed(started[..i]))[1..] == Reversed(started[..i]);
        ghost var was, rest := trace, Rollback(c, Reversed(started[..i]), o, n + 1);
        TryStep(s, RollbackStep(c, s), ok);
        if ok { Perform(SetSide(s, RolledBack)); } else { Perform(SetSide(s, RollbackFailed)); }
        assert trace == was + RollbackOne(c, s, ok);
        assert was + (RollbackOne(c, s, ok) + rest) == trace + rest;
        n := n + 1;
      }
      assert started[..0] == [] && trace + [] == trace;
    }

    /** `deploy`, from the claim on. */
    method DeployNow(c: Config, ready: bool, o: nat -> bool) returns (ok: bool)
      requires Valid()
      modifies this
      ensures Valid() && first == old(first)
      ensures trace == old(trace) + ActionsOf(c, Exec(old(first), old(trace)), RunDeploy(ready, o, 0))
      ensures ok <==> status == Running && (old(status) == Draft || old(status) == Failed)
    {
      hide Script, Play, Rollback, Exec, Reversed;
      if !(status == Draft || status == Failed) || !ready || key != Kept {
        assert trace + [] == trace;
        return false;
      }
      Perform(SetStatus(Preparing));
      var started, used;
      ok, started, used := PlayScript(Script(c), o);
      if ok {
        Perform(SetStatus(Running));
        assert LastStatus(first, trace, Running) by { StatusNow(first, trace[..|trace| - 1], Running); }
      } else {
        RollbackAll(c, started, o, used);
        Perform(SetStatus(Failed));
        StatusNow(first, trace[..|trace| - 1], Failed);
      }
    }

    /** `undeploy`: the initiator first, the key last. */
    method UndeployNow(c: Config, okI: bool, okL: bool, left: Secret) returns (ok: bool)
      requires Valid()
      modifies this
      ensures Valid() && first == old(first)
      ensures trace == old(trace) + ActionsOf(c, Exec(old(first), old(trace)), RunUndeploy(okI, okL, left, 0))
    {
      hide Exec, TakeDown, Undeploy;
      if !(status == Running || status == Failed || status == UndeployFailed) {
        assert trace + [] == trace;
        return status == Undeployed;
      }
      ghost var d := Exec(first, trace);
      var i, l := Initiator(c), Listener(c);
      var downI, downL := (if i == SideA then a else b).Down?, (if l == SideA then a else b).Down?;
      Perform(SetStatus(Undeploying));
      TakeSideDown(c, d, i, downI, okI);
      TakeSideDown(c, d, l, downL, okL);
      ok := Conclude((downI || okI) && (downL || okL), left);
      UndeployParts(c, d, okI, okL, left, old(trace));
    }

    /** Erases the key if both sides are down, and records the verdict. */
    method Conclude(clean: bool, left: Secret) returns (ok: bool)
      requires Valid()
      modifies this
      ensures Valid() && first == old(first)
      ensures trace == old(trace) + ((if clean then [Erase(left)] else [])
                                     + [SetStatus(if clean && left.Erased? then Undeployed else UndeployFailed)])
    {
      hide Valid;
      ok := clean;
      if ok {
        Perform(Erase(left));
        ok := left == Erased;
      }
      if ok { Perform(SetStatus(Undeployed)); } else { Perform(SetStatus(UndeployFailed)); }
    }

    method TakeSideDown(c: Config, ghost d: Deployment, s: Side, skip: bool, ok: bool)
      requires Valid() && skip == StateOf(d, s).Down?
      modifies this
      ensures Valid() && first == old(first) && trace == old(trace) + TakeDown(c, d, s, ok)
    {
      hide Valid, UndeployStep;
      if skip {
        assert trace + [] == trace;
        return;
      }
      Perform(SetSide(s, TakingDown));
      TryStep(s, UndeployStep(c, s), ok);
      if ok { Perform(SetSide(s, Down)); } else { Perform(SetSide(s, TakeDownFailed)); }
    }

    /** What opening the store does to an interrupted operation. */
    method Reopen()
      requires Valid()
      modifies this
      ensures Valid() && first == old(first)
      ensures status != Preparing && status != Starting && status != Undeploying
      ensures forall c :: trace == old(trace) + ActionsOf(c, Exec(old(first), old(trace)), Restart)
    {
      hide Exec;
      if status == Preparing || status == Starting {
        Perform(SetStatus(Failed));
        StatusNow(first, old(trace), Failed);
      } else if status == Undeploying {
        Perform(SetStatus(UndeployFailed));
        StatusNow(first, old(trace), UndeployFailed);
      } else {
        assert trace + [] == trace;
      }
    }
  }

  lemma UndeployParts(c: Config, d: Deployment, okI: bool, okL: bool, left: Secret, t: seq<Action>)
    ensures var i, l := Initiator(c), Listener(c);
            var clean := (StateOf(d, i).Down? || okI) && (StateOf(d, l).Down? || okL);
            t + Undeploy(c, d, okI, okL, left)
            == t + [SetStatus(Undeploying)] + TakeDown(c, d, i, okI) + TakeDown(c, d, l, okL)
               + ((if clean then [Erase(left)] else [])
                  + [SetStatus(if clean && left.Erased? then Undeployed else UndeployFailed)])
  {
    hide TakeDown;
  }

  ghost predicate LastStatus(d: Deployment, trace: seq<Action>, s: Status) {
    Exec(d, trace).status == s
  }

  lemma StatusNow(d: Deployment, trace: seq<Action>, s: Status)
    ensures Exec(d, trace + [SetStatus(s)]).status == s
  {
    ExecSnoc(d, trace, SetStatus(s));
  }
}
