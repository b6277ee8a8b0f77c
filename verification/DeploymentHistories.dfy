/** What every history of a tunnel deployment keeps (fabric/tunnel_deployments.py). */
module DeploymentHistories {
  import opened TunnelDeployments
  import opened DeploymentScripts

  // ---------------------------------------------------------------- the invariant

  /** After undeployment has begun there is no way back. */
  predicate Late(s: Status) { s.Undeploying? || s.UndeployFailed? || s.Undeployed? || s.Gone? }

  ghost predicate Inv(c: Config, s: System) {
    && (s.alive ==> !s.d.status.Preparing? && !s.d.status.Starting? && !s.d.status.Undeploying?)
    && (!Late(s.d.status) ==> s.d.key.Kept? && !s.d.a.Down? && !s.d.b.Down?)
    && (s.d.status.Undeployed? || s.d.status.Gone? ==> s.d.a.Down? && s.d.b.Down? && s.d.key.Erased?)
    && (s.d.status.Running? ==> s.d.attempt == AllDone(Script(c)))
    && KeyOutlivesSides(s.d) && InOrder(c, s.d.attempt)
  }

  /** The key is gone, or damaged, only if both sides are down. */
  predicate KeyOutlivesSides(d: Deployment) {
    !d.key.Kept? ==> d.a.Down? && d.b.Down?
  }

  lemma DeployKeeps(c: Config, d: Deployment, o: nat -> bool, n: nat)
    requires Inv(c, System(d, true)) && Deployable(d.status) && n <= |Deploy(c, o)|
    ensures Inv(c, System(Exec(d, Deploy(c, o)[..n]), n == |Deploy(c, o)|))
  {
    hide Script, Deploy, AllDone;
    var x := Deploy(c, o);
    DeployShape(c, o);
    if n == 0 {
      assert x[..0] == [];
    } else {
      hide Constructive, Dos;
      var claimed := Apply(d, x[0]);
      var middle := if n == |x| then x[1..n - 1] else x[1..n];
      assert forall y :: y in middle ==> Constructive(y);
      ConstructiveKeeps(claimed, middle);
      assert Exec(d, [x[0]]) == claimed by { assert [x[0]][..0] == []; }
      ExecConcat(d, [x[0]], middle);
      assert InOrder(c, claimed.attempt + Dos(middle)) by {
        DeployInOrder(c, o, n);
        assert middle == x[1..if n == |x| then n - 1 else n] && [] + Dos(middle) == Dos(middle);
      }
      if n < |x| {
        assert x[..n] == [x[0]] + middle;
      } else {
        assert x[..n][..n - 1] == [x[0]] + middle && x[..n] == x;
        if x[n - 1] == SetStatus(Running) { RunningAttempt(c, o, claimed, middle); }
      }
    }
  }

  /** A deployment that ends running has done every step of its script. */
  lemma RunningAttempt(c: Config, o: nat -> bool, claimed: Deployment, middle: seq<Action>)
    requires var x := Deploy(c, o); |x| >= 2 && x[|x| - 1] == SetStatus(Running) && middle == x[1..|x| - 1]
    requires claimed.attempt == []
    ensures claimed.attempt + Dos(middle) == AllDone(Script(c))
  {
    hide Script, Play, Rollback, AllDone, Dos;
    ScriptNotes(c);
    PlayDoes(Script(c), o, 0);
    var p := Play(Script(c), o, 0);
    assert p.ok;
    assert Deploy(c, o)[1..|Deploy(c, o)| - 1] == p.actions;
  }

  /** The sides and the key after the first `n` actions of an undeployment. */
  lemma UndeployKeeps(c: Config, d: Deployment, okI: bool, okL: bool, left: Secret, n: nat)
    requires Inv(c, System(d, true)) && Undeployable(d.status) && n <= |Undeploy(c, d, okI, okL, left)|
    ensures Inv(c, System(Exec(d, Undeploy(c, d, okI, okL, left)[..n]), n == |Undeploy(c, d, okI, okL, left)|))
    ensures n > 0 ==> Late(Exec(d, Undeploy(c, d, okI, okL, left)[..n]).status)
  {
    hide Script, AllDone, TakeDown, InOrder, KeyOutlivesSides;
    var x := Undeploy(c, d, okI, okL, left);
    var i, l := Initiator(c), Listener(c);
    var clean := (StateOf(d, i).Down? || okI) && (StateOf(d, l).Down? || okL);
    UndeployKeepsKey(c, d, okI, okL, left, n);
    UndeployInOrder(c, d, okI, okL, left, n);
    if n == 0 {
      assert x[..0] == [];
    } else if n < |x| {
      UndeployMiddle(c, d, okI, okL, left, n);
    } else {
      assert x[..n] == x;
      var front := [SetStatus(Undeploying)] + TakeDown(c, d, i, okI) + TakeDown(c, d, l, okL);
      BothDown(c, d, okI, okL);
      if clean {
        assert x == front + [Erase(left)] + [SetStatus(if left.Erased? then Undeployed else UndeployFailed)];
        ExecTwo(d, front, Erase(left), SetStatus(if left.Erased? then Undeployed else UndeployFailed));
      } else {
        assert x == front + [SetStatus(UndeployFailed)];
        ExecSnoc(d, front, SetStatus(UndeployFailed));
      }
    }
  }

  /** At every point of an undeployment the key is untouched or both sides are down. */
  lemma UndeployKeepsKey(c: Config, d: Deployment, okI: bool, okL: bool, left: Secret, n: nat)
    requires KeyOutlivesSides(d) && n <= |Undeploy(c, d, okI, okL, left)|
    ensures KeyOutlivesSides(Exec(d, Undeploy(c, d, okI, okL, left)[..n]))
  {
    hide TakeDown;
    var x := Undeploy(c, d, okI, okL, left);
    var i, l := Initiator(c), Listener(c);
    var front := [SetStatus(Undeploying)] + TakeDown(c, d, i, okI) + TakeDown(c, d, l, okL);
    var rest := x[|front|..];
    assert x == front + rest;
    TakeDownSpares(c, d, i, okI);
    TakeDownSpares(c, d, l, okL);
    if n <= |front| {
      assert x[..n] == front[..n];
      KeyStays(d, front[..n]);
      if !d.key.Kept? {
        OtherStays(d, front[..n], SideA);
        OtherStays(d, front[..n], SideB);
      }
    } else {
      assert x[..n] == front + rest[..n - |front|];
      ExecConcat(d, front, rest[..n - |front|]);
      BothDown(c, d, okI, okL);
      var clean := (StateOf(d, i).Down? || okI) && (StateOf(d, l).Down? || okL);
      OtherStays(Exec(d, front), rest[..n - |front|], SideA);
      OtherStays(Exec(d, front), rest[..n - |front|], SideB);
      if !clean { KeyStays(Exec(d, front), rest[..n - |front|]); }
    }
  }

  lemma TakeDownSpares(c: Config, d: Deployment, s: Side, ok: bool)
    ensures forall y :: y in TakeDown(c, d, s, ok) ==>
              !y.Erase? && !y.SetStatus? && (y.Do? ==> y.step == UndeployStep(c, s))
    ensures StateOf(d, s).Down? ==> TakeDown(c, d, s, ok) == []
  {
  }

  /** What an undeployment tries starts nothing. */
  lemma UndeployInOrder(c: Config, d: Deployment, okI: bool, okL: bool, left: Secret, n: nat)
    requires InOrder(c, d.attempt) && n <= |Undeploy(c, d, okI, okL, left)|
    ensures InOrder(c, Exec(d, Undeploy(c, d, okI, okL, left)[..n]).attempt)
  {
    hide TakeDown, StartSteps, InOrder;
    var x := Undeploy(c, d, okI, okL, left);
    TakeDownSpares(c, d, Initiator(c), okI);
    TakeDownSpares(c, d, Listener(c), okL);
    UndeployIsNoStart(c, SideA);
    UndeployIsNoStart(c, SideB);
    assert forall y :: y in x[..n] ==> y in x;
    StaysInOrder(c, d, x[..n]);
  }

  lemma UndeployIsNoStart(c: Config, s: Side)
    ensures forall t :: UndeployStep(c, s) !in StartSteps(c, t)
  {
  }

  lemma {:induction false} StaysInOrder(c: Config, d: Deployment, x: seq<Action>)
    requires InOrder(c, d.attempt) && forall y :: y in x ==> !(y == SetStatus(Preparing)) && !Starts(c, y, Initiator(c))
    ensures InOrder(c, Exec(d, x).attempt)
  {
    hide StartSteps, InOrder, Starts;
    if x != [] {
      var last := |x| - 1;
      assert x[last] in x && forall y :: y in x[..last] ==> y in x;
      StaysInOrder(c, d, x[..last]);
      if x[last].Do? { InOrderSnoc(c, Exec(d, x[..last]).attempt, x[last]); }
    }
  }

  lemma ExecTwo(d: Deployment, x: seq<Action>, y: Action, z: Action)
    ensures Exec(d, x + [y] + [z]) == Apply(Apply(Exec(d, x), y), z)
  {
    ExecSnoc(d, x, y);
    ExecSnoc(d, x + [y], z);
  }

  /** Before its verdict, an undeployment leaves the status alone. */
  lemma UndeployMiddle(c: Config, d: Deployment, okI: bool, okL: bool, left: Secret, n: nat)
    requires 1 <= n < |Undeploy(c, d, okI, okL, left)|
    ensures Exec(d, Undeploy(c, d, okI, okL, left)[..n]).status == Undeploying
  {
    var x := Undeploy(c, d, okI, okL, left);
    assert x[0] == SetStatus(Undeploying);
    assert forall i :: 1 <= i < |x| - 1 ==> !x[i].SetStatus?;
    StatusStays(d, x, n);
  }

  lemma {:induction false} StatusStays(d: Deployment, x: seq<Action>, n: nat)
    requires 1 <= n < |x| && x[0] == SetStatus(Undeploying) && forall i :: 1 <= i < |x| - 1 ==> !x[i].SetStatus?
    ensures Exec(d, x[..n]).status == Undeploying
  {
    assert x[..n][..n - 1] == x[..n - 1] && x[..n][n - 1] == x[n - 1];
    if n > 1 { StatusStays(d, x, n - 1); }
  }

  /** If both steps succeed, or were not needed, both sides are down. */
  lemma BothDown(c: Config, d: Deployment, okI: bool, okL: bool)
    ensures var i, l := Initiator(c), Listener(c);
            var e := Exec(d, [SetStatus(Undeploying)] + TakeDown(c, d, i, okI) + TakeDown(c, d, l, okL));
            && e.key == d.key && e.attempt + [] == e.attempt
            && (StateOf(d, i).Down? || okI ==> StateOf(e, i).Down?)
            && (StateOf(d, l).Down? || okL ==> StateOf(e, l).Down?)
  {
    hide TakeDown;
    var i, l := Initiator(c), Listener(c);
    var start := [SetStatus(Undeploying)];
    assert Exec(d, start) == Apply(d, start[0]) by { assert start[..0] == []; }
    ExecConcat(d, start + TakeDown(c, d, i, okI), TakeDown(c, d, l, okL));
    ExecConcat(d, start, TakeDown(c, d, i, okI));
    TakeDownDoes(c, d, i, okI, Exec(d, start));
    TakeDownDoes(c, d, l, okL, Exec(d, start + TakeDown(c, d, i, okI)));
  }

  lemma TakeDownDoes(c: Config, d: Deployment, s: Side, ok: bool, from: Deployment)
    requires StateOf(d, s).Down? ==> StateOf(from, s).Down?
    ensures var e := Exec(from, TakeDown(c, d, s, ok));
            && e.key == from.key && StateOf(e, Other(s)) == StateOf(from, Other(s))
            && (StateOf(d, s).Down? || ok ==> StateOf(e, s).Down?)
  {
    if !StateOf(d, s).Down? {
      var x := TakeDown(c, d, s, ok);
      assert x[..5][..4] == x[..4] && x[..4][..3] == x[..3] && x[..3][..2] == x[..2] && x[..2][..1] == x[..1]
          && x[..1][..0] == [];
      assert x == x[..5];
      KeyStays(from, x);
      OtherStays(from, x, Other(s));
    }
  }

  lemma {:induction false} KeyStays(d: Deployment, x: seq<Action>)
    requires forall y :: y in x ==> !y.Erase?
    ensures Exec(d, x).key == d.key
  {
    if x != [] { KeyStays(d, x[..|x| - 1]); }
  }

  lemma {:induction false} OtherStays(d: Deployment, x: seq<Action>, s: Side)
    requires forall y :: y in x ==> !(y.SetSide? && y.side == s)
    ensures StateOf(Exec(d, x), s) == StateOf(d, s)
  {
    if x != [] { OtherStays(d, x[..|x| - 1], s); }
  }

  lemma OperationKeeps(c: Config, s: System, op: Operation)
    requires Inv(c, s)
    ensures Inv(c, Next(c, s, op)) && (Late(s.d.status) ==> Late(Next(c, s, op).d.status))
  {
    hide Deploy, Undeploy, Script, AllDone;
    if s.alive || op.Restart? {
      var x := ActionsOf(c, s.d, op);
      var n := CutOf(op, |x|);
      match op {
        case RunDeploy(ready, o, _) =>
          if x == [] { assert x[..n] == []; } else { DeployKeeps(c, s.d, o, n); }
        case RunUndeploy(okI, okL, left, _) =>
          if x == [] {
            assert x[..n] == [];
          } else {
            UndeployKeeps(c, s.d, okI, okL, left, n);
            if n == 0 { assert x[..n] == []; }
          }
        case Delete => if x == [] { assert x[..n] == []; } else { SingleAction(s.d, x); }
        case Restart => if x == [] { assert x[..n] == []; } else { SingleAction(s.d, x); }
      }
    }
  }

  lemma SingleAction(d: Deployment, x: seq<Action>)
    requires |x| == 1
    ensures Exec(d, x[..1]) == Apply(d, x[0])
  {
    assert x[..1] == x && x[..0] == [];
  }

  // ---------------------------------------------------------------- every history

  lemma {:induction false} EveryHistoryKeeps(c: Config, ops: seq<Operation>)
    ensures Inv(c, Final(c, CREATED, ops))
  {
    hide Next, Inv;
    if ops == [] {
      assert Inv(c, CREATED) by { CreatedInv(c); }
    } else {
      EveryHistoryKeeps(c, ops[..|ops| - 1]);
      OperationKeeps(c, Final(c, CREATED, ops[..|ops| - 1]), ops[|ops| - 1]);
    }
  }

  lemma CreatedInv(c: Config)
    ensures Inv(c, CREATED)
  {
  }

  /** In every history, wherever operations are cut short: a deployable state has its key;
      the key is touched only when both sides are down; `undeployed` means both sides are
      down and the key is erased. */
  lemma KeyFollowsState(c: Config, ops: seq<Operation>)
    ensures var d := Final(c, CREATED, ops).d;
            && (Deployable(d.status) || d.status.Running? ==> d.key.Kept?)
            && (!d.key.Kept? ==> d.a.Down? && d.b.Down?)
            && (d.status.Undeployed? ==> d.a.Down? && d.b.Down? && d.key.Erased?)
  {
    hide Next;
    EveryHistoryKeeps(c, ops);
  }

  /** In every history: `running` means that since the last claim exactly the steps of the
      script were tried, all of them successfully and in its order. */
  lemma RunningIsVerified(c: Config, ops: seq<Operation>)
    requires Final(c, CREATED, ops).d.status.Running?
    ensures Final(c, CREATED, ops).d.attempt == AllDone(Script(c))
  {
    hide Next, Script;
    EveryHistoryKeeps(c, ops);
  }

  /** Once undeployment has begun, no deployment happens any more, whatever is tried. */
  lemma {:induction false} NoDeploymentAfterUndeploy(c: Config, before: seq<Operation>, after: seq<Operation>,
                                                     op: Operation)
    requires Late(Final(c, CREATED, before).d.status) && op.RunDeploy?
    ensures var s := Final(c, CREATED, before + after); Late(s.d.status) && Next(c, s, op).d == s.d
    decreases |after|
  {
    hide Inv, Deploy, Undeploy;
    if after == [] {
      assert before + after == before;
    } else {
      var last := |after| - 1;
      assert (before + after)[..|before + after| - 1] == before + after[..last];
      NoDeploymentAfterUndeploy(c, before, after[..last], op);
      EveryHistoryKeeps(c, before + after[..last]);
      OperationKeeps(c, Final(c, CREATED, before + after[..last]), after[last]);
    }
    var s := Final(c, CREATED, before + after);
    assert ActionsOf(c, s.d, op) == [];
    assert ActionsOf(c, s.d, op)[..0] == [];
  }

  /** In every history, in attempts that fail, are cut short, rolled back or undeployed as
      well: no step that starts the initiator is tried before every step that starts the
      listener has succeeded in that attempt. */
  lemma ListenerBeforeInitiator(c: Config, ops: seq<Operation>, j: nat)
    requires var dos := Final(c, CREATED, ops).d.attempt; j < |dos| && Starts(c, dos[j], Initiator(c))
    ensures var dos := Final(c, CREATED, ops).d.attempt;
            forall step :: step in StartSteps(c, Listener(c)) ==>
              exists i :: 0 <= i < j && dos[i] == Do(Listener(c), step, true)
  {
    hide Next, StartSteps;
    EveryHistoryKeeps(c, ops);
    var dos, l := Final(c, CREATED, ops).d.attempt, Listener(c);
    forall step | step in StartSteps(c, l) ensures exists i :: 0 <= i < j && dos[i] == Do(l, step, true) {
      var i :| 0 <= i < j && dos[..j][i] == Do(l, step, true);
      assert dos[i] == Do(l, step, true);
    }
  }
}
