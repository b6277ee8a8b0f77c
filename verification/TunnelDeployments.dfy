/** The life of a tunnel deployment (fabric/tunnel_deployments.py): any sequence of deploy,
    undeploy, delete and restart, with any outcomes of the remote steps, the process dying
    at any point between two of its durable or remote actions. */
module TunnelDeployments {
  datatype Side = SideA | SideB

  /** `Switch`: attached to a local switch; `Remote`: reached over a controlled endpoint. */
  datatype Place = Switch | Remote

  datatype Config = Config(placeA: Place, placeB: Place, listenerIsA: bool, autostartA: bool, autostartB: bool)

  datatype Status = Draft | Preparing | Starting | Running | Failed | Undeploying | UndeployFailed | Undeployed | Gone

  datatype SideState = Unknown | Working | Succeeded | StepFailed | Up | RolledBack | RollbackFailed
                     | TakingDown | Down | TakeDownFailed

  /** What is asked of a side: typed intents to a local collector, scripts on a remote host. */
  datatype StepName =
    | CollectorPrepare | CollectorStart | CollectorEnable | CollectorRollback | CollectorUndeploy
    | Upload | Preflight | InstallDependencies | InstallSoftware | InstallConfig
    | StartScript | VerifyScript | EnableScript | RollbackScript | UndeployScript

  datatype Secret = Kept | Damaged | Erased

  datatype Action =
    | SetStatus(status: Status)
    | SetSide(side: Side, state: SideState)
    | Do(side: Side, step: StepName, ok: bool)
    | Erase(left: Secret)

  /** `attempt`: the remote steps since the deployment was last claimed. */
  datatype Deployment = Deployment(status: Status, a: SideState, b: SideState, key: Secret, attempt: seq<Action>)

  function Apply(d: Deployment, x: Action): Deployment {
    match x
    case SetStatus(s) => if s == Preparing then d.(status := s, attempt := []) else d.(status := s)
    case SetSide(side, st) => if side == SideA then d.(a := st) else d.(b := st)
    case Do(_, _, _) => d.(attempt := d.attempt + [x])
    case Erase(left) => d.(key := left)
  }

  function Exec(d: Deployment, actions: seq<Action>): Deployment {
    if actions == [] then d else Apply(Exec(d, actions[..|actions| - 1]), actions[|actions| - 1])
  }

  lemma {:induction false} ExecConcat(d: Deployment, x: seq<Action>, y: seq<Action>)
    ensures Exec(d, x + y) == Exec(Exec(d, x), y)
  {
    if y == [] {
      assert x + y == x;
    } else {
      assert (x + y)[..|x + y| - 1] == x + y[..|y| - 1];
      ExecConcat(d, x, y[..|y| - 1]);
    }
  }

  lemma ExecSnoc(d: Deployment, x: seq<Action>, y: Action)
    ensures Exec(d, x + [y]) == Apply(Exec(d, x), y)
  {
    assert (x + [y])[..|x|] == x;
  }

  // ---------------------------------------------------------------- deploy

  function PlaceOf(c: Config, s: Side): Place { if s == SideA then c.placeA else c.placeB }
  function Other(s: Side): Side { if s == SideA then SideB else SideA }
  function Listener(c: Config): Side { if c.listenerIsA then SideA else SideB }
  function Initiator(c: Config): Side { Other(Listener(c)) }
  function Autostart(c: Config, s: Side): bool { if s == SideA then c.autostartA else c.autostartB }

  datatype Item = Try(side: Side, step: StepName) | Begin(side: Side) | Note(action: Action)

  function Prepare(c: Config, s: Side): seq<Item> {
    if PlaceOf(c, s).Switch? then [Try(s, CollectorPrepare)]
    else [Try(s, Upload), Try(s, Preflight), Try(s, InstallDependencies),
          Try(s, InstallSoftware), Try(s, InstallConfig)]
  }

  /** Switch sides are prepared first. */
  function PrepareBoth(c: Config): seq<Item> {
    if c.placeA.Remote? && c.placeB.Switch? then Prepare(c, SideB) + Prepare(c, SideA)
    else Prepare(c, SideA) + Prepare(c, SideB)
  }

  function StartSteps(c: Config, s: Side): (r: seq<StepName>)
    ensures r != []
  {
    if PlaceOf(c, s).Switch? then [CollectorStart] else [StartScript, VerifyScript]
  }

  function Tries(s: Side, steps: seq<StepName>): seq<Item> {
    seq(|steps|, i requires 0 <= i < |steps| => Try(s, steps[i]))
  }

  function Start(c: Config, s: Side): seq<Item> {
    [Begin(s)] + Tries(s, StartSteps(c, s)) + [Note(SetSide(s, Up))]
  }

  function EnableStep(c: Config, s: Side): StepName { if PlaceOf(c, s).Switch? then CollectorEnable else EnableScript }

  function Enable(c: Config, s: Side): seq<Item> {
    if Autostart(c, s) then [Try(s, EnableStep(c, s)), Note(SetSide(s, Up))] else []
  }

  /** Everything a deployment tries, in order. */
  function Script(c: Config): seq<Item> {
    PrepareBoth(c) + [Note(SetStatus(Starting))] + Start(c, Listener(c)) + Start(c, Initiator(c))
    + Enable(c, Listener(c)) + Enable(c, Initiator(c))
  }

  datatype Played = Played(actions: seq<Action>, ok: bool, started: seq<Side>, used: nat)

  /** The recorded execution of one step. */
  function Step(s: Side, step: StepName, ok: bool): seq<Action> {
    [SetSide(s, Working), Do(s, step, ok), SetSide(s, if ok then Succeeded else StepFailed)]
  }

  /** Plays a script up to the first failing step; `o` gives the outcomes. */
  function Play(script: seq<Item>, o: nat -> bool, n: nat): Played {
    if script == [] then Played([], true, [], n)
    else match script[0]
      case Note(x) => var rest := Play(script[1..], o, n); rest.(actions := [x] + rest.actions)
      case Begin(s) => var rest := Play(script[1..], o, n); rest.(started := [s] + rest.started)
      case Try(s, step) =>
        if o(n) then var rest := Play(script[1..], o, n + 1); rest.(actions := Step(s, step, true) + rest.actions)
        else Played(Step(s, step, false), false, [], n + 1)
  }

  function RollbackStep(c: Config, s: Side): StepName {
    if PlaceOf(c, s).Switch? then CollectorRollback else RollbackScript
  }

  function RollbackOne(c: Config, s: Side, ok: bool): seq<Action> {
    Step(s, RollbackStep(c, s), ok) + [SetSide(s, if ok then RolledBack else RollbackFailed)]
  }

  function Rollback(c: Config, sides: seq<Side>, o: nat -> bool, n: nat): seq<Action> {
    if sides == [] then [] else RollbackOne(c, sides[0], o(n)) + Rollback(c, sides[1..], o, n + 1)
  }

  function Reversed(s: seq<Side>): seq<Side> { if s == [] then [] else Reversed(s[1..]) + [s[0]] }

  function Deploy(c: Config, o: nat -> bool): seq<Action> {
    var p := Play(Script(c), o, 0);
    [SetStatus(Preparing)] + p.actions
    + (if p.ok then [SetStatus(Running)] else Rollback(c, Reversed(p.started), o, p.used) + [SetStatus(Failed)])
  }

  // ---------------------------------------------------------------- undeploy

  function StateOf(d: Deployment, s: Side): SideState { if s == SideA then d.a else d.b }

  function UndeployStep(c: Config, s: Side): StepName {
    if PlaceOf(c, s).Switch? then CollectorUndeploy else UndeployScript
  }

  /** Sides already down are skipped. */
  function TakeDown(c: Config, d: Deployment, s: Side, ok: bool): seq<Action> {
    if StateOf(d, s).Down? then []
    else [SetSide(s, TakingDown)] + Step(s, UndeployStep(c, s), ok) + [SetSide(s, if ok then Down else TakeDownFailed)]
  }

  /** The initiator goes first; the key is erased only when both sides are down. */
  function Undeploy(c: Config, d: Deployment, okI: bool, okL: bool, left: Secret): seq<Action> {
    var i, l := Initiator(c), Listener(c);
    var clean := (StateOf(d, i).Down? || okI) && (StateOf(d, l).Down? || okL);
    [SetStatus(Undeploying)] + TakeDown(c, d, i, okI) + TakeDown(c, d, l, okL)
    + (if clean then [Erase(left)] else [])
    + [SetStatus(if clean && left.Erased? then Undeployed else UndeployFailed)]
  }

  // ---------------------------------------------------------------- histories

  /** `cut`: how many actions take place before the process dies. `ready`: the checks
      before the claim pass. */
  datatype Operation =
    | RunDeploy(ready: bool, o: nat -> bool, cut: nat)
    | RunUndeploy(okI: bool, okL: bool, left: Secret, cut: nat)
    | Delete
    | Restart

  predicate Deployable(s: Status) { s.Draft? || s.Failed? }
  predicate Undeployable(s: Status) { s.Running? || s.Failed? || s.UndeployFailed? }

  datatype System = System(d: Deployment, alive: bool)

  function ActionsOf(c: Config, d: Deployment, op: Operation): seq<Action> {
    match op
    case RunDeploy(ready, o, _) => if Deployable(d.status) && ready && d.key.Kept? then Deploy(c, o) else []
    case RunUndeploy(okI, okL, left, _) => if Undeployable(d.status) then Undeploy(c, d, okI, okL, left) else []
    case Delete => if d.status.Undeployed? then [SetStatus(Gone)] else []
    case Restart =>
      if d.status.Preparing? || d.status.Starting? then [SetStatus(Failed)]
      else if d.status.Undeploying? then [SetStatus(UndeployFailed)] else []
  }

  function CutOf(op: Operation, n: nat): nat {
    if (op.RunDeploy? || op.RunUndeploy?) && op.cut < n then op.cut else n
  }

  /** A dead process does nothing until it is restarted. */
  function Next(c: Config, s: System, op: Operation): System {
    if !s.alive && !op.Restart? then s
    else
      var actions := ActionsOf(c, s.d, op);
      var n := CutOf(op, |actions|);
      System(Exec(s.d, actions[..n]), n == |actions|)
  }

  function Final(c: Config, s: System, ops: seq<Operation>): System {
    if ops == [] then s else Next(c, Final(c, s, ops[..|ops| - 1]), ops[|ops| - 1])
  }

  const CREATED := System(Deployment(Draft, Unknown, Unknown, Kept, []), true)
}
