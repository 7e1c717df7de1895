/**
  Calls of the orchestrator that overlap. The watcher's timer, a manual promotion and a failback are
  separate processes and take no lock; the fence may be lifted at any moment. Each step of a script
  is atomic, and so is the check that admits a call; a call may also stop for good.
 */
module Calls {
  import opened Common
  import opened Failover

  type CallId = nat

  datatype Kind = Promotion(automatic: bool, confirmed: bool) | Failback | Demotion

  /**
    A call between two of its steps, `pos` steps into its script. `handling` says that its try block
    has raised, `run` is its row in the run log once it has opened one. `list` is what the rest of
    its script is about: the workloads restored when a promotion raised, the workloads at the DR
    site for a failback, the known ones of a demotion.
   */
  datatype Call = Call(kind: Kind, pos: nat, handling: bool, run: Option<nat>, list: seq<string>)

  datatype World = World(
    log: Log, runs: seq<Run>, calls: map<CallId, Call>, health: Option<HealthRow>, evaluations: seq<Evaluation>)

  const START := World([], [], map[], None, [])

  datatype Action =
    | Begin(id: CallId, kind: Kind)
    | Do(id: CallId, outcome: Outcome, at: nat)
    | Die(id: CallId)
    | Lift
    | Evaluate(at: nat, healthy: bool)

  function Script(c: Config, call: Call): seq<Step> {
    match call.kind
    case Promotion(_, _) => if call.handling then RollbackScript(call.list) else PromoteScript(c)
    case Failback => if call.handling then [CloseRun(false)] else FailbackScript(c, call.list)
    case Demotion => DemoteScript(call.list)
  }

  /** The admission check of a call. */
  predicate Admits(runs: seq<Run>, kind: Kind) {
    match kind
    case Promotion(_, _) => !AlreadyFailedOver(runs)
    case Failback => AlreadyFailedOver(runs)
    case Demotion => Latest(runs, FailoverRun).Some?
  }

  /** The workloads recorded by the latest successful failover, as far as the call needs them. */
  function ListFor(c: Config, runs: seq<Run>, kind: Kind): seq<string>
    requires Admits(runs, kind)
  {
    match kind
    case Promotion(_, _) => []
    case Failback => Latest(runs, FailoverRun).value.workloads
    case Demotion => Known(c, Latest(runs, FailoverRun).value.workloads)
  }

  predicate FenceAccepted(c: Config, kind: Kind) {
    c.fence.Command? || (kind.Promotion? && kind.confirmed && !kind.automatic)
  }

  /**
    How a step may end: database writes return, the fence is recorded only when it is accepted, and a
    failback restores only what it has backed up.
   */
  predicate MayEnd(c: Config, call: Call, step: Step, outcome: Outcome) {
    match outcome
    case Done =>
      && (step == FenceRecorded ==> FenceAccepted(c, call.kind))
      && (call.kind.Failback? ==> SavedFirst(call.list, Event(step, outcome)))
    case Tolerated => (step.Deactivate? || step.PowerOff?) && step.tolerant
    case Raised =>
      match step
      case OpenRun(_) => false
      case CloseRun(_) => false
      case FenceRecorded => !FenceAccepted(c, call.kind)
      case PowerOff(_, _, tolerant) => !tolerant
      case _ => true
  }

  predicate StartsLater(runs: seq<Run>, at: nat) {
    forall i | 0 <= i < |runs| :: runs[i].startedAt < at
  }

  /** The call is within its script, and has a row wherever its next step needs one. */
  predicate CanStep(c: Config, w: World, id: CallId) {
    && id in w.calls && w.calls[id].pos < |Script(c, w.calls[id])|
    && (w.calls[id].run.Some? ==> w.calls[id].run.value < |w.runs|)
    && (NeedsRow(Script(c, w.calls[id])[w.calls[id].pos]) ==> w.calls[id].run.Some?)
  }

  predicate NeedsRow(step: Step) {
    step.Restore? || step.CloseRun?
  }

  function NextStep(c: Config, w: World, id: CallId): Step
    requires CanStep(c, w, id)
  {
    Script(c, w.calls[id])[w.calls[id].pos]
  }

  predicate Enabled(c: Config, w: World, a: Action) {
    match a
    case Begin(id, kind) => id !in w.calls && Admits(w.runs, kind)
    case Do(id, outcome, at) =>
      && CanStep(c, w, id) && MayEnd(c, w.calls[id], NextStep(c, w, id), outcome)
      && (NextStep(c, w, id).OpenRun? ==> StartsLater(w.runs, at))
    case Die(id) => id in w.calls
    case Lift => true
    case Evaluate(_, _) => true
  }

  /** The run log after a step that ended this way. */
  function RunsAfter(runs: seq<Run>, run: Option<nat>, step: Step, outcome: Outcome, at: nat): seq<Run>
    requires NeedsRow(step) ==> run.Some? && run.value < |runs|
  {
    if outcome != Done then runs
    else
      match step
      case OpenRun(direction) => runs + [Run(at, direction, Running, [])]
      case Restore(vm, _) => runs[run.value := runs[run.value].(workloads := runs[run.value].workloads + [vm])]
      case CloseRun(success) =>
        runs[run.value := runs[run.value].(status := if success then Succeeded else Failed)]
      case _ => runs
  }

  /** What a call that raised goes on with: a handler if its try block had begun, else nothing. */
  function Handler(call: Call, runs: seq<Run>): Option<Call>
    requires call.run.Some? ==> call.run.value < |runs|
  {
    if call.handling || call.run.None? then None
    else Some(call.(pos := 0, handling := true,
                    list := if call.kind.Promotion? then runs[call.run.value].workloads else call.list))
  }

  function Onward(c: Config, w: World, id: CallId, outcome: Outcome): Option<Call>
    requires CanStep(c, w, id)
  {
    var call := w.calls[id];
    if outcome == Raised then Handler(call, w.runs)
    else if call.pos + 1 == |Script(c, call)| then None
    else Some(call.(pos := call.pos + 1,
                    run := if NextStep(c, w, id).OpenRun? then Some(|w.runs|) else call.run))
  }

  function After(c: Config, w: World, a: Action): World
    requires Enabled(c, w, a)
  {
    match a
    case Begin(id, kind) =>
      w.(calls := w.calls[id := Call(kind, 0, false, None, ListFor(c, w.runs, kind))])
    case Do(id, outcome, at) =>
      var step, next := NextStep(c, w, id), Onward(c, w, id, outcome);
      w.(log := w.log + [Event(step, outcome)],
         runs := RunsAfter(w.runs, w.calls[id].run, step, outcome, at),
         calls := if next.Some? then w.calls[id := next.value] else w.calls - {id})
    case Die(id) => w.(calls := w.calls - {id})
    case Lift => w.(log := w.log + [Event(LiftFence, Done)])
    case Evaluate(at, healthy) =>
      var failures := if healthy then 0 else if w.health.Some? then w.health.value.consecutiveFailures + 1 else 1;
      w.(health := Some(HealthRow(at, failures)), evaluations := w.evaluations + [Evaluation(at, healthy)])
  }

  // ---------------------------------------------------------------- runs

  ghost predicate StepAt(c: Config, states: seq<World>, actions: seq<Action>, i: nat)
    requires i < |actions| && |states| == |actions| + 1
  {
    Enabled(c, states[i], actions[i]) && states[i + 1] == After(c, states[i], actions[i])
  }

  /** Any interleaving of calls and fence lifts. */
  ghost predicate IsRun(c: Config, states: seq<World>, actions: seq<Action>) {
    && |states| == |actions| + 1 && states[0] == START
    && forall i | 0 <= i < |actions| :: StepAt(c, states, actions, i)
  }

  lemma RunStep(c: Config, states: seq<World>, actions: seq<Action>, i: nat)
    requires IsRun(c, states, actions) && i < |actions|
    ensures Enabled(c, states[i], actions[i]) && states[i + 1] == After(c, states[i], actions[i])
  {
    assert StepAt(c, states, actions, i);
  }

  // ---------------------------------------------------------------- rows and calls

  predicate OpensAt(call: Call, pos: nat, c: Config) {
    if call.kind.Promotion? then pos == |Gate(c)| else call.kind.Failback? && pos == 0
  }

  function DirectionOf(kind: Kind): Direction {
    if kind.Promotion? then FailoverRun else FailbackRun
  }

  /** A call has a row exactly from the step that opens it on; the row is running and of its direction. */
  ghost predicate CallFits(c: Config, w: World, call: Call) {
    && call.pos < |Script(c, call)|
    && (call.handling ==> call.run.Some?)
    && (call.kind.Demotion? ==> !call.handling && call.run.None?)
    && (!call.handling ==> match call.kind
                           case Promotion(_, _) => call.run.Some? <==> call.pos > |Gate(c)|
                           case Failback => call.run.Some? <==> call.pos > 0
                           case Demotion => true)
    && (call.run.Some? ==>
          && call.run.value < |w.runs| && w.runs[call.run.value].status == Running
          && w.runs[call.run.value].direction == DirectionOf(call.kind))
  }

  /** Start times increase. */
  ghost predicate Increasing(runs: seq<Run>) {
    forall i, j | 0 <= i < j < |runs| :: runs[i].startedAt < runs[j].startedAt
  }

  ghost predicate Fits(c: Config, w: World) {
    && Increasing(w.runs)
    && (forall id | id in w.calls :: CallFits(c, w, w.calls[id]))
    && forall id, other | id in w.calls && other in w.calls && id != other :: RowsApart(w.calls[id], w.calls[other])
  }

  ghost predicate RowsApart(a: Call, b: Call) {
    a.run.Some? && b.run.Some? ==> a.run.value != b.run.value
  }

  /** A call that fits can always go on: no step of its script is stuck. */
  lemma FittingCallCanStep(c: Config, w: World, id: CallId)
    requires id in w.calls && CallFits(c, w, w.calls[id])
    ensures CanStep(c, w, id)
  {
  }

  /** The steps of a script that open, use and close a row. */
  lemma RowSteps(c: Config, call: Call)
    requires call.pos < |Script(c, call)|
    ensures var step := Script(c, call)[call.pos];
            && (step.OpenRun? <==> !call.handling && OpensAt(call, call.pos, c))
            && (step.OpenRun? ==> step.direction == DirectionOf(call.kind))
            && (step.CloseRun? <==> !call.kind.Demotion? && call.pos == |Script(c, call)| - 1)
  {
  }
}
