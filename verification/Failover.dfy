/**
  The disaster-recovery protocol of `DROrchestrator`: what each call may do, and what holds
  over every run of calls. The external world is the log of attempted steps; gateway routes
  and the fence are read off it.
 */
module Failover {
  import opened Common

  datatype Site = Primary | Dr
  datatype Direction = FailoverRun | FailbackRun
  datatype RunStatus = Running | Succeeded | Failed
  datatype FenceMode = Manual | Command(verify: bool)

  datatype Step =
    | Plan
    | Preflight
    | FenceCommand
    | FenceVerify
    | FenceRecorded
    | OpenRun(direction: Direction)
    | Prepare(site: Site)
    | Deactivate(site: Site, tolerant: bool)
    | Activate(site: Site)
    | BackUp(vm: string)
    | Restore(vm: string, site: Site)
    | PowerOn(vm: string, site: Site)
    | HealthCheck(vm: string, site: Site)
    | PowerOff(vm: string, site: Site, tolerant: bool)
    | CloseRun(success: bool)
    | LiftFence

  /** A call returned, failed where the code tolerates failure, or raised. */
  datatype Outcome = Done | Tolerated | Raised
  datatype Event = Event(step: Step, outcome: Outcome)
  type Log = seq<Event>

  /** `workloads` is in boot order; the configuration loader guarantees distinct names. */
  datatype Config = Config(
    workloads: seq<string>, fence: FenceMode, autoFailover: bool,
    failureThreshold: nat, checkIntervalSeconds: nat, quorum: nat)

  datatype Run = Run(startedAt: nat, direction: Direction, status: RunStatus, workloads: seq<string>)

  datatype HealthRow = HealthRow(checkedAt: nat, consecutiveFailures: nat)
  datatype Evaluation = Evaluation(at: nat, healthy: bool)

  /** Instants are microseconds. `evaluations` records every probe evaluation that was stored. */
  datatype DrState = DrState(
    clock: nat, runs: seq<Run>, health: Option<HealthRow>, log: Log, evaluations: seq<Evaluation>)

  // ---------------------------------------------------------------- scripts

  /** The call did not raise; only a tolerant step may fail and pass. */
  ghost predicate Passed(e: Event) {
    e.outcome == Done || (e.outcome == Tolerated && (e.step.Deactivate? || e.step.PowerOff?) && e.step.tolerant)
  }

  /** Events `from..to` of the log are the first steps of the script, none of them raised. */
  ghost predicate Ran(script: seq<Step>, log: Log, from: nat, to: nat) {
    && from <= to <= |log|
    && to - from <= |script|
    && forall i | from <= i < to :: log[i].step == script[i - from] && Passed(log[i])
  }

  /** Events `from..to` follow the script up to a last event that raised. */
  ghost predicate Stopped(script: seq<Step>, log: Log, from: nat, to: nat) {
    && from < to <= |log|
    && to - from <= |script|
    && Ran(script, log, from, to - 1)
    && log[to - 1] == Event(script[to - 1 - from], Raised)
  }

  ghost predicate RanAll(script: seq<Step>, log: Log, from: nat, to: nat) {
    Ran(script, log, from, to) && to - from == |script|
  }

  /** Workloads are booted one at a time: power on, then wait for health. */
  function BootStep(ws: seq<string>, site: Site, k: nat): Step
    requires k < 2 * |ws|
  {
    if k % 2 == 0 then PowerOn(ws[k / 2], site) else HealthCheck(ws[k / 2], site)
  }

  /** Everything that happens before a run is opened; nothing here touches a route or a VM. */
  function Gate(c: Config): seq<Step> {
    match c.fence
    case Manual => [Plan, Preflight, FenceRecorded]
    case Command(verify) =>
      if verify then [Plan, Preflight, FenceCommand, FenceVerify, FenceRecorded]
      else [Plan, Preflight, FenceCommand, FenceRecorded]
  }

  function PromoteStep(c: Config, k: nat): Step
    requires k < |Gate(c)| + 5 + 3 * |c.workloads|
  {
    var g, n := |Gate(c)|, |c.workloads|;
    if k < g then Gate(c)[k]
    else if k == g then OpenRun(FailoverRun)
    else if k == g + 1 then Prepare(Dr)
    else if k == g + 2 then Deactivate(Primary, true)
    else if k < g + 3 + n then Restore(c.workloads[k - g - 3], Dr)
    else if k == g + 3 + n then Activate(Dr)
    else if k < g + 4 + 3 * n then BootStep(c.workloads, Dr, k - g - 4 - n)
    else CloseRun(true)
  }

  function PromoteScript(c: Config): (script: seq<Step>)
    ensures |script| == |Gate(c)| + 5 + 3 * |c.workloads|
  {
    seq(|Gate(c)| + 5 + 3 * |c.workloads|,
        k requires 0 <= k < |Gate(c)| + 5 + 3 * |c.workloads| => PromoteStep(c, k))
  }

  /** How many workloads are restored once the first `k` steps of a promotion have passed. */
  function PromoteRestores(c: Config, k: nat): (n: nat)
    ensures n <= |c.workloads|
  {
    var g, n := |Gate(c)|, |c.workloads|;
    if k < g + 3 then 0 else if k < g + 3 + n then k - g - 3 else n
  }

  /** What the handler of a failed promotion does, for the workloads restored so far. */
  function RollbackScript(restored: seq<string>): (script: seq<Step>)
    ensures |script| == |restored| + 2
  {
    seq(|restored| + 2, k requires 0 <= k < |restored| + 2 =>
      if k == 0 then Deactivate(Dr, true)
      else if k <= |restored| then PowerOff(restored[|restored| - k], Dr, true)
      else CloseRun(false))
  }

  /** `active` are the workloads of the failover being undone. */
  function FailbackStep(c: Config, active: seq<string>, k: nat): Step
    requires k < 6 + 2 * |active| + 3 * |c.workloads|
  {
    var m, n := |active|, |c.workloads|;
    if k == 0 then OpenRun(FailbackRun)
    else if k == 1 then Prepare(Primary)
    else if k == 2 then Deactivate(Primary, false)
    else if k < 3 + m then BackUp(active[k - 3])
    else if k < 3 + m + n then Restore(c.workloads[k - 3 - m], Primary)
    else if k == 3 + m + n then Deactivate(Dr, false)
    else if k < 4 + 2 * m + n then PowerOff(active[3 + 2 * m + n - k], Dr, false)
    else if k == 4 + 2 * m + n then Activate(Primary)
    else if k < 5 + 2 * m + 3 * n then BootStep(c.workloads, Primary, k - 5 - 2 * m - n)
    else CloseRun(true)
  }

  function FailbackRestores(c: Config, active: seq<string>, k: nat): (n: nat)
    ensures n <= |c.workloads|
  {
    var m, n := |active|, |c.workloads|;
    if k < 3 + m then 0 else if k < 3 + m + n then k - 3 - m else n
  }

  function FailbackScript(c: Config, active: seq<string>): (script: seq<Step>)
    ensures |script| == 6 + 2 * |active| + 3 * |c.workloads|
  {
    seq(6 + 2 * |active| + 3 * |c.workloads|,
        k requires 0 <= k < 6 + 2 * |active| + 3 * |c.workloads| => FailbackStep(c, active, k))
  }

  function DemoteScript(known: seq<string>): (script: seq<Step>)
    ensures |script| == |known| + 1
  {
    seq(|known| + 1, k requires 0 <= k < |known| + 1 =>
      if k == 0 then Deactivate(Dr, false) else PowerOff(known[|known| - k], Dr, false))
  }

  // ---------------------------------------------------------------- run log

  function Latest(runs: seq<Run>, direction: Direction): Option<Run> {
    if runs == [] then None
    else
      var last, rest := runs[|runs| - 1], Latest(runs[..|runs| - 1], direction);
      if last.direction == direction && last.status == Succeeded &&
         (rest.None? || last.startedAt > rest.value.startedAt)
      then Some(last) else rest
  }

  predicate AlreadyFailedOver(runs: seq<Run>) {
    var failover, failback := Latest(runs, FailoverRun), Latest(runs, FailbackRun);
    failover.Some? && (failback.None? || failover.value.startedAt > failback.value.startedAt)
  }

  /** The directions of the successful runs, oldest first. */
  function Successes(runs: seq<Run>): seq<Direction> {
    if runs == [] then []
    else
      var last := runs[|runs| - 1];
      Successes(runs[..|runs| - 1]) + if last.status == Succeeded then [last.direction] else []
  }

  /** Starting with a failover, failovers and failbacks take turns. */
  ghost predicate Alternates(ds: seq<Direction>) {
    forall i | 0 <= i < |ds| :: ds[i] == if i % 2 == 0 then FailoverRun else FailbackRun
  }

  ghost predicate Ordered(runs: seq<Run>, clock: nat) {
    && (forall i, j | 0 <= i < j < |runs| :: runs[i].startedAt < runs[j].startedAt)
    && (forall i | 0 <= i < |runs| :: runs[i].startedAt < clock)
  }

  /** The latest successful run of either direction, when start times increase. */
  lemma {:induction false} LatestIsLastSuccess(runs: seq<Run>, clock: nat)
    requires Ordered(runs, clock)
    ensures AlreadyFailedOver(runs) <==>
            Successes(runs) != [] && Successes(runs)[|Successes(runs)| - 1] == FailoverRun
    ensures forall d :: Latest(runs, d).Some? ==> Latest(runs, d).value in runs
    ensures forall d :: Latest(runs, d).Some? <==> d in Successes(runs)
  {
    if runs != [] {
      var n := |runs| - 1;
      var init := runs[..n];
      LatestIsLastSuccess(init, clock);
      forall d | Latest(init, d).Some?
        ensures Latest(init, d).value.startedAt < runs[n].startedAt
      {
        var i :| 0 <= i < n && init[i] == Latest(init, d).value;
      }
      var d := runs[n].direction;
      if runs[n].status == Succeeded {
        assert Latest(runs, d) == Some(runs[n]);
        assert Successes(runs) == Successes(init) + [d];
        forall e | e != d ensures Latest(runs, e) == Latest(init, e) {
        }
        assert AlreadyFailedOver(runs) <==> d == FailoverRun;
      } else {
        forall e ensures Latest(runs, e) == Latest(init, e) {
        }
      }
    }
  }

  // ---------------------------------------------------------------- reading the log

  /** Workloads whose restore returned, oldest first, in events `from..to`. */
  ghost function Restored(log: Log, from: nat, to: nat): seq<string>
    requires from <= to <= |log|
  {
    if from == to then []
    else
      var e := log[to - 1];
      Restored(log, from, to - 1) + if e.step.Restore? && e.outcome == Done then [e.step.vm] else []
  }

  /** What was restored between two positions does not depend on what is logged later. */
  lemma {:induction false} RestoredStable(log: Log, log': Log, from: nat, to: nat)
    requires from <= to <= |log| && log <= log'
    ensures Restored(log', from, to) == Restored(log, from, to)
  {
    if from < to {
      RestoredStable(log, log', from, to - 1);
    }
  }

  /** A route counts as up from any attempt to activate it until a confirmed deactivation. */
  ghost predicate Up(log: Log, k: nat, site: Site)
    requires k <= |log|
  {
    if k == 0 then site == Primary
    else
      var e := log[k - 1];
      if e.step == Activate(site) then true
      else if e.step.Deactivate? && e.step.site == site && e.outcome == Done then false
      else Up(log, k - 1, site)
  }

  /** The primary is fenced from the moment promotion accepts the fence until it is lifted outside. */
  ghost predicate Fenced(log: Log, k: nat)
    requires k <= |log|
  {
    if k == 0 then false
    else if log[k - 1] == Event(FenceRecorded, Done) then true
    else if log[k - 1].step == LiftFence then false
    else Fenced(log, k - 1)
  }

  ghost predicate SplitBrain(log: Log, k: nat)
    requires k <= |log|
  {
    Up(log, k, Primary) && Up(log, k, Dr) && !Fenced(log, k)
  }

  ghost predicate FenceHeldSince(log: Log, j: nat, i: nat) {
    j < i <= |log| && log[j] == Event(FenceRecorded, Done) && forall m | j < m < i :: log[m].step != LiftFence
  }

  ghost predicate DrDownSince(log: Log, j: nat, i: nat) {
    && j < i <= |log| && log[j] == Event(Deactivate(Dr, false), Done)
    && forall m | j < m < i :: log[m].step != Activate(Dr)
  }

  /** Why each entry of the log that could cause split brain was allowed. */
  ghost predicate JustifiedAt(log: Log, i: nat)
    requires i < |log|
  {
    match log[i].step
    case Activate(Dr) => exists j :: FenceHeldSince(log, j, i)
    case Activate(Primary) => exists j :: DrDownSince(log, j, i)
    case LiftFence => !(Up(log, i, Primary) && Up(log, i, Dr))
    case _ => true
  }

  ghost predicate Justified(log: Log) {
    forall i | 0 <= i < |log| :: JustifiedAt(log, i)
  }

  // ---------------------------------------------------------------- what each call does

  /** Exactly one run row was added, with a start time between the two clock readings. */
  ghost predicate RunAdded(s: DrState, s': DrState, direction: Direction, status: RunStatus, workloads: seq<string>) {
    && s.runs <= s'.runs
    && |s'.runs| == |s.runs| + 1
    && var run := s'.runs[|s.runs|];
    && run.direction == direction && run.status == status && run.workloads == workloads
    && s.clock <= run.startedAt < s'.clock
  }

  ghost predicate OnlyRunsAndLog(s: DrState, s': DrState) {
    && s'.health == s.health && s'.evaluations == s.evaluations
    && s.clock <= s'.clock
    && s.log <= s'.log
  }

  datatype CallResult = PlanOnly | AlreadyActive | NothingActive | Returned | Threw

  /** The handler of a failed promotion ran to its end, or its route withdrawal itself raised. */
  ghost predicate HandlerRan(s: DrState, s': DrState) {
    && OnlyRunsAndLog(s, s') && s'.clock == s.clock
    && |s.runs| == |s'.runs| > 0
    && (forall i | 0 <= i < |s.runs| - 1 :: s'.runs[i] == s.runs[i])
    && var last, from := |s.runs| - 1, |s.log|;
    || (RanAll(RollbackScript(s.runs[last].workloads), s'.log, from, |s'.log|)
      && s'.runs[last] == s.runs[last].(status := Failed))
    || (|s'.log| == from + 1 && s'.log[from] == Event(Deactivate(Dr, true), Raised) && s'.runs[last] == s.runs[last])
  }

  /** A promotion raised after opening its run, when the log had reached `raised`; the handler followed. */
  ghost predicate RolledBack(c: Config, s: DrState, raised: DrState, s': DrState) {
    var from, body := |s.log|, |raised.log|;
    && from + |Gate(c)| + 1 < body < from + |PromoteScript(c)|
    && OnlyRunsAndLog(s, raised)
    && Stopped(PromoteScript(c), raised.log, from, body)
    && RunAdded(s, raised, FailoverRun, Running, c.workloads[..PromoteRestores(c, body - from - 1)])
    && HandlerRan(raised, s')
  }

  /** Whether the fence is recorded, when it comes to that, is decided by the configuration and the caller. */
  ghost predicate FencedAs(log: Log, from: nat, accepted: bool) {
    forall i | from <= i < |log| && log[i].step == FenceRecorded :: log[i].outcome == Done <==> accepted
  }

  ghost predicate PromoteEffect(
    c: Config, execute: bool, confirmed: bool, automatic: bool, s: DrState, s': DrState, r: CallResult)
  {
    && OnlyRunsAndLog(s, s')
    && FencedAs(s'.log, |s.log|, c.fence.Command? || (confirmed && !automatic))
    && if !execute then r == PlanOnly && s'.log == s.log && s'.runs == s.runs
       else if AlreadyFailedOver(s.runs) then r == AlreadyActive && s'.log == s.log && s'.runs == s.runs
       else if r == Returned then
         RanAll(PromoteScript(c), s'.log, |s.log|, |s'.log|) && RunAdded(s, s', FailoverRun, Succeeded, c.workloads)
       else
         && r == Threw
         && (|| (Stopped(Gate(c), s'.log, |s.log|, |s'.log|) && s'.runs == s.runs)
             || exists raised :: RolledBack(c, s, raised, s'))
  }

  /** A restore returns only for a workload whose final backup was taken. */
  predicate SavedFirst(active: seq<string>, e: Event) {
    e.step.Restore? && e.outcome == Done ==> e.step.vm in active
  }

  /** A confirmed failback of the workloads running at the DR site; one that raises closes its run as failed. */
  ghost predicate FailbackRan(c: Config, active: seq<string>, s: DrState, s': DrState, completed: bool) {
    var script := FailbackScript(c, active);
    && OnlyRunsAndLog(s, s')
    && (forall i | |s.log| <= i < |s'.log| :: SavedFirst(active, s'.log[i]))
    && if completed then
         RanAll(script, s'.log, |s.log|, |s'.log|) && RunAdded(s, s', FailbackRun, Succeeded, c.workloads)
       else
         var body := |s'.log| - 1;
         && |s.log| + 1 < body < |s.log| + |script|
         && Stopped(script, s'.log, |s.log|, body)
         && s'.log[body] == Event(CloseRun(false), Done)
         && RunAdded(s, s', FailbackRun, Failed, c.workloads[..FailbackRestores(c, active, body - |s.log| - 1)])
  }

  ghost predicate FailbackEffect(c: Config, execute: bool, confirmed: bool, s: DrState, s': DrState, r: CallResult) {
    && OnlyRunsAndLog(s, s')
    && if !AlreadyFailedOver(s.runs) then r == NothingActive && s'.log == s.log && s'.runs == s.runs
       else if !execute then r == PlanOnly && s'.log == s.log && s'.runs == s.runs
       else if !confirmed then r == Threw && s'.log == s.log && s'.runs == s.runs
       else
         && r in {Returned, Threw}
         && FailbackRan(c, Latest(s.runs, FailoverRun).value.workloads, s, s', r == Returned)
  }

  function Known(c: Config, ws: seq<string>): seq<string> {
    if ws == [] then []
    else Known(c, ws[..|ws| - 1]) + if ws[|ws| - 1] in c.workloads then [ws[|ws| - 1]] else []
  }

  ghost predicate DemoteEffect(c: Config, execute: bool, s: DrState, s': DrState, r: CallResult) {
    && OnlyRunsAndLog(s, s')
    && s'.runs == s.runs
    && var last := Latest(s.runs, FailoverRun);
    if last.None? then r == NothingActive && s'.log == s.log
    else if !execute then r == PlanOnly && s'.log == s.log
    else
      var script := DemoteScript(Known(c, last.value.workloads));
      if r == Returned then RanAll(script, s'.log, |s.log|, |s'.log|)
      else r == Threw && Stopped(script, s'.log, |s.log|, |s'.log|)
  }

  // ---------------------------------------------------------------- the watcher

  function CountFailed(probes: seq<bool>): nat {
    if probes == [] then 0
    else CountFailed(probes[..|probes| - 1]) + if probes[|probes| - 1] then 0 else 1
  }

  /** A site is unhealthy when the quorum, or with no quorum every probe (at least one), failed. */
  predicate SiteHealthy(c: Config, probes: seq<bool>) {
    var required := if c.quorum != 0 then c.quorum else if |probes| == 0 then 1 else |probes|;
    CountFailed(probes) < required
  }

  /** One stored evaluation of the probes, made no earlier than the configured interval allows. */
  ghost predicate Evaluated(c: Config, s: DrState, s': DrState, healthy: bool) {
    s'.health.Some? &&
    var HealthRow(at, failures) := s'.health.value;
    && s.clock <= at < s'.clock
    && (c.checkIntervalSeconds > 60 && s.health.Some? ==>
      at >= s.health.value.checkedAt + c.checkIntervalSeconds * SECOND)
    && failures == (if healthy then 0 else if s.health.Some? then s.health.value.consecutiveFailures + 1 else 1)
    && s' == s.(clock := s'.clock, health := s'.health, evaluations := s.evaluations + [Evaluation(at, healthy)])
  }

  datatype WatchResult = Suppressed | NotDue | Recorded | StillActive | Promoted(call: CallResult)

  ghost predicate WatchEffect(
    c: Config, maintenance: bool, probes: seq<bool>, s: DrState, s': DrState, r: WatchResult)
  {
    if maintenance then r == Suppressed && s' == s
    else if r == NotDue then
      && c.checkIntervalSeconds > 60 && s.health.Some?
      && s' == s.(clock := s'.clock)
      && s.clock < s'.clock
      && s.clock < s.health.value.checkedAt + c.checkIntervalSeconds * SECOND
    else
      exists mid :: WatchEvaluated(c, s, mid, s', SiteHealthy(c, probes), r)
  }

  ghost predicate WatchEvaluated(c: Config, s: DrState, mid: DrState, s': DrState, healthy: bool, r: WatchResult) {
    && Evaluated(c, s, mid, healthy)
    && if healthy || mid.health.value.consecutiveFailures < c.failureThreshold || !c.autoFailover then
         r == Recorded && s' == mid
       else if AlreadyFailedOver(mid.runs) then r == StillActive && s' == mid
       else r.Promoted? && PromoteEffect(c, true, false, true, mid, s', r.call)
  }

  /** Outside the code an operator may lift the fence, but not while both routes may be up. */
  ghost predicate LiftEffect(s: DrState, s': DrState) {
    && s' == s.(log := s.log + [Event(LiftFence, Done)])
    && !(Up(s.log, |s.log|, Primary) && Up(s.log, |s.log|, Dr))
  }
}
