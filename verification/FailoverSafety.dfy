/**
  What holds over every run of promotions, failbacks, demotions and watches, one at a time, with any
  external call failing anywhere: no split brain, an alternating run log, full rollback, and automatic
  promotion only after a sustained outage. Module OverlapSafety lets calls and lifts overlap.
 */
module FailoverSafety {
  import opened Common
  import opened Failover
  import opened FailoverQueries

  // ---------------------------------------------------------------- runs of the system

  datatype Action =
    | DoPromote(execute: bool, confirmed: bool, result: CallResult)
    | DoFailback(execute: bool, confirmed: bool, result: CallResult)
    | DoDemote(execute: bool, result: CallResult)
    | DoWatch(maintenance: bool, probes: seq<bool>, outcome: WatchResult)
    | DoLift

  ghost predicate Next(c: Config, s: DrState, a: Action, s': DrState) {
    match a
    case DoPromote(execute, confirmed, r) => PromoteEffect(c, execute, confirmed, false, s, s', r)
    case DoFailback(execute, confirmed, r) => FailbackEffect(c, execute, confirmed, s, s', r)
    case DoDemote(execute, r) => DemoteEffect(c, execute, s, s', r)
    case DoWatch(maintenance, probes, r) => WatchEffect(c, maintenance, probes, s, s', r)
    case DoLift => LiftEffect(s, s')
  }

  ghost predicate IsRun(c: Config, states: seq<DrState>, actions: seq<Action>) {
    && |states| == |actions| + 1
    && states[0] == DrState(0, [], None, [], [])
    && forall i | 0 <= i < |actions| :: Next(c, states[i], actions[i], states[i + 1])
  }

  // ---------------------------------------------------------------- split brain

  lemma {:induction false} ReadingsStable(log: Log, log': Log, k: nat)
    requires k <= |log| && log <= log'
    ensures Fenced(log', k) == Fenced(log, k)
    ensures forall site :: Up(log', k, site) == Up(log, k, site)
  {
    if k > 0 {
      ReadingsStable(log, log', k - 1);
    }
  }

  lemma {:induction false} HeldFenceIsFenced(log: Log, j: nat, i: nat)
    requires FenceHeldSince(log, j, i)
    ensures Fenced(log, i)
  {
    if j + 1 < i {
      HeldFenceIsFenced(log, j, i - 1);
    }
  }

  lemma {:induction false} WithdrawnDrIsDown(log: Log, j: nat, i: nat)
    requires DrDownSince(log, j, i)
    ensures !Up(log, i, Dr)
  {
    if j + 1 < i {
      WithdrawnDrIsDown(log, j, i - 1);
    }
  }

  /** In a justified log, the two routes are never both up while the primary is unfenced. */
  lemma {:induction false} JustifiedLogNeverSplits(log: Log, k: nat)
    requires Justified(log) && k <= |log|
    ensures !SplitBrain(log, k)
  {
    if k > 0 {
      JustifiedLogNeverSplits(log, k - 1);
      assert JustifiedAt(log, k - 1);
      match log[k - 1].step
      case Activate(Dr) =>
        var j: nat :| FenceHeldSince(log, j, k - 1);
        HeldFenceIsFenced(log, j, k - 1);
      case Activate(Primary) =>
        var j: nat :| DrDownSince(log, j, k - 1);
        WithdrawnDrIsDown(log, j, k - 1);
      case _ =>
    }
  }

  lemma JustifiedStable(log: Log, log': Log, i: nat)
    requires i < |log| && log <= log' && JustifiedAt(log, i)
    ensures JustifiedAt(log', i)
  {
    ReadingsStable(log, log', i);
    match log[i].step
    case Activate(Dr) =>
      var j: nat :| FenceHeldSince(log, j, i);
      assert FenceHeldSince(log', j, i);
    case Activate(Primary) =>
      var j: nat :| DrDownSince(log, j, i);
      assert DrDownSince(log', j, i);
    case _ =>
  }

  /** A stretch of the log taken from a promotion script activates only the DR route, under a held fence. */
  lemma PromotionJustified(c: Config, log: Log, from: nat, to: nat)
    requires Ran(PromoteScript(c), log, from, to) || Stopped(PromoteScript(c), log, from, to)
    ensures forall i | from <= i < to :: JustifiedAt(log, i)
  {
    forall i | from <= i < to
      ensures JustifiedAt(log, i)
    {
      var g := |Gate(c)|;
      assert log[i].step == PromoteStep(c, i - from);
      if log[i].step == Activate(Dr) {
        assert log[from + g - 1].step == PromoteStep(c, g - 1) == FenceRecorded;
        forall m | from + g - 1 < m < i
          ensures log[m].step != LiftFence
        {
          assert log[m].step == PromoteStep(c, m - from);
        }
        assert FenceHeldSince(log, from + g - 1, i);
      }
    }
  }

  lemma FailbackJustified(c: Config, active: seq<string>, log: Log, from: nat, to: nat)
    requires Ran(FailbackScript(c, active), log, from, to) || Stopped(FailbackScript(c, active), log, from, to)
    ensures forall i | from <= i < to :: JustifiedAt(log, i)
  {
    forall i | from <= i < to
      ensures JustifiedAt(log, i)
    {
      assert log[i].step == FailbackStep(c, active, i - from);
      if log[i].step == Activate(Primary) {
        var j := from + 3 + |active| + |c.workloads|;
        assert log[j].step == FailbackStep(c, active, j - from) == Deactivate(Dr, false);
        forall m | j < m < i
          ensures log[m].step != Activate(Dr)
        {
          assert log[m].step == FailbackStep(c, active, m - from);
        }
        assert DrDownSince(log, j, i);
      }
    }
  }

  /** Rollback and demotion only withdraw and power off. */
  lemma WithdrawalJustified(script: seq<Step>, log: Log, from: nat, to: nat)
    requires Ran(script, log, from, to) || Stopped(script, log, from, to)
    requires forall k | 0 <= k < |script| :: script[k].Deactivate? || script[k].PowerOff? || script[k].CloseRun?
    ensures forall i | from <= i < to :: JustifiedAt(log, i)
  {
  }

  lemma PromoteKeepsJustified(
    c: Config, execute: bool, confirmed: bool, automatic: bool, s: DrState, s': DrState, r: CallResult)
    requires Justified(s.log) && PromoteEffect(c, execute, confirmed, automatic, s, s', r)
    ensures Justified(s'.log)
  {
    var from, to := |s.log|, |s'.log|;
    forall i | 0 <= i < from ensures JustifiedAt(s'.log, i) {
      JustifiedStable(s.log, s'.log, i);
    }
    if r == Returned {
      PromotionJustified(c, s'.log, from, to);
    } else if from < to {
      if Stopped(Gate(c), s'.log, from, to) && s'.runs == s.runs {
        assert forall k | 0 <= k < |Gate(c)| :: PromoteScript(c)[k] == Gate(c)[k];
        assert Stopped(PromoteScript(c), s'.log, from, to);
        PromotionJustified(c, s'.log, from, to);
      } else {
        var raised :| RolledBack(c, s, raised, s');
        var body := |raised.log|;
        PromotionJustified(c, raised.log, from, body);
        forall i | from <= i < body ensures JustifiedAt(s'.log, i) {
          JustifiedStable(raised.log, s'.log, i);
        }
        RollbackOnlyWithdraws(raised, s');
      }
    }
  }

  lemma RollbackOnlyWithdraws(s: DrState, s': DrState)
    requires HandlerRan(s, s')
    ensures forall i | |s.log| <= i < |s'.log| :: JustifiedAt(s'.log, i)
  {
  }

  lemma FailbackKeepsJustified(c: Config, execute: bool, confirmed: bool, s: DrState, s': DrState, r: CallResult)
    requires Justified(s.log) && FailbackEffect(c, execute, confirmed, s, s', r)
    ensures Justified(s'.log)
  {
    forall i | 0 <= i < |s.log| ensures JustifiedAt(s'.log, i) {
      JustifiedStable(s.log, s'.log, i);
    }
    if |s.log| < |s'.log| {
      TakingBackJustified(c, Latest(s.runs, FailoverRun).value.workloads, s, s', r == Returned);
    }
  }

  lemma TakingBackJustified(c: Config, active: seq<string>, s: DrState, s': DrState, completed: bool)
    requires FailbackRan(c, active, s, s', completed)
    ensures forall i | |s.log| <= i < |s'.log| :: JustifiedAt(s'.log, i)
  {
    var body := if completed then |s'.log| else |s'.log| - 1;
    FailbackJustified(c, active, s'.log, |s.log|, body);
  }

  lemma DemoteKeepsJustified(c: Config, execute: bool, s: DrState, s': DrState, r: CallResult)
    requires Justified(s.log) && DemoteEffect(c, execute, s, s', r)
    ensures Justified(s'.log)
  {
    forall i | 0 <= i < |s.log| ensures JustifiedAt(s'.log, i) {
      JustifiedStable(s.log, s'.log, i);
    }
    if |s.log| < |s'.log| {
      var known := Known(c, Latest(s.runs, FailoverRun).value.workloads);
      WithdrawalJustified(DemoteScript(known), s'.log, |s.log|, |s'.log|);
    }
  }

  // ---------------------------------------------------------------- run log

  /** Successful runs take turns, starting with a failover, and start times increase. */
  ghost predicate LedgerInv(s: DrState) {
    Ordered(s.runs, s.clock) && Alternates(Successes(s.runs))
  }

  lemma OppositeDirectionAlternates(ds: seq<Direction>, d: Direction)
    requires Alternates(ds)
    requires (ds != [] && ds[|ds| - 1] == FailoverRun) == d.FailbackRun?
    ensures Alternates(ds + [d])
  {
  }

  lemma OrderedAfterRun(s: DrState, s': DrState, direction: Direction, status: RunStatus, workloads: seq<string>)
    requires Ordered(s.runs, s.clock) && RunAdded(s, s', direction, status, workloads)
    ensures Ordered(s'.runs, s'.clock)
    ensures s'.runs == s.runs + [s'.runs[|s.runs|]]
  {
  }

  lemma RunAddedKeepsLedger(s: DrState, s': DrState, direction: Direction, status: RunStatus, workloads: seq<string>)
    requires LedgerInv(s) && RunAdded(s, s', direction, status, workloads)
    requires status == Succeeded ==> AlreadyFailedOver(s.runs) == direction.FailbackRun?
    ensures LedgerInv(s')
    ensures AlreadyFailedOver(s'.runs) ==
            if status == Succeeded then direction.FailoverRun? else AlreadyFailedOver(s.runs)
  {
    OrderedAfterRun(s, s', direction, status, workloads);
    LatestIsLastSuccess(s.runs, s.clock);
    LatestIsLastSuccess(s'.runs, s'.clock);
    var ds := Successes(s.runs);
    assert s'.runs[..|s'.runs| - 1] == s.runs;
    if status == Succeeded {
      assert Successes(s'.runs) == ds + [direction];
      OppositeDirectionAlternates(ds, direction);
    } else {
      assert Successes(s'.runs) == ds;
    }
  }

  lemma RolledBackAddsRun(c: Config, s: DrState, raised: DrState, s': DrState)
    requires RolledBack(c, s, raised, s')
    ensures exists status | status in {Failed, Running} ::
              RunAdded(s, s', FailoverRun, status, raised.runs[|s.runs|].workloads)
  {
    var n := |s.runs|;
    forall i | 0 <= i < n ensures s'.runs[i] == s.runs[i] {
      assert raised.runs[..n][i] == s.runs[i];
    }
    var status := s'.runs[n].status;
    assert RunAdded(s, s', FailoverRun, status, raised.runs[n].workloads);
  }

  /** One call or outside step keeps both invariants; only a successful run changes who is active. */
  lemma PromoteKeepsLedger(
    c: Config, execute: bool, confirmed: bool, automatic: bool, s: DrState, s': DrState, r: CallResult)
    requires LedgerInv(s) && PromoteEffect(c, execute, confirmed, automatic, s, s', r)
    ensures LedgerInv(s')
    ensures AlreadyFailedOver(s'.runs) == (r == Returned || AlreadyFailedOver(s.runs))
  {
    if r == Returned {
      RunAddedKeepsLedger(s, s', FailoverRun, Succeeded, c.workloads);
    } else if r == Threw && s'.runs != s.runs {
      var raised :| RolledBack(c, s, raised, s');
      RolledBackAddsRun(c, s, raised, s');
      var status :| status in {Failed, Running}
        && RunAdded(s, s', FailoverRun, status, raised.runs[|s.runs|].workloads);
      RunAddedKeepsLedger(s, s', FailoverRun, status, raised.runs[|s.runs|].workloads);
    }
  }

  lemma FailbackKeepsLedger(c: Config, execute: bool, confirmed: bool, s: DrState, s': DrState, r: CallResult)
    requires LedgerInv(s) && FailbackEffect(c, execute, confirmed, s, s', r)
    ensures LedgerInv(s')
    ensures AlreadyFailedOver(s'.runs) == (r != Returned && AlreadyFailedOver(s.runs))
  {
    if r == Returned {
      RunAddedKeepsLedger(s, s', FailbackRun, Succeeded, c.workloads);
    } else if s'.runs != s.runs {
      RunAddedKeepsLedger(s, s', FailbackRun, Failed, s'.runs[|s.runs|].workloads);
    }
  }

  // ---------------------------------------------------------------- health counter

  /** The length of the trailing stretch of unhealthy evaluations. */
  ghost function Streak(evaluations: seq<Evaluation>): (k: nat)
    ensures k <= |evaluations|
  {
    if evaluations == [] || evaluations[|evaluations| - 1].healthy then 0
    else Streak(evaluations[..|evaluations| - 1]) + 1
  }

  /** Configured intervals above one minute separate consecutive evaluations. */
  ghost predicate Spaced(c: Config, evaluations: seq<Evaluation>) {
    c.checkIntervalSeconds > 60 ==>
      forall i | 0 < i < |evaluations| :: evaluations[i].at >= evaluations[i - 1].at + c.checkIntervalSeconds * SECOND
  }

  /** The stored row is the summary of everything evaluated so far. */
  ghost predicate HealthInv(c: Config, s: DrState) {
    && Spaced(c, s.evaluations)
    && (s.health.None? <==> s.evaluations == [])
    && (s.health.Some? ==>
          && s.health.value.consecutiveFailures == Streak(s.evaluations)
          && s.health.value.checkedAt == s.evaluations[|s.evaluations| - 1].at)
  }

  lemma EvaluationKeepsHealth(c: Config, s: DrState, s': DrState, healthy: bool)
    requires HealthInv(c, s) && Evaluated(c, s, s', healthy)
    ensures HealthInv(c, s')
  {
  }

  /** A streak of evaluations spans at least one interval per evaluation after the first. */
  lemma {:induction false} StreakSpans(c: Config, evaluations: seq<Evaluation>, k: nat)
    requires Spaced(c, evaluations) && c.checkIntervalSeconds > 60
    requires 0 < k <= Streak(evaluations)
    ensures var n := |evaluations|;
            evaluations[n - 1].at - evaluations[n - k].at >= (k - 1) * (c.checkIntervalSeconds * SECOND)
  {
    if k > 1 {
      var n := |evaluations|;
      StreakSpans(c, evaluations[..n - 1], k - 1);
      var step := c.checkIntervalSeconds * SECOND;
      assert (k - 2) * step + step == (k - 1) * step;
    }
  }

  lemma {:induction false} StreakIsUnhealthy(evaluations: seq<Evaluation>, k: nat)
    requires k <= Streak(evaluations)
    ensures forall i | |evaluations| - k <= i < |evaluations| :: !evaluations[i].healthy
  {
    if k > 0 {
      StreakIsUnhealthy(evaluations[..|evaluations| - 1], k - 1);
    }
  }

  /** The last `failureThreshold` evaluations were unhealthy and, above one minute, well spread. */
  ghost predicate SustainedOutage(c: Config, evaluations: seq<Evaluation>) {
    var n, first := |evaluations|, |evaluations| - c.failureThreshold;
    && 0 <= first
    && (forall i | first <= i < n :: !evaluations[i].healthy)
    && (c.checkIntervalSeconds > 60 && first < n ==>
          evaluations[n - 1].at - evaluations[first].at >= (c.failureThreshold - 1) * (c.checkIntervalSeconds * SECOND))
  }

  lemma LongStreakIsOutage(c: Config, evaluations: seq<Evaluation>)
    requires Spaced(c, evaluations) && 0 < c.failureThreshold <= Streak(evaluations)
    ensures SustainedOutage(c, evaluations)
  {
    StreakIsUnhealthy(evaluations, c.failureThreshold);
    if c.checkIntervalSeconds > 60 {
      StreakSpans(c, evaluations, c.failureThreshold);
    }
  }

  /**
    A watch acts on the system only by promoting, and promotes only with automatic failover on,
    no maintenance file, the probes just failed, and a sustained outage on record.
   */
  lemma AutomaticPromotionNeedsSustainedOutage(
    c: Config, maintenance: bool, probes: seq<bool>, s: DrState, s': DrState, r: WatchResult)
    requires HealthInv(c, s) && WatchEffect(c, maintenance, probes, s, s', r)
    requires c.failureThreshold >= 2
    requires r.Promoted? || s'.log != s.log || s'.runs != s.runs
    ensures r.Promoted? && c.autoFailover && !maintenance && !SiteHealthy(c, probes)
    ensures |s'.evaluations| == |s.evaluations| + 1 && SustainedOutage(c, s'.evaluations)
  {
    var mid :| WatchEvaluated(c, s, mid, s', SiteHealthy(c, probes), r);
    EvaluationKeepsHealth(c, s, mid, SiteHealthy(c, probes));
    LongStreakIsOutage(c, mid.evaluations);
  }

  /**
    A watch promotes exactly when there is no maintenance file, an evaluation is due, the site is now
    unhealthy for at least the configured number of evaluations in a row, automatic failover is on, and
    no failover is active.
   */
  lemma WatchPromotesExactly(
    c: Config, maintenance: bool, probes: seq<bool>, s: DrState, s': DrState, r: WatchResult)
    requires HealthInv(c, s) && WatchEffect(c, maintenance, probes, s, s', r)
    ensures r == Suppressed <==> maintenance
    ensures r == NotDue ==>
              && c.checkIntervalSeconds > 60 && s.evaluations != []
              && s.clock < s.evaluations[|s.evaluations| - 1].at + c.checkIntervalSeconds * SECOND
    ensures r.Promoted? <==>
            && !maintenance && r != NotDue && c.autoFailover && ProbesFail(c, probes)
            && Streak(s.evaluations) + 1 >= c.failureThreshold
            && !AlreadyFailedOver(s.runs)
  {
    UnhealthyExactly(c, probes);
    if !maintenance && r != NotDue {
      var mid :| WatchEvaluated(c, s, mid, s', SiteHealthy(c, probes), r);
      assert s.health.None? ==> Streak(s.evaluations) == 0;
    }
  }

  // ---------------------------------------------------------------- the main results

  ghost predicate Inv(c: Config, s: DrState) {
    Justified(s.log) && LedgerInv(s) && HealthInv(c, s)
  }

  lemma LiftKeepsInv(c: Config, s: DrState, s': DrState)
    requires Inv(c, s) && LiftEffect(s, s')
    ensures Inv(c, s')
  {
    forall i | 0 <= i < |s'.log| ensures JustifiedAt(s'.log, i) {
      if i < |s.log| {
        JustifiedStable(s.log, s'.log, i);
      } else {
        ReadingsStable(s.log, s'.log, i);
      }
    }
  }

  lemma OrderedLater(runs: seq<Run>, clock: nat, clock': nat)
    requires Ordered(runs, clock) && clock <= clock'
    ensures Ordered(runs, clock')
  {
  }

  lemma WatchKeepsInv(c: Config, maintenance: bool, probes: seq<bool>, s: DrState, s': DrState, r: WatchResult)
    requires Inv(c, s) && WatchEffect(c, maintenance, probes, s, s', r)
    ensures Inv(c, s')
  {
    if maintenance {
    } else if r == NotDue {
      OrderedLater(s.runs, s.clock, s'.clock);
    } else {
      var mid :| WatchEvaluated(c, s, mid, s', SiteHealthy(c, probes), r);
      EvaluationKeepsHealth(c, s, mid, SiteHealthy(c, probes));
      OrderedLater(s.runs, s.clock, mid.clock);
      if r.Promoted? {
        PromoteKeepsJustified(c, true, false, true, mid, s', r.call);
        PromoteKeepsLedger(c, true, false, true, mid, s', r.call);
      }
    }
  }

  lemma StepKeepsInv(c: Config, s: DrState, a: Action, s': DrState)
    requires Inv(c, s) && Next(c, s, a, s')
    ensures Inv(c, s')
  {
    match a
    case DoPromote(execute, confirmed, r) =>
      PromoteKeepsJustified(c, execute, confirmed, false, s, s', r);
      PromoteKeepsLedger(c, execute, confirmed, false, s, s', r);
    case DoFailback(execute, confirmed, r) =>
      FailbackKeepsJustified(c, execute, confirmed, s, s', r);
      FailbackKeepsLedger(c, execute, confirmed, s, s', r);
    case DoDemote(execute, r) =>
      DemoteKeepsJustified(c, execute, s, s', r);
      OrderedLater(s.runs, s.clock, s'.clock);
    case DoWatch(maintenance, probes, r) =>
      WatchKeepsInv(c, maintenance, probes, s, s', r);
    case DoLift =>
      LiftKeepsInv(c, s, s');
  }

  lemma {:induction false} RunKeepsInv(c: Config, states: seq<DrState>, actions: seq<Action>, i: nat)
    requires IsRun(c, states, actions) && i < |states|
    ensures Inv(c, states[i])
  {
    if i > 0 {
      RunKeepsInv(c, states, actions, i - 1);
      assert Next(c, states[i - 1], actions[i - 1], states[i]);
      StepKeepsInv(c, states[i - 1], actions[i - 1], states[i]);
    }
  }

  /** Over every run of calls one at a time, at every moment within them: both routes up only while fenced. */
  lemma NoSplitBrainEver(c: Config, states: seq<DrState>, actions: seq<Action>, i: nat, k: nat)
    requires IsRun(c, states, actions) && i < |states| && k <= |states[i].log|
    ensures Up(states[i].log, k, Primary) && Up(states[i].log, k, Dr) ==> Fenced(states[i].log, k)
    ensures Justified(states[i].log)
  {
    RunKeepsInv(c, states, actions, i);
    JustifiedLogNeverSplits(states[i].log, k);
  }

  /** Over every run of calls one at a time, successes alternate, and the stored counter is the streak of failures. */
  lemma LedgerAndCounterEver(c: Config, states: seq<DrState>, actions: seq<Action>, i: nat)
    requires IsRun(c, states, actions) && i < |states|
    ensures var ds := Successes(states[i].runs);
            && Alternates(ds)
            && (AlreadyFailedOver(states[i].runs) <==> ds != [] && ds[|ds| - 1] == FailoverRun)
    ensures states[i].health.Some? ==> states[i].health.value.consecutiveFailures == Streak(states[i].evaluations)
  {
    RunKeepsInv(c, states, actions, i);
    LatestIsLastSuccess(states[i].runs, states[i].clock);
  }

  /** Who is active changes only through a promotion or failback that returned; a demotion does not change it. */
  lemma OnlySuccessfulRunsSwitchSites(c: Config, s: DrState, a: Action, s': DrState)
    requires Inv(c, s) && Next(c, s, a, s')
    ensures AlreadyFailedOver(s.runs) && !AlreadyFailedOver(s'.runs) ==> a.DoFailback? && a.result == Returned
    ensures !AlreadyFailedOver(s.runs) && AlreadyFailedOver(s'.runs) ==>
              (a.DoPromote? && a.result == Returned) || (a.DoWatch? && a.outcome == Promoted(Returned))
  {
    match a
    case DoPromote(execute, confirmed, r) => PromoteKeepsLedger(c, execute, confirmed, false, s, s', r);
    case DoFailback(execute, confirmed, r) => FailbackKeepsLedger(c, execute, confirmed, s, s', r);
    case DoWatch(maintenance, probes, r) =>
      if r.Promoted? {
        var mid :| WatchEvaluated(c, s, mid, s', SiteHealthy(c, probes), r);
        OrderedLater(s.runs, s.clock, mid.clock);
        PromoteKeepsLedger(c, true, false, true, mid, s', r.call);
      }
    case _ =>
  }

  // ---------------------------------------------------------------- failed promotions

  ghost predicate TouchesRouteOrVm(step: Step) {
    step.Prepare? || step.Activate? || step.Deactivate? || step.Restore? || step.PowerOn? || step.PowerOff?
      || step.BackUp?
  }

  lemma ScriptPowersOnLast(c: Config, log: Log, from: nat, to: nat, i: nat)
    requires Ran(PromoteScript(c), log, from, to) || Stopped(PromoteScript(c), log, from, to)
    requires from <= i < to && log[i].step.PowerOn?
    ensures exists j :: from <= j < i && log[j] == Event(Activate(Dr), Done)
                        && Restored(log, from, j) == c.workloads
  {
    var n := |c.workloads|;
    assert log[i].step == PromoteStep(c, i - from);
    var j := from + |Gate(c)| + 3 + n;
    assert log[j].step == PromoteStep(c, j - from);
    RestoredFollowsScript(c, log, from, j);
  }

  /** However a promotion ends, it powers nothing on before every workload was restored and the DR route is active. */
  lemma PowerOnComesLast(
    c: Config, execute: bool, confirmed: bool, automatic: bool, s: DrState, s': DrState, r: CallResult, i: nat)
    requires PromoteEffect(c, execute, confirmed, automatic, s, s', r)
    requires |s.log| <= i < |s'.log| && s'.log[i].step.PowerOn?
    ensures exists j :: |s.log| <= j < i && s'.log[j] == Event(Activate(Dr), Done)
                        && Restored(s'.log, |s.log|, j) == c.workloads
  {
    var from, to := |s.log|, |s'.log|;
    if r == Returned {
      ScriptPowersOnLast(c, s'.log, from, to, i);
    } else if !(Stopped(Gate(c), s'.log, from, to) && s'.runs == s.runs) {
      var raised :| RolledBack(c, s, raised, s');
      RollbackPowersOnLast(c, s, raised, s', i);
    }
  }

  lemma RollbackPowersOnLast(c: Config, s: DrState, raised: DrState, s': DrState, i: nat)
    requires RolledBack(c, s, raised, s')
    requires |s.log| <= i < |s'.log| && s'.log[i].step.PowerOn?
    ensures exists j :: |s.log| <= j < i && s'.log[j] == Event(Activate(Dr), Done)
                        && Restored(s'.log, |s.log|, j) == c.workloads
  {
    HandlerPowersNothingOn(raised, s');
    ScriptPowersOnLast(c, raised.log, |s.log|, |raised.log|, i);
    var j :| |s.log| <= j < i && raised.log[j] == Event(Activate(Dr), Done)
             && Restored(raised.log, |s.log|, j) == c.workloads;
    RestoredStable(raised.log, s'.log, |s.log|, j);
  }

  lemma HandlerPowersNothingOn(s: DrState, s': DrState)
    requires HandlerRan(s, s')
    ensures forall i | |s.log| <= i < |s'.log| :: !s'.log[i].step.PowerOn?
  {
  }

  lemma RestoresStep(c: Config, k: nat)
    requires k < |PromoteScript(c)|
    ensures var n := PromoteRestores(c, k);
            if PromoteStep(c, k).Restore? then
              n < |c.workloads| && PromoteStep(c, k).vm == c.workloads[n] && PromoteRestores(c, k + 1) == n + 1
            else PromoteRestores(c, k + 1) == n
  {
  }

  /** What a promotion has restored is read off the log of its steps. */
  lemma {:induction false} RestoredFollowsScript(c: Config, log: Log, from: nat, to: nat)
    requires Ran(PromoteScript(c), log, from, to)
    ensures Restored(log, from, to) == c.workloads[..PromoteRestores(c, to - from)]
  {
    if from < to {
      var k, ws := to - 1 - from, c.workloads;
      var n := PromoteRestores(c, k);
      RestoredFollowsScript(c, log, from, to - 1);
      RestoresStep(c, k);
      assert log[to - 1].step == PromoteStep(c, k);
      if n < |ws| {
        assert ws[..n + 1] == ws[..n] + [ws[n]];
      }
    }
  }

  /** Workloads whose power-off was attempted in events `from..to`. */
  ghost function PoweredOff(log: Log, from: nat, to: nat): seq<string>
    requires from <= to <= |log|
  {
    if from == to then []
    else PoweredOff(log, from, to - 1) + if log[to - 1].step.PowerOff? then [log[to - 1].step.vm] else []
  }

  /** The last `m` workloads, last one first. */
  ghost function Backwards(ws: seq<string>, m: nat): seq<string>
    requires m <= |ws|
  {
    if m == 0 then [] else Backwards(ws, m - 1) + [ws[|ws| - m]]
  }

  lemma {:induction false} RollbackPowersOff(ws: seq<string>, log: Log, from: nat, to: nat)
    requires Ran(RollbackScript(ws), log, from, to)
    ensures PoweredOff(log, from, to) ==
            Backwards(ws, if to - from <= 1 then 0 else if to - from <= |ws| then to - from - 1 else |ws|)
  {
    if from < to {
      RollbackPowersOff(ws, log, from, to - 1);
      assert log[to - 1].step == RollbackScript(ws)[to - 1 - from];
    }
  }

  /**
    A promotion that raises at or before fencing touched nothing. One that raises later leaves
    exactly one new run; that run is closed as failed, and every restored workload was powered off in
    reverse order after the DR route withdrawal was requested, if and only if the withdrawal
    request itself came back.
   */
  lemma FailedPromotion(c: Config, confirmed: bool, automatic: bool, s: DrState, s': DrState)
    requires PromoteEffect(c, true, confirmed, automatic, s, s', Threw)
    ensures s'.runs == s.runs ==> forall i | |s.log| <= i < |s'.log| :: !TouchesRouteOrVm(s'.log[i].step)
    ensures s'.runs != s.runs ==>
      exists body: nat :: |s.log| < body < |s'.log| && RollbackAccount(s, s', body)
  {
    if s'.runs == s.runs {
    } else {
      var raised :| RolledBack(c, s, raised, s');
      AccountOfRollback(c, s, raised, s');
    }
  }

  ghost predicate RollbackAccount(s: DrState, s': DrState, body: nat)
    requires |s.log| < body < |s'.log|
  {
    var ws, to := Restored(s'.log, |s.log|, body), |s'.log|;
    && s'.log[body].step == Deactivate(Dr, true)
    && |s'.runs| == |s.runs| + 1 && s.runs <= s'.runs
    && s'.runs[|s.runs|].workloads == ws
    && (s'.log[body].outcome != Raised ==>
          && s'.runs[|s.runs|].status == Failed
          && PoweredOff(s'.log, body, to) == Backwards(ws, |ws|))
    && (s'.log[body].outcome == Raised ==> s'.runs[|s.runs|].status == Running && PoweredOff(s'.log, body, to) == [])
  }

  /** The new run row of a rolled-back promotion, and the rows before it. */
  lemma RunRowOfRollback(c: Config, s: DrState, raised: DrState, s': DrState)
    requires RolledBack(c, s, raised, s')
    ensures |s'.runs| == |s.runs| + 1 && s.runs <= s'.runs
    ensures s'.runs[|s.runs|].workloads == Restored(s'.log, |s.log|, |raised.log|)
    ensures s'.runs[|s.runs|].workloads == raised.runs[|s.runs|].workloads
  {
    var from, body := |s.log|, |raised.log|;
    RestoredFollowsScript(c, raised.log, from, body - 1);
    RestoredStable(raised.log, s'.log, from, body);
    forall i | 0 <= i < |s.runs| ensures s'.runs[i] == s.runs[i] {
      assert raised.runs[..|s.runs|][i] == s.runs[i];
    }
  }

  lemma AccountOfRollback(c: Config, s: DrState, raised: DrState, s': DrState)
    requires RolledBack(c, s, raised, s')
    ensures |s.log| < |raised.log| < |s'.log| && RollbackAccount(s, s', |raised.log|)
  {
    RunRowOfRollback(c, s, raised, s');
    HandlerAccount(raised, s');
  }

  lemma HandlerAccount(s: DrState, s': DrState)
    requires HandlerRan(s, s')
    ensures var ws, from, to := s.runs[|s.runs| - 1].workloads, |s.log|, |s'.log|;
            && from < to && s'.log[from].step == Deactivate(Dr, true)
            && (s'.log[from].outcome != Raised ==>
                  && s'.runs[|s.runs| - 1].status == Failed
                  && PoweredOff(s'.log, from, to) == Backwards(ws, |ws|))
            && (s'.log[from].outcome == Raised ==>
                  s'.runs[|s.runs| - 1] == s.runs[|s.runs| - 1] && PoweredOff(s'.log, from, to) == [])
  {
    var ws, from, to := s.runs[|s.runs| - 1].workloads, |s.log|, |s'.log|;
    if RanAll(RollbackScript(ws), s'.log, from, to) {
      RollbackPowersOff(ws, s'.log, from, to);
      assert s'.log[from].step == RollbackScript(ws)[0];
    }
  }

  /** The log of a promotion up to a failing preparation of the DR site, right after its run was opened. */
  function PreparationRaised(c: Config): Log {
    seq(|Gate(c)| + 2, k requires 0 <= k < |Gate(c)| + 2 =>
      Event(PromoteStep(c, k), if k == |Gate(c)| + 1 then Raised else Done))
  }

  lemma PreparationStops(c: Config, log: Log)
    requires PreparationRaised(c) <= log
    ensures Stopped(PromoteScript(c), log, 0, |Gate(c)| + 2)
    ensures forall i | 0 <= i < |Gate(c)| + 2 && log[i].step == FenceRecorded :: log[i].outcome == Done
  {
    assert PromoteStep(c, |Gate(c)| + 1) == Prepare(Dr);
  }

  lemma OpenRunIsRolledBack(c: Config, s: DrState, raised: DrState, s': DrState)
    requires s == DrState(0, [], None, [], [])
    requires raised == DrState(1, [Run(0, FailoverRun, Running, [])], None, PreparationRaised(c), [])
    requires s' == raised.(log := raised.log + [Event(Deactivate(Dr, true), Raised)])
    ensures RolledBack(c, s, raised, s')
  {
    PreparationStops(c, raised.log);
    assert c.workloads[..0] == [];
  }

  /**
    In every configuration there is a promotion whose first step after fencing raises, and whose route
    withdrawal then raises too, and it leaves its run marked as running: the handler's guarantee needs
    the withdrawal to return.
   */
  lemma WithdrawalThatRaisesLeavesRunOpen(c: Config)
    ensures exists s, s' ::
              && PromoteEffect(c, true, true, false, s, s', Threw)
              && s.runs == [] && |s'.runs| == 1 && s'.runs[0].status == Running
  {
    var s := DrState(0, [], None, [], []);
    var raised := DrState(1, [Run(0, FailoverRun, Running, [])], None, PreparationRaised(c), []);
    var s' := raised.(log := raised.log + [Event(Deactivate(Dr, true), Raised)]);
    OpenRunIsRolledBack(c, s, raised, s');
    PreparationStops(c, s'.log);
    assert FencedAs(s'.log, 0, true);
    assert PromoteEffect(c, true, true, false, s, s', Threw);
  }
}
