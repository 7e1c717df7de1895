/**
  In what order a promotion and a demotion do things, rolled back or not, said of their log entries
  alone.
 */
module PromotionOrder {
  import opened Common
  import opened Failover
  import opened FailoverOrder

  /** The step was taken and did not raise, though it may have failed where that is tolerated. */
  ghost predicate GotPast(log: Log, from: nat, i: nat, step: Step)
    requires i <= |log|
  {
    exists j :: from <= j < i && log[j].step == step && log[j].outcome != Raised
  }

  /** The fence has been asked for as configured, and verified where that is configured. */
  ghost predicate FencePassed(c: Config, log: Log, from: nat, i: nat)
    requires i <= |log|
  {
    && Earlier(log, from, i, Preflight)
    && (c.fence.Command? ==>
          Earlier(log, from, i, FenceCommand) && (c.fence.verify ==> Earlier(log, from, i, FenceVerify)))
  }

  /** What must have come before entry `i` of a promotion that started at entry `from`, or of its handler. */
  ghost predicate PromotionLaw(c: Config, log: Log, from: nat, i: nat)
    requires from <= i < |log|
  {
    match log[i].step
    case Plan => i == from
    case Preflight => Earlier(log, from, i, Plan)
    case FenceCommand => c.fence.Command? && Earlier(log, from, i, Preflight)
    case FenceVerify => c.fence.Command? && c.fence.verify && Earlier(log, from, i, FenceCommand)
    case FenceRecorded => FencePassed(c, log, from, i)
    case OpenRun(direction) => direction == FailoverRun && Earlier(log, from, i, FenceRecorded)
    case Prepare(site) => site == Dr && Earlier(log, from, i, OpenRun(FailoverRun))
    case Deactivate(site, tolerant) =>
      && tolerant
      && (site == Primary ==> Earlier(log, from, i, Prepare(Dr)))
      && (site == Dr ==> RaisedBefore(log, from, i) && Earlier(log, from, i, OpenRun(FailoverRun)))
    case Restore(v, site) =>
      && site == Dr && GotPast(log, from, i, Deactivate(Primary, true))
      && RestoreInTurn(log, from, i, c.workloads, v, Dr)
    case Activate(site) =>
      && site == Dr && GotPast(log, from, i, Deactivate(Primary, true))
      && forall v | v in c.workloads :: Earlier(log, from, i, Restore(v, Dr))
    case PowerOn(v, site) =>
      site == Dr && Earlier(log, from, i, Activate(Dr)) && BootInTurn(log, from, i, c.workloads, v, Dr)
    case HealthCheck(v, site) =>
      site == Dr && v in c.workloads && i > from && log[i - 1] == Event(PowerOn(v, Dr), Done)
    case PowerOff(v, site, tolerant) =>
      && site == Dr && tolerant && Earlier(log, from, i, Restore(v, Dr)) && GotPast(log, from, i, Deactivate(Dr, true))
    case CloseRun(success) =>
      if success then
        && Earlier(log, from, i, Activate(Dr))
        && forall v | v in c.workloads :: Earlier(log, from, i, HealthCheck(v, Dr))
      else
        && GotPast(log, from, i, Deactivate(Dr, true))
        && forall v | Earlier(log, from, i, Restore(v, Dr)) :: GotPast(log, from, i, PowerOff(v, Dr, true))
    case _ => false
  }

  /** After a raise, only the handler's steps come. */
  ghost predicate HandlerAlone(log: Log, from: nat, i: nat)
    requires from <= i < |log|
  {
    RaisedBefore(log, from, i) ==>
      log[i].step == Deactivate(Dr, true) || log[i].step.PowerOff? || log[i].step == CloseRun(false)
  }

  /** All that a promotion logged obeys the law; it returned exactly if it closed its run as successful. */
  ghost predicate PromotionOrdered(c: Config, log: Log, from: nat, returned: bool) {
    && from < |log|
    && (forall i | from <= i < |log| :: PromotionLaw(c, log, from, i) && HandlerAlone(log, from, i))
    && (returned <==> log[|log| - 1] == Event(CloseRun(true), Done))
  }

  // ---------------------------------------------------------------- the try block

  lemma PromotePassed(c: Config, log: Log, from: nat, i: nat, k: nat)
    requires Ran(PromoteScript(c), log, from, i) && from + k < i
    ensures k < |PromoteScript(c)| && log[from + k].step == PromoteStep(c, k) && log[from + k].outcome != Raised
    ensures k != |Gate(c)| + 2 ==> log[from + k].outcome == Done
  {
  }

  ghost predicate PromoteNext(c: Config, log: Log, from: nat, i: nat) {
    && Ran(PromoteScript(c), log, from, i) && i < |log| && i - from < |PromoteScript(c)|
    && log[i].step == PromoteStep(c, i - from)
  }

  lemma GateObeys(c: Config, log: Log, from: nat, i: nat)
    requires PromoteNext(c, log, from, i) && i - from < |Gate(c)|
    ensures PromotionLaw(c, log, from, i)
  {
    var k := i - from;
    if k > 0 { PromotePassed(c, log, from, i, 0); }
    if k > 1 { PromotePassed(c, log, from, i, 1); }
    if k > 2 { PromotePassed(c, log, from, i, 2); }
    if k > 3 { PromotePassed(c, log, from, i, 3); }
  }

  /** What has returned once the script has got to entry `i`. */
  lemma PromoteSoFar(c: Config, log: Log, from: nat, i: nat)
    requires Ran(PromoteScript(c), log, from, i)
    ensures var k, g, n := i - from, |Gate(c)|, |c.workloads|;
            && (k >= g ==> Earlier(log, from, i, FenceRecorded))
            && (k > g ==> Earlier(log, from, i, OpenRun(FailoverRun)))
            && (k > g + 1 ==> Earlier(log, from, i, Prepare(Dr)))
            && (k > g + 2 ==> GotPast(log, from, i, Deactivate(Primary, true)))
            && (forall j | 0 <= j < n && g + 3 + j < k :: Earlier(log, from, i, Restore(c.workloads[j], Dr)))
  {
    var k, g, n := i - from, |Gate(c)|, |c.workloads|;
    if k >= g { PromotePassed(c, log, from, i, g - 1); }
    if k > g { PromotePassed(c, log, from, i, g); }
    if k > g + 1 { PromotePassed(c, log, from, i, g + 1); }
    if k > g + 2 { PromotePassed(c, log, from, i, g + 2); }
    forall j | 0 <= j < n && g + 3 + j < k ensures Earlier(log, from, i, Restore(c.workloads[j], Dr)) {
      PromotePassed(c, log, from, i, g + 3 + j);
    }
  }

  lemma PromoteSinceActivation(c: Config, log: Log, from: nat, i: nat)
    requires Ran(PromoteScript(c), log, from, i)
    ensures var k, g, n := i - from, |Gate(c)|, |c.workloads|;
            && (k > g + 3 + n ==> Earlier(log, from, i, Activate(Dr)))
            && (forall j | 0 <= j < n && g + 5 + n + 2 * j < k ::
                  Earlier(log, from, i, HealthCheck(c.workloads[j], Dr)))
  {
    var k, g, n := i - from, |Gate(c)|, |c.workloads|;
    if k > g + 3 + n { PromotePassed(c, log, from, i, g + 3 + n); }
    forall j | 0 <= j < n && g + 5 + n + 2 * j < k ensures Earlier(log, from, i, HealthCheck(c.workloads[j], Dr)) {
      PromotePassed(c, log, from, i, g + 5 + n + 2 * j);
    }
  }

  lemma RestoringObeys(c: Config, log: Log, from: nat, i: nat)
    requires PromoteNext(c, log, from, i) && |Gate(c)| <= i - from <= |Gate(c)| + 3 + |c.workloads|
    ensures PromotionLaw(c, log, from, i)
  {
    PromoteSoFar(c, log, from, i);
    var j := i - from - |Gate(c)| - 3;
    if 0 <= j < |c.workloads| {
      assert log[i].step == Restore(c.workloads[j], Dr);
      assert RestoreInTurn(log, from, i, c.workloads, c.workloads[j], Dr);
    }
  }

  lemma PoweringOnObeys(c: Config, log: Log, from: nat, i: nat, j: nat)
    requires PromoteNext(c, log, from, i) && j < |c.workloads| && i - from == |Gate(c)| + 4 + |c.workloads| + 2 * j
    ensures PromotionLaw(c, log, from, i)
  {
    PromoteSinceActivation(c, log, from, i);
    assert log[i].step == PowerOn(c.workloads[j], Dr);
    assert BootInTurn(log, from, i, c.workloads, c.workloads[j], Dr);
  }

  lemma CheckingObeys(c: Config, log: Log, from: nat, i: nat, j: nat)
    requires PromoteNext(c, log, from, i) && j < |c.workloads| && i - from == |Gate(c)| + 5 + |c.workloads| + 2 * j
    ensures PromotionLaw(c, log, from, i)
  {
    PromotePassed(c, log, from, i, i - from - 1);
    assert log[i].step == HealthCheck(c.workloads[j], Dr);
    assert log[i - 1].step == PowerOn(c.workloads[j], Dr);
  }

  lemma ClosingObeys(c: Config, log: Log, from: nat, i: nat)
    requires PromoteNext(c, log, from, i) && i - from == |Gate(c)| + 4 + 3 * |c.workloads|
    ensures PromotionLaw(c, log, from, i)
  {
    PromoteSinceActivation(c, log, from, i);
  }

  lemma PromoteStepObeys(c: Config, log: Log, from: nat, i: nat)
    requires PromoteNext(c, log, from, i)
    ensures PromotionLaw(c, log, from, i)
  {
    var k, g, n := i - from, |Gate(c)|, |c.workloads|;
    if k < g {
      GateObeys(c, log, from, i);
    } else if k <= g + 3 + n {
      RestoringObeys(c, log, from, i);
    } else if k == g + 4 + 3 * n {
      ClosingObeys(c, log, from, i);
    } else {
      var b := k - g - 4 - n;
      if b % 2 == 0 {
        PoweringOnObeys(c, log, from, i, b / 2);
      } else {
        CheckingObeys(c, log, from, i, b / 2);
      }
    }
  }

  /** After the gate, nothing records a fence. */
  lemma FencesOnlyInGate(c: Config, log: Log, from: nat)
    requires Ran(PromoteScript(c), log, from, |log|) || Stopped(PromoteScript(c), log, from, |log|)
    ensures forall i | from + |Gate(c)| <= i < |log| :: log[i].step != FenceRecorded
  {
    forall i | from + |Gate(c)| <= i < |log| ensures log[i].step != FenceRecorded {
      assert log[i].step == PromoteStep(c, i - from);
    }
  }

  lemma HandlerFencesNothing(s: DrState, s': DrState)
    requires HandlerRan(s, s')
    ensures forall i | |s.log| <= i < |s'.log| :: s'.log[i].step != FenceRecorded
  {
  }

  // ---------------------------------------------------------------- the handler

  /**
    Entries `from..body` follow the script up to one that raised, past the opening of the run;
    `restored` are the workloads whose restores returned.
   */
  ghost predicate RaisedAt(c: Config, log: Log, from: nat, body: nat, restored: seq<string>) {
    && from + |Gate(c)| + 1 < body <= |log|
    && Stopped(PromoteScript(c), log, from, body)
    && restored == c.workloads[..PromoteRestores(c, body - from - 1)]
  }

  lemma RestoredBefore(c: Config, log: Log, from: nat, body: nat, restored: seq<string>, v: string)
    requires RaisedAt(c, log, from, body, restored)
    ensures v in restored <==> Earlier(log, from, body, Restore(v, Dr))
  {
    if v in restored {
      var n :| 0 <= n < |restored| && restored[n] == v;
      PromotePassed(c, log, from, body - 1, |Gate(c)| + 3 + n);
      assert log[from + |Gate(c)| + 3 + n] == Event(Restore(v, Dr), Done);
    }
    if Earlier(log, from, body, Restore(v, Dr)) {
      var j :| from <= j < body && log[j] == Event(Restore(v, Dr), Done);
      assert j < body - 1;
      PromotePassed(c, log, from, body - 1, j - from);
      var n := j - from - |Gate(c)| - 3;
      assert 0 <= n < |c.workloads| && v == c.workloads[n];
      assert n < PromoteRestores(c, body - from - 1) && restored[n] == v;
    }
  }

  lemma OpenedBefore(c: Config, log: Log, from: nat, body: nat, restored: seq<string>)
    requires RaisedAt(c, log, from, body, restored)
    ensures Earlier(log, from, body, OpenRun(FailoverRun)) && RaisedBefore(log, from, body)
  {
    PromotePassed(c, log, from, body - 1, |Gate(c)|);
    assert log[body - 1].outcome == Raised;
  }

  lemma EarlierStays(log: Log, from: nat, body: nat, i: nat, step: Step)
    requires body <= i <= |log| && Earlier(log, from, body, step)
    ensures Earlier(log, from, i, step)
  {
  }

  lemma WithdrawingObeys(c: Config, log: Log, from: nat, body: nat, restored: seq<string>)
    requires RaisedAt(c, log, from, body, restored) && body < |log| && log[body].step == Deactivate(Dr, true)
    ensures PromotionLaw(c, log, from, body) && HandlerAlone(log, from, body)
  {
    OpenedBefore(c, log, from, body, restored);
  }

  lemma PoweringOffObeys(c: Config, log: Log, from: nat, body: nat, restored: seq<string>, i: nat)
    requires RaisedAt(c, log, from, body, restored) && RanAll(RollbackScript(restored), log, body, |log|)
    requires body < i < |log| - 1
    ensures PromotionLaw(c, log, from, i) && HandlerAlone(log, from, i)
  {
    var v := restored[|restored| - (i - body)];
    assert log[i].step == RollbackScript(restored)[i - body] == PowerOff(v, Dr, true);
    RestoredBefore(c, log, from, body, restored, v);
    EarlierStays(log, from, body, i, Restore(v, Dr));
    assert log[body].step == RollbackScript(restored)[0] && log[body].outcome != Raised;
  }

  lemma HandlerRestoresNothing(log: Log, body: nat, restored: seq<string>)
    requires Ran(RollbackScript(restored), log, body, |log|)
    ensures forall j | body <= j < |log| :: !log[j].step.Restore?
  {
  }

  /** What the log lists as restored by the end of the handler was restored before it. */
  lemma RestoresAreBefore(c: Config, log: Log, from: nat, body: nat, restored: seq<string>, v: string)
    requires RaisedAt(c, log, from, body, restored) && RanAll(RollbackScript(restored), log, body, |log|)
    requires Earlier(log, from, |log| - 1, Restore(v, Dr))
    ensures v in restored
  {
    var j :| from <= j < |log| - 1 && log[j] == Event(Restore(v, Dr), Done);
    HandlerRestoresNothing(log, body, restored);
    RestoredBefore(c, log, from, body, restored, v);
  }

  lemma ClosingAsFailedObeys(c: Config, log: Log, from: nat, body: nat, restored: seq<string>)
    requires RaisedAt(c, log, from, body, restored) && RanAll(RollbackScript(restored), log, body, |log|)
    ensures PromotionLaw(c, log, from, |log| - 1) && HandlerAlone(log, from, |log| - 1)
  {
    var i := |log| - 1;
    assert log[i].step == RollbackScript(restored)[|restored| + 1] == CloseRun(false);
    assert log[body].step == RollbackScript(restored)[0] && log[body].outcome != Raised;
    forall v | Earlier(log, from, i, Restore(v, Dr)) ensures GotPast(log, from, i, PowerOff(v, Dr, true)) {
      RestoresAreBefore(c, log, from, body, restored, v);
      var n :| 0 <= n < |restored| && restored[n] == v;
      assert log[body + |restored| - n].step == RollbackScript(restored)[|restored| - n];
    }
  }

  // ---------------------------------------------------------------- a whole promotion

  lemma TryEntryObeys(c: Config, log: Log, from: nat, to: nat, i: nat)
    requires from <= i < to <= |log|
    requires Ran(PromoteScript(c), log, from, to) || Stopped(PromoteScript(c), log, from, to)
    ensures PromotionLaw(c, log, from, i) && HandlerAlone(log, from, i)
    ensures log[i].step != CloseRun(false)
  {
    RanPrefix(PromoteScript(c), log, from, to, i);
    PromoteStepObeys(c, log, from, i);
  }

  lemma RolledBackObeysOrder(c: Config, log: Log, from: nat, body: nat, restored: seq<string>)
    requires RaisedAt(c, log, from, body, restored) && body < |log|
    requires || RanAll(RollbackScript(restored), log, body, |log|)
             || (|log| == body + 1 && log[body] == Event(Deactivate(Dr, true), Raised))
    ensures PromotionOrdered(c, log, from, false)
  {
    forall i | from <= i < |log| ensures PromotionLaw(c, log, from, i) && HandlerAlone(log, from, i) {
      if i < body {
        TryEntryObeys(c, log, from, body, i);
      } else if i == body {
        assert RanAll(RollbackScript(restored), log, body, |log|) ==> log[body].step == RollbackScript(restored)[0];
        WithdrawingObeys(c, log, from, body, restored);
      } else if i < |log| - 1 {
        PoweringOffObeys(c, log, from, body, restored, i);
      } else {
        ClosingAsFailedObeys(c, log, from, body, restored);
      }
    }
    if |log| > body + 1 {
      assert log[|log| - 1].step == RollbackScript(restored)[|restored| + 1];
    }
  }

  lemma GateIsScript(c: Config, log: Log, from: nat, to: nat)
    requires Stopped(Gate(c), log, from, to)
    ensures Stopped(PromoteScript(c), log, from, to)
  {
    forall k | 0 <= k < to - from ensures PromoteScript(c)[k] == Gate(c)[k] {
    }
  }

  lemma TryObeysOrder(c: Config, log: Log, from: nat, returned: bool)
    requires from < |log|
    requires if returned then RanAll(PromoteScript(c), log, from, |log|)
             else Stopped(PromoteScript(c), log, from, |log|)
    ensures PromotionOrdered(c, log, from, returned)
  {
    forall i | from <= i < |log| ensures PromotionLaw(c, log, from, i) && HandlerAlone(log, from, i) {
      TryEntryObeys(c, log, from, |log|, i);
    }
    if returned {
      PromotePassed(c, log, from, |log|, |PromoteScript(c)| - 1);
    }
  }

  lemma StoppedStays(script: seq<Step>, log: Log, log': Log, from: nat, to: nat)
    requires Stopped(script, log, from, to) && log <= log'
    ensures Stopped(script, log', from, to)
  {
  }

  /** Whatever raises, and wherever, a promotion that was not refused at once obeys its order. */
  lemma PromotionObeysOrder(
    c: Config, confirmed: bool, automatic: bool, s: DrState, s': DrState, r: CallResult)
    requires !AlreadyFailedOver(s.runs) && PromoteEffect(c, true, confirmed, automatic, s, s', r)
    ensures PromotionOrdered(c, s'.log, |s.log|, r == Returned)
  {
    var from := |s.log|;
    if r == Returned {
      TryObeysOrder(c, s'.log, from, true);
    } else if Stopped(Gate(c), s'.log, from, |s'.log|) && s'.runs == s.runs {
      GateIsScript(c, s'.log, from, |s'.log|);
      TryObeysOrder(c, s'.log, from, false);
    } else {
      var raised :| RolledBack(c, s, raised, s');
      RollbackObeys(c, s, raised, s');
    }
  }

  lemma RollbackObeys(c: Config, s: DrState, raised: DrState, s': DrState)
    requires RolledBack(c, s, raised, s')
    ensures PromotionOrdered(c, s'.log, |s.log|, false)
  {
    var restored := raised.runs[|raised.runs| - 1].workloads;
    StoppedStays(PromoteScript(c), raised.log, s'.log, |s.log|, |raised.log|);
    RolledBackObeysOrder(c, s'.log, |s.log|, |raised.log|, restored);
  }

  /** The DR route is activated at entry `a`, after all restores; each workload is then booted. */
  ghost predicate TookOver(c: Config, log: Log, from: nat, a: nat) {
    && from <= a < |log| && log[a] == Event(Activate(Dr), Done)
    && (forall v | v in c.workloads :: Earlier(log, from, a, Restore(v, Dr)))
    && BootedAfter(c.workloads, Dr, log, from, a)
  }

  ghost predicate TookAllOver(c: Config, log: Log, from: nat) {
    exists a: nat :: TookOver(c, log, from, a)
  }

  lemma BootedInTurn(c: Config, log: Log, from: nat, a: nat, v: string)
    requires RanAll(PromoteScript(c), log, from, |log|) && a == from + |Gate(c)| + 3 + |c.workloads|
    requires v in c.workloads
    ensures exists p :: BootedAt(log, a, p, v, Dr)
  {
    var j :| 0 <= j < |c.workloads| && c.workloads[j] == v;
    var p := a + 1 + 2 * j;
    PromotePassed(c, log, from, |log|, p - from);
    PromotePassed(c, log, from, |log|, p + 1 - from);
    assert BootedAt(log, a, p, v, Dr);
  }

  lemma BootsAfterActivation(c: Config, log: Log, from: nat, a: nat)
    requires RanAll(PromoteScript(c), log, from, |log|) && a == from + |Gate(c)| + 3 + |c.workloads|
    ensures BootedAfter(c.workloads, Dr, log, from, a)
  {
    forall v | v in c.workloads ensures exists p :: BootedAt(log, a, p, v, Dr) {
      BootedInTurn(c, log, from, a, v);
    }
    forall i | from <= i < a ensures !log[i].step.PowerOn? {
      PromotePassed(c, log, from, |log|, i - from);
    }
  }

  lemma RestoresBeforeActivation(c: Config, log: Log, from: nat, a: nat)
    requires RanAll(PromoteScript(c), log, from, |log|) && a == from + |Gate(c)| + 3 + |c.workloads|
    ensures a < |log| && log[a] == Event(Activate(Dr), Done)
    ensures forall v | v in c.workloads :: Earlier(log, from, a, Restore(v, Dr))
  {
    PromotePassed(c, log, from, |log|, a - from);
    assert Ran(PromoteScript(c), log, from, a);
    PromoteSoFar(c, log, from, a);
  }

  lemma ScriptTakesAllOver(c: Config, log: Log, from: nat)
    requires RanAll(PromoteScript(c), log, from, |log|)
    ensures TookAllOver(c, log, from)
  {
    var a := from + |Gate(c)| + 3 + |c.workloads|;
    RestoresBeforeActivation(c, log, from, a);
    BootsAfterActivation(c, log, from, a);
    assert TookOver(c, log, from, a);
  }

  /**
    A promotion that returned has restored every workload before it activated the DR route, and only
    then powered each on and found it healthy.
   */
  lemma ReturnedPromotionTookOver(c: Config, confirmed: bool, automatic: bool, s: DrState, s': DrState)
    requires !AlreadyFailedOver(s.runs) && PromoteEffect(c, true, confirmed, automatic, s, s', Returned)
    ensures TookAllOver(c, s'.log, |s.log|)
  {
    ScriptTakesAllOver(c, s'.log, |s.log|);
  }

  // ---------------------------------------------------------------- demotion

  /** What must have come before entry `i` of a demotion of `recorded`: strict withdrawal, then strict power-offs. */
  ghost predicate DemotionLaw(c: Config, recorded: seq<string>, log: Log, from: nat, i: nat)
    requires from <= i < |log|
  {
    match log[i].step
    case Deactivate(site, tolerant) => site == Dr && !tolerant && i == from
    case PowerOff(w, site, tolerant) =>
      && site == Dr && !tolerant && w in recorded && w in c.workloads
      && Earlier(log, from, i, Deactivate(Dr, false))
    case _ => false
  }

  /** ... a raise ends it, and if it returned, every recorded workload still configured is off. */
  ghost predicate DemotionOrdered(c: Config, recorded: seq<string>, log: Log, from: nat, returned: bool) {
    && from < |log|
    && (forall i | from <= i < |log| ::
          DemotionLaw(c, recorded, log, from, i) && (log[i].outcome == Done || (i + 1 == |log| && !returned)))
    && (returned ==> forall w | w in recorded && w in c.workloads :: Earlier(log, from, |log|, PowerOff(w, Dr, false)))
  }

  lemma {:induction false} KnownExactly(c: Config, ws: seq<string>, w: string)
    ensures w in Known(c, ws) <==> w in ws && w in c.workloads
  {
    if ws != [] {
      KnownExactly(c, ws[..|ws| - 1], w);
      assert ws == ws[..|ws| - 1] + [ws[|ws| - 1]];
    }
  }

  lemma DemotionEntryObeys(c: Config, recorded: seq<string>, log: Log, from: nat, to: nat, i: nat)
    requires from <= i < to <= |log|
    requires var script := DemoteScript(Known(c, recorded));
             Ran(script, log, from, to) || Stopped(script, log, from, to)
    ensures DemotionLaw(c, recorded, log, from, i)
    ensures log[i].outcome == Done || (i == to - 1 && log[i].outcome == Raised)
  {
    var known := Known(c, recorded);
    RanPrefix(DemoteScript(known), log, from, to, i);
    if i > from {
      RanPrefix(DemoteScript(known), log, from, to, from);
      KnownExactly(c, recorded, known[|known| - (i - from)]);
      assert log[from] == Event(Deactivate(Dr, false), Done);
    }
  }

  /** A demotion obeys its order. */
  lemma DemotionObeysOrder(c: Config, s: DrState, s': DrState, r: CallResult)
    requires Latest(s.runs, FailoverRun).Some? && DemoteEffect(c, true, s, s', r)
    ensures DemotionOrdered(c, Latest(s.runs, FailoverRun).value.workloads, s'.log, |s.log|, r == Returned)
  {
    var recorded, log, from := Latest(s.runs, FailoverRun).value.workloads, s'.log, |s.log|;
    var known := Known(c, recorded);
    forall i | from <= i < |log|
      ensures DemotionLaw(c, recorded, log, from, i) && (log[i].outcome == Done || (i + 1 == |log| && r != Returned))
    {
      DemotionEntryObeys(c, recorded, log, from, |log|, i);
    }
    if r == Returned {
      forall w | w in recorded && w in c.workloads ensures Earlier(log, from, |log|, PowerOff(w, Dr, false)) {
        KnownExactly(c, recorded, w);
        var n :| 0 <= n < |known| && known[n] == w;
        var j := from + |known| - n;
        assert log[j].step == DemoteScript(known)[|known| - n];
      }
    }
  }
}
