/**
  `DROrchestrator` with its state tables. Every external call may fail; every method is
  proved to have exactly the effect that module Failover states for it.
 */
module Orchestrator {
  import opened Common
  import opened Failover
  import opened FailoverOrder
  import opened PromotionOrder

  class DrOrchestrator {
    const c: Config
    var clock: nat
    var runs: seq<Run>
    var health: Option<HealthRow>
    ghost var log: Log
    ghost var evaluations: seq<Evaluation>

    ghost function View(): DrState
      reads this
    {
      DrState(clock, runs, health, log, evaluations)
    }

    constructor (c: Config)
      ensures this.c == c
      ensures View() == DrState(0, [], None, [], [])
    {
      this.c := c;
      clock, runs, health, log, evaluations := 0, [], None, [], [];
    }

    // -------------------------------------------------------------- the outside world

    /** A clock reading; readings strictly increase. */
    method Now() returns (t: nat)
      modifies this`clock
      ensures old(clock) <= t < clock
    {
      var pause: int := *;
      t := clock + if pause > 0 then pause else 0;
      clock := t + 1;
    }

    /** The script has run without a raise up to the end of the log, and `step` comes next. */
    ghost predicate Due(step: Step, script: seq<Step>, from: nat)
      reads this
    {
      && Ran(script, log, from, |log|)
      && |log| - from < |script| && script[|log| - from] == step
    }

    /** The call that followed `before` returned, or raised and so ended the script. */
    ghost predicate Advanced(before: Log, ok: bool, script: seq<Step>, from: nat)
      reads this
    {
      && before <= log && |before| <= |log| && from <= |before|
      && (ok ==> Ran(script, log, from, |log|))
      && (!ok ==> Stopped(script, log, from, |log|))
    }

    /** An external call whose failure is raised; database writes pass `mayFail` false. */
    method Try(step: Step, ghost script: seq<Step>, ghost from: nat, mayFail: bool := true) returns (ok: bool)
      requires Due(step, script, from)
      modifies this`log
      ensures log == old(log) + [Event(step, if ok then Done else Raised)]
      ensures Advanced(old(log), ok, script, from)
      ensures !mayFail ==> ok
    {
      var returned: bool := *;
      ok := returned || !mayFail;
      log := log + [Event(step, if ok then Done else Raised)];
    }

    /** An external call whose failure the call site tolerates, unless `mayRaise`. */
    method TryTolerant(step: Step, ghost script: seq<Step>, ghost from: nat, mayRaise: bool) returns (ok: bool)
      requires Due(step, script, from)
      requires (step.Deactivate? || step.PowerOff?) && step.tolerant
      modifies this`log
      ensures |log| == |old(log)| + 1 && log[|old(log)|].step == step
      ensures Advanced(old(log), ok, script, from)
      ensures !mayRaise ==> ok
    {
      var returned: bool, succeeded: bool := *, *;
      ok := returned || !mayRaise;
      var outcome := if !ok then Raised else if succeeded then Done else Tolerated;
      log := log + [Event(step, outcome)];
    }

    // -------------------------------------------------------------- run log

    method CreateRun(direction: Direction, ghost script: seq<Step>, ghost from: nat)
      requires Due(OpenRun(direction), script, from)
      modifies this`runs, this`clock, this`log
      ensures |log| == |old(log)| + 1 && Advanced(old(log), true, script, from)
      ensures old(runs) <= runs && |runs| == |old(runs)| + 1 && old(clock) < clock
      ensures runs[|old(runs)|] == Run(runs[|old(runs)|].startedAt, direction, Running, [])
      ensures old(clock) <= runs[|old(runs)|].startedAt < clock
    {
      var t := Now();
      runs := runs + [Run(t, direction, Running, [])];
      var _ := Try(OpenRun(direction), script, from, false);
    }

    /** Writes the final status into the newest run. */
    method SetStatus(success: bool)
      requires runs != []
      modifies this`runs
      ensures |runs| == |old(runs)| && forall i | 0 <= i < |runs| - 1 :: runs[i] == old(runs)[i]
      ensures runs[|runs| - 1] == old(runs)[|runs| - 1].(status := if success then Succeeded else Failed)
    {
      runs := runs[|runs| - 1 := runs[|runs| - 1].(status := if success then Succeeded else Failed)];
    }

    // -------------------------------------------------------------- staged loops

    method FencePrimary(confirmed: bool, automatic: bool, ghost from: nat) returns (ok: bool)
      requires |log| == from + 2 && Ran(Gate(c), log, from, |log|)
      modifies this`log
      ensures Advanced(old(log), ok, Gate(c), from)
      ensures ok ==> RanAll(Gate(c), log, from, |log|)
      ensures ok ==> c.fence.Command? || (confirmed && !automatic)
      ensures forall i | from <= i < |log| - 1 :: log[i].step != FenceRecorded
      ensures log[|log| - 1].step == FenceRecorded ==>
                (log[|log| - 1].outcome == Done <==> c.fence.Command? || (confirmed && !automatic))
    {
      if c.fence.Command? {
        ok := Try(FenceCommand, Gate(c), from);
        if !ok { return; }
        if c.fence.verify {
          ok := Try(FenceVerify, Gate(c), from);
          if !ok { return; }
        }
        ok := Try(FenceRecorded, Gate(c), from, false);
      } else {
        ok := !automatic && confirmed;
        log := log + [Event(FenceRecorded, if ok then Done else Raised)];
      }
    }

    /** Restores the workloads in boot order; `final` lists those with a point to restore. */
    method RestoreAll(site: Site, final: seq<string>, ghost script: seq<Step>, ghost from: nat) returns (ok: bool)
      requires Ran(script, log, from, |log|)
      requires |log| - from + |c.workloads| < |script|
      requires var at := |log| - from; forall k | at <= k < at + |c.workloads| ::
               script[k] == Restore(c.workloads[k - at], site)
      requires runs != [] && runs[|runs| - 1].workloads == []
      modifies this`log, this`runs
      ensures Advanced(old(log), ok, script, from)
      ensures |log| <= |old(log)| + |c.workloads|
      ensures ok ==> |log| == |old(log)| + |c.workloads|
      ensures |runs| == |old(runs)| && forall i | 0 <= i < |runs| - 1 :: runs[i] == old(runs)[i]
      ensures var restored := |log| - |old(log)| - if ok then 0 else 1;
              runs[|runs| - 1] == old(runs)[|runs| - 1].(workloads := c.workloads[..restored])
      ensures forall i | |old(log)| <= i < |log| :: SavedFirst(final, log[i])
    {
      var n, last := 0, |runs| - 1;
      while n < |c.workloads|
        invariant n <= |c.workloads| && |log| == |old(log)| + n && old(log) <= log
        invariant Ran(script, log, from, |log|)
        invariant |runs| == |old(runs)| && forall i | 0 <= i < last :: runs[i] == old(runs)[i]
        invariant runs[last] == old(runs)[last].(workloads := c.workloads[..n])
        invariant forall i | |old(log)| <= i < |log| :: SavedFirst(final, log[i])
      {
        assert c.workloads[..n + 1] == c.workloads[..n] + [c.workloads[n]];
        if c.workloads[n] !in final {
          log := log + [Event(Restore(c.workloads[n], site), Raised)];
          return false;
        }
        ok := Try(Restore(c.workloads[n], site), script, from);
        if !ok { return; }
        runs := runs[last := runs[last].(workloads := runs[last].workloads + [c.workloads[n]])];
        n := n + 1;
      }
      ok := true;
    }

    /** Powers one workload on and waits until it is healthy. */
    method BootOne(v: string, site: Site, ghost script: seq<Step>, ghost from: nat) returns (ok: bool)
      requires Due(PowerOn(v, site), script, from)
      requires |log| - from + 1 < |script| && script[|log| - from + 1] == HealthCheck(v, site)
      modifies this`log
      ensures Advanced(old(log), ok, script, from)
      ensures |log| <= |old(log)| + 2
      ensures ok ==> log == old(log) + [Event(PowerOn(v, site), Done), Event(HealthCheck(v, site), Done)]
    {
      ok := Try(PowerOn(v, site), script, from);
      if !ok { return; }
      ok := Try(HealthCheck(v, site), script, from);
    }

    method BootAll(site: Site, ghost script: seq<Step>, ghost from: nat) returns (ok: bool)
      requires Ran(script, log, from, |log|)
      requires |log| - from + 2 * |c.workloads| < |script|
      requires var at := |log| - from; forall k | at <= k < at + 2 * |c.workloads| ::
               script[k] == BootStep(c.workloads, site, k - at)
      modifies this`log
      ensures Advanced(old(log), ok, script, from)
      ensures |log| <= |old(log)| + 2 * |c.workloads|
      ensures ok ==> |log| == |old(log)| + 2 * |c.workloads|
      ensures ok ==> forall n | 0 <= n < |c.workloads| :: Boots(log, |old(log)| + 2 * n, c.workloads[n], site)
    {
      var n := 0;
      while n < |c.workloads|
        invariant n <= |c.workloads| && |log| == |old(log)| + 2 * n && old(log) <= log
        invariant Ran(script, log, from, |log|)
        invariant forall k | 0 <= k < n :: Boots(log, |old(log)| + 2 * k, c.workloads[k], site)
      {
        ok := BootOne(c.workloads[n], site, script, from);
        if !ok { return; }
        n := n + 1;
      }
      ok := true;
    }

    method PowerOffReversed(
      ws: seq<string>, tolerant: bool, ghost script: seq<Step>, ghost from: nat)
      returns (ok: bool)
      requires Ran(script, log, from, |log|)
      requires |log| - from + |ws| <= |script|
      requires var at := |log| - from; forall k | at <= k < at + |ws| ::
               script[k] == PowerOff(ws[at + |ws| - 1 - k], Dr, tolerant)
      modifies this`log
      ensures Advanced(old(log), ok, script, from)
      ensures tolerant ==> ok
      ensures |log| <= |old(log)| + |ws|
      ensures ok ==> |log| == |old(log)| + |ws|
    {
      var n := |ws|;
      while n > 0
        invariant 0 <= n <= |ws| && |log| == |old(log)| + |ws| - n && old(log) <= log
        invariant Ran(script, log, from, |log|)
      {
        if tolerant {
          ok := TryTolerant(PowerOff(ws[n - 1], Dr, true), script, from, false);
        } else {
          ok := Try(PowerOff(ws[n - 1], Dr, false), script, from);
        }
        if !ok { return; }
        n := n - 1;
      }
      ok := true;
    }

    method BackUpAll(ws: seq<string>, ghost script: seq<Step>, ghost from: nat) returns (ok: bool)
      requires Ran(script, log, from, |log|)
      requires |log| - from + |ws| < |script|
      requires var at := |log| - from; forall k | at <= k < at + |ws| :: script[k] == BackUp(ws[k - at])
      modifies this`log
      ensures Advanced(old(log), ok, script, from)
      ensures |log| <= |old(log)| + |ws|
      ensures ok ==> |log| == |old(log)| + |ws|
    {
      var n := 0;
      while n < |ws|
        invariant n <= |ws| && |log| == |old(log)| + n && old(log) <= log
        invariant Ran(script, log, from, |log|)
      {
        ok := Try(BackUp(ws[n]), script, from);
        if !ok { return; }
        n := n + 1;
      }
      ok := true;
    }

    // -------------------------------------------------------------- promotion

    /** The newest run is open in the given direction and lists what has been restored. */
    ghost predicate RunOpen(direction: Direction, before: seq<Run>, since: nat, restored: seq<string>)
      reads this
    {
      && before <= runs && |runs| == |before| + 1
      && since <= runs[|before|].startedAt < clock
      && runs[|before|] == Run(runs[|before|].startedAt, direction, Running, restored)
    }

    /** The try block of a promotion up to the restores. */
    method RestoreAtDr(ghost from: nat) returns (ok: bool)
      requires RanAll(Gate(c), log, from, |log|)
      modifies this`clock, this`runs, this`log
      ensures Advanced(old(log), ok, PromoteScript(c), from) && old(clock) < clock
      ensures |old(log)| + 1 < |log| && |log| <= |old(log)| + 3 + |c.workloads|
      ensures ok ==> |log| == |old(log)| + 3 + |c.workloads|
      ensures var passed := |log| - from - if ok then 0 else 1;
              RunOpen(FailoverRun, old(runs), old(clock), c.workloads[..PromoteRestores(c, passed)])
    {
      ghost var script := PromoteScript(c);
      CreateRun(FailoverRun, script, from);
      ok := Try(Prepare(Dr), script, from);
      if !ok { return; }
      ok := TryTolerant(Deactivate(Primary, true), script, from, true);
      if !ok { return; }
      ok := RestoreAll(Dr, c.workloads, script, from);
    }

    /** The try block of a promotion from the route activation on. */
    method CutOver(ghost from: nat) returns (ok: bool)
      requires Ran(PromoteScript(c), log, from, |log|)
      requires |log| == from + |Gate(c)| + 3 + |c.workloads|
      requires runs != []
      modifies this`runs, this`log
      ensures Advanced(old(log), ok, PromoteScript(c), from)
      ensures ok <==> |log| - from == |PromoteScript(c)|
      ensures |runs| == |old(runs)| && forall i | 0 <= i < |runs| - 1 :: runs[i] == old(runs)[i]
      ensures runs[|runs| - 1] == if ok then old(runs)[|runs| - 1].(status := Succeeded) else old(runs)[|runs| - 1]
    {
      ghost var script := PromoteScript(c);
      ok := Try(Activate(Dr), script, from);
      if !ok { return; }
      ok := BootAll(Dr, script, from);
      if !ok { return; }
      SetStatus(true);
      ok := Try(CloseRun(true), script, from, false);
    }

    /** The try block of a promotion. */
    method TakeOver(ghost from: nat) returns (ok: bool)
      requires RanAll(Gate(c), log, from, |log|)
      modifies this`clock, this`runs, this`log
      ensures Advanced(old(log), ok, PromoteScript(c), from) && old(clock) < clock
      ensures |old(log)| + 1 < |log| && (ok <==> |log| - from == |PromoteScript(c)|)
      ensures old(runs) <= runs && |runs| == |old(runs)| + 1
      ensures var run := runs[|old(runs)|];
              && old(clock) <= run.startedAt < clock
              && run == if ok then Run(run.startedAt, FailoverRun, Succeeded, c.workloads)
                        else
                          var restored := PromoteRestores(c, |log| - from - 1);
                          Run(run.startedAt, FailoverRun, Running, c.workloads[..restored])
    {
      ok := RestoreAtDr(from);
      if ok {
        ok := CutOver(from);
      }
    }

    /** Readiness, preflight and fencing; nothing else may happen before they have passed. */
    method PassGate(confirmed: bool, automatic: bool) returns (ok: bool)
      modifies this`log
      ensures Advanced(old(log), ok, Gate(c), |old(log)|)
      ensures ok ==> RanAll(Gate(c), log, |old(log)|, |log|) && (c.fence.Command? || (confirmed && !automatic))
      ensures FencedAs(log, |old(log)|, c.fence.Command? || (confirmed && !automatic))
    {
      ghost var from := |log|;
      ok := Try(Plan, Gate(c), from);
      if !ok { return; }
      ok := Try(Preflight, Gate(c), from);
      if !ok { return; }
      ok := FencePrimary(confirmed, automatic, from);
    }

    /** The exception handler of a promotion, for the newest run. */
    method RollBack()
      requires runs != []
      modifies this`runs, this`log
      ensures HandlerRan(old(View()), View())
    {
      ghost var body := |log|;
      var restored := runs[|runs| - 1].workloads;
      ghost var script := RollbackScript(restored);
      var ok := TryTolerant(Deactivate(Dr, true), script, body, true);
      if !ok { return; }
      ok := PowerOffReversed(restored, true, script, body);
      SetStatus(false);
      ok := Try(CloseRun(false), script, body, false);
    }

    /** A promotion that is carried out: the gate, the try block and the handler. */
    method CarryOut(confirmed: bool, automatic: bool) returns (r: CallResult)
      requires !AlreadyFailedOver(runs)
      modifies this`clock, this`runs, this`log
      ensures r in {Returned, Threw}
      ensures PromoteEffect(c, true, confirmed, automatic, old(View()), View(), r)
    {
      ghost var from := |log|;
      var ok := PassGate(confirmed, automatic);
      if !ok { return Threw; }
      ghost var gated := log;
      ok := TakeOver(from);
      FencesOnlyInGate(c, log, from);
      assert FencedAs(gated, from, c.fence.Command? || (confirmed && !automatic));
      assert FencedAs(log, from, c.fence.Command? || (confirmed && !automatic));
      if ok { return Returned; }
      ghost var raised := View();
      RollBack();
      HandlerFencesNothing(raised, View());
      assert RolledBack(c, old(View()), raised, View());
      r := Threw;
    }

    method Promote(execute: bool, confirmed: bool, automatic: bool) returns (r: CallResult)
      modifies this`clock, this`runs, this`log
      ensures PromoteEffect(c, execute, confirmed, automatic, old(View()), View(), r)
      ensures execute && !AlreadyFailedOver(old(runs)) ==>
                && r in {Returned, Threw} && PromotionOrdered(c, log, |old(log)|, r == Returned)
                && (r == Returned ==> TookAllOver(c, log, |old(log)|))
    {
      if !execute { return PlanOnly; }
      if AlreadyFailedOver(runs) { return AlreadyActive; }
      r := CarryOut(confirmed, automatic);
      PromotionObeysOrder(c, confirmed, automatic, old(View()), View(), r);
      if r == Returned {
        ReturnedPromotionTookOver(c, confirmed, automatic, old(View()), View());
      }
    }

    // -------------------------------------------------------------- failback

    /** The try block of a failback up to the restores; `active` are the workloads running at the DR site. */
    method RestoreAtPrimary(active: seq<string>, ghost from: nat) returns (ok: bool)
      requires from == |log|
      modifies this`clock, this`runs, this`log
      ensures Advanced(old(log), ok, FailbackScript(c, active), from) && old(clock) < clock
      ensures from + 1 < |log| && |log| <= from + 3 + |active| + |c.workloads|
      ensures ok ==> |log| == from + 3 + |active| + |c.workloads|
      ensures var passed := |log| - from - if ok then 0 else 1;
              RunOpen(FailbackRun, old(runs), old(clock), c.workloads[..FailbackRestores(c, active, passed)])
      ensures forall i | from <= i < |log| :: SavedFirst(active, log[i])
    {
      ghost var script := FailbackScript(c, active);
      CreateRun(FailbackRun, script, from);
      ok := Try(Prepare(Primary), script, from);
      if !ok { return; }
      ok := Try(Deactivate(Primary, false), script, from);
      if !ok { return; }
      ok := BackUpAll(active, script, from);
      if !ok { return; }
      ok := RestoreAll(Primary, active, script, from);
    }

    /** Takes the DR site out of service: its route first, then its workloads. */
    method Withdraw(active: seq<string>, ghost from: nat) returns (ok: bool)
      requires Ran(FailbackScript(c, active), log, from, |log|)
      requires |log| == from + 3 + |active| + |c.workloads|
      modifies this`log
      ensures Advanced(old(log), ok, FailbackScript(c, active), from)
      ensures |log| <= |old(log)| + 1 + |active| && (ok ==> |log| == |old(log)| + 1 + |active|)
    {
      ghost var script := FailbackScript(c, active);
      ok := Try(Deactivate(Dr, false), script, from);
      if !ok { return; }
      ok := PowerOffReversed(active, false, script, from);
    }

    /** The try block of a failback from the withdrawal of the DR site on. */
    method CutBack(active: seq<string>, ghost from: nat) returns (ok: bool)
      requires Ran(FailbackScript(c, active), log, from, |log|)
      requires |log| == from + 3 + |active| + |c.workloads|
      requires runs != []
      modifies this`runs, this`log
      ensures Advanced(old(log), ok, FailbackScript(c, active), from)
      ensures ok <==> |log| - from == |FailbackScript(c, active)|
      ensures |runs| == |old(runs)| && forall i | 0 <= i < |runs| - 1 :: runs[i] == old(runs)[i]
      ensures runs[|runs| - 1] == if ok then old(runs)[|runs| - 1].(status := Succeeded) else old(runs)[|runs| - 1]
    {
      ghost var script := FailbackScript(c, active);
      ok := Withdraw(active, from);
      if !ok { return; }
      ok := Try(Activate(Primary), script, from);
      if !ok { return; }
      ok := BootAll(Primary, script, from);
      if !ok { return; }
      SetStatus(true);
      ok := Try(CloseRun(true), script, from, false);
    }

    /** The try block of a failback. */
    method TakeBack(active: seq<string>, ghost from: nat) returns (ok: bool)
      requires from == |log|
      modifies this`clock, this`runs, this`log
      ensures Advanced(old(log), ok, FailbackScript(c, active), from) && old(clock) < clock
      ensures from + 1 < |log| && (ok <==> |log| - from == |FailbackScript(c, active)|)
      ensures old(runs) <= runs && |runs| == |old(runs)| + 1
      ensures var run := runs[|old(runs)|];
              && old(clock) <= run.startedAt < clock
              && run == if ok then Run(run.startedAt, FailbackRun, Succeeded, c.workloads)
                        else
                          var restored := FailbackRestores(c, active, |log| - from - 1);
                          Run(run.startedAt, FailbackRun, Running, c.workloads[..restored])
      ensures forall i | from <= i < |log| :: SavedFirst(active, log[i])
    {
      ok := RestoreAtPrimary(active, from);
      if ok {
        ghost var cut := |log|;
        ok := CutBack(active, from);
        NothingRestoredLater(c, active, log, from, cut);
      }
    }

    /** The exception handler of a failback: the newest run is closed as failed. */
    method CloseFailed()
      requires runs != []
      modifies this`runs, this`log
      ensures |runs| == |old(runs)| && forall i | 0 <= i < |runs| - 1 :: runs[i] == old(runs)[i]
      ensures runs[|runs| - 1] == old(runs)[|runs| - 1].(status := Failed)
      ensures log == old(log) + [Event(CloseRun(false), Done)]
    {
      SetStatus(false);
      log := log + [Event(CloseRun(false), Done)];
    }

    /** The try block and its exception handler. */
    method TakeBackOrClose(active: seq<string>) returns (ok: bool)
      modifies this`clock, this`runs, this`log
      ensures FailbackRan(c, active, old(View()), View(), ok)
    {
      ok := TakeBack(active, |log|);
      if !ok {
        CloseFailed();
      }
    }

    /** A failback that is carried out keeps its order, whatever raises. */
    method CarryBack(active: seq<string>) returns (ok: bool)
      modifies this`clock, this`runs, this`log
      ensures FailbackRan(c, active, old(View()), View(), ok)
      ensures FailbackOrdered(c, active, log, |old(log)|, ok)
    {
      ok := TakeBackOrClose(active);
      FailbackObeysOrder(c, active, old(View()), View(), ok);
    }

    method Failback(execute: bool, confirmed: bool) returns (r: CallResult)
      modifies this`clock, this`runs, this`log
      ensures FailbackEffect(c, execute, confirmed, old(View()), View(), r)
      ensures execute && confirmed && AlreadyFailedOver(old(runs)) ==>
                var active := Latest(old(runs), FailoverRun).value.workloads;
                && r in {Returned, Threw} && FailbackOrdered(c, active, log, |old(log)|, r == Returned)
                && (r == Returned ==> TookAllBack(c, active, log, |old(log)|))
    {
      if !AlreadyFailedOver(runs) { return NothingActive; }
      if !execute { return PlanOnly; }
      if !confirmed { return Threw; }
      var active := Latest(runs, FailoverRun).value.workloads;
      var ok := CarryBack(active);
      r := if ok then Returned else Threw;
      if ok {
        ReturnedFailbackTookBack(c, old(View()), View());
      }
    }

    // -------------------------------------------------------------- demotion and watching

    /** The recorded workloads that are still configured; the others are skipped. */
    method KnownWorkloads(ws: seq<string>) returns (known: seq<string>)
      ensures known == Known(c, ws)
    {
      known := [];
      var n := 0;
      while n < |ws|
        invariant n <= |ws| && known == Known(c, ws[..n])
      {
        assert ws[..n + 1][..n] == ws[..n];
        if ws[n] in c.workloads {
          known := known + [ws[n]];
        }
        n := n + 1;
      }
      assert ws[..n] == ws;
    }

    method DemoteDr(execute: bool) returns (r: CallResult)
      modifies this`log
      ensures DemoteEffect(c, execute, old(View()), View(), r)
      ensures var last := Latest(old(runs), FailoverRun);
              execute && last.Some? ==>
                r in {Returned, Threw} && DemotionOrdered(c, last.value.workloads, log, |old(log)|, r == Returned)
    {
      var last := Latest(runs, FailoverRun);
      if last.None? { return NothingActive; }
      if !execute { return PlanOnly; }
      r := Withdrawn(last.value.workloads);
      DemotionObeysOrder(c, old(View()), View(), r);
    }

    /** The withdrawal of a demotion. */
    method Withdrawn(recorded: seq<string>) returns (r: CallResult)
      modifies this`log
      ensures old(log) <= log && r in {Returned, Threw}
      ensures var script := DemoteScript(Known(c, recorded));
              if r == Returned then RanAll(script, log, |old(log)|, |log|) else Stopped(script, log, |old(log)|, |log|)
    {
      var known := KnownWorkloads(recorded);
      ghost var script, from := DemoteScript(known), |log|;
      var ok := Try(Deactivate(Dr, false), script, from);
      if !ok { return Threw; }
      ok := PowerOffReversed(known, false, script, from);
      r := if ok then Returned else Threw;
    }

    /** Runs the probes and counts the failures. */
    method Probe(probes: seq<bool>) returns (healthy: bool)
      ensures healthy == SiteHealthy(c, probes)
    {
      var failed, n := 0, 0;
      while n < |probes|
        invariant n <= |probes| && failed == CountFailed(probes[..n])
      {
        assert probes[..n + 1][..n] == probes[..n];
        if !probes[n] {
          failed := failed + 1;
        }
        n := n + 1;
      }
      assert probes[..n] == probes;
      var required := if c.quorum != 0 then c.quorum else if |probes| == 0 then 1 else |probes|;
      healthy := failed < required;
    }

    /** Stores one evaluation; the row is created on the first one. */
    method UpdateHealth(healthy: bool)
      modifies this`clock, this`health, this`evaluations
      ensures old(clock) < clock && health.Some?
      ensures old(clock) <= health.value.checkedAt < clock
      ensures health.value.consecutiveFailures ==
              if healthy then 0 else if old(health).Some? then old(health).value.consecutiveFailures + 1 else 1
      ensures evaluations == old(evaluations) + [Evaluation(health.value.checkedAt, healthy)]
    {
      var at := Now();
      var failures := if healthy then 0 else if health.Some? then health.value.consecutiveFailures + 1 else 1;
      health := Some(HealthRow(at, failures));
      evaluations := evaluations + [Evaluation(at, healthy)];
    }

    method Watch(maintenance: bool, probes: seq<bool>) returns (r: WatchResult)
      modifies this
      ensures WatchEffect(c, maintenance, probes, old(View()), View(), r)
    {
      if maintenance { return Suppressed; }
      if c.checkIntervalSeconds > 60 && health.Some? {
        var now := Now();
        if now - health.value.checkedAt < c.checkIntervalSeconds * SECOND { return NotDue; }
      }
      var healthy := Probe(probes);
      UpdateHealth(healthy);
      ghost var mid := View();
      assert Evaluated(c, old(View()), mid, healthy);
      if healthy || health.value.consecutiveFailures < c.failureThreshold || !c.autoFailover {
        r := Recorded;
      } else if AlreadyFailedOver(runs) {
        r := StillActive;
      } else {
        var call := Promote(true, false, true);
        r := Promoted(call);
      }
      assert WatchEvaluated(c, old(View()), mid, View(), healthy, r);
    }
  }
}
