/**
  Over every interleaving of requests, approvals, executions and recovery tests: who may start a
  restore, how often, what must come before an import or a power-on, and what a test's return means.
 */
module RestoreSafety {
  import opened RestoreLifecycle

  lemma RunStep(p: Policy, states: seq<LifeState>, actions: seq<Action>, i: nat)
    requires IsRun(p, states, actions) && i < |actions|
    ensures Enabled(p, states[i], actions[i]) && states[i + 1] == After(p, states[i], actions[i])
  {
    assert StepAt(p, states, actions, i);
  }

  // ---------------------------------------------------------------- starting

  predicate Open(status: Status) {
    status in {PendingApproval, Approved, Ready}
  }

  lemma StepKeepsClosed(p: Policy, s: LifeState, a: Action, id: nat)
    requires Enabled(p, s, a) && id < |s.requests| && !Open(s.requests[id].status)
    ensures id < |After(p, s, a).requests| && !Open(After(p, s, a).requests[id].status)
  {
  }

  /** A request that has been started, or closed by a verdict, never opens again. */
  lemma {:induction false} ClosedStaysClosed(
    p: Policy, states: seq<LifeState>, actions: seq<Action>, i: nat, j: nat, id: nat)
    requires IsRun(p, states, actions) && i <= j < |states|
    requires id < |states[i].requests| && !Open(states[i].requests[id].status)
    ensures id < |states[j].requests| && !Open(states[j].requests[id].status)
  {
    if i < j {
      ClosedStaysClosed(p, states, actions, i, j - 1, id);
      RunStep(p, states, actions, j - 1);
      StepKeepsClosed(p, states[j - 1], actions[j - 1], id);
    }
  }

  /** However executions of one request overlap, it starts at most once. */
  lemma StartsAtMostOnce(
    p: Policy, states: seq<LifeState>, actions: seq<Action>, i: nat, j: nat, id: nat, first: User, second: User)
    requires IsRun(p, states, actions) && i < |actions| && j < |actions|
    requires actions[i] == Start(id, first) && actions[j] == Start(id, second)
    ensures i == j
  {
    RunStep(p, states, actions, i);
    RunStep(p, states, actions, j);
    if i < j {
      ClosedStaysClosed(p, states, actions, i + 1, j, id);
    } else if j < i {
      ClosedStaysClosed(p, states, actions, j + 1, i, id);
    }
  }

  /** Requests keep their requester and their origin. */
  lemma {:induction false} RequestsKeepOrigin(
    p: Policy, states: seq<LifeState>, actions: seq<Action>, i: nat, j: nat, id: nat)
    requires IsRun(p, states, actions) && i <= j < |states| && id < |states[i].requests|
    ensures id < |states[j].requests|
    ensures states[j].requests[id].(status := Ready) == states[i].requests[id].(status := Ready)
  {
    if i < j {
      RequestsKeepOrigin(p, states, actions, i, j - 1, id);
      RunStep(p, states, actions, j - 1);
    }
  }

  /** Someone other than the requester approved the request among the first `i` steps. */
  ghost predicate ApprovedByOther(states: seq<LifeState>, actions: seq<Action>, i: nat, id: nat)
    requires i < |states| && i <= |actions| && id < |states[i].requests|
  {
    exists j, approver ::
      0 <= j < i && actions[j] == Approve(id, approver) && approver != states[i].requests[id].requester
  }

  /** A startable request is one the orchestrator created ready, or one that was approved. */
  lemma {:induction false} StartableIsJustified(
    p: Policy, states: seq<LifeState>, actions: seq<Action>, i: nat, id: nat)
    requires p.fourEyes && IsRun(p, states, actions) && i < |states| && Startable(states[i], id)
    ensures states[i].requests[id].orchestrated || ApprovedByOther(states, actions, i, id)
  {
    assert i > 0;
    var s, a := states[i - 1], actions[i - 1];
    RunStep(p, states, actions, i - 1);
    if Startable(s, id) {
      StartableIsJustified(p, states, actions, i - 1, id);
      if !s.requests[id].orchestrated {
        var j, approver :| 0 <= j < i - 1 && actions[j] == Approve(id, approver)
          && approver != s.requests[id].requester;
        assert 0 <= j < i && actions[j] == Approve(id, approver);
      }
    } else if a.Approve? {
      assert 0 <= i - 1 < i && actions[i - 1] == Approve(id, a.approver);
    }
  }

  /** Whatever starts was created by the recovery orchestrator, or approved earlier by another person. */
  lemma StartNeedsSecondPerson(p: Policy, states: seq<LifeState>, actions: seq<Action>, i: nat, id: nat, actor: User)
    requires p.fourEyes && IsRun(p, states, actions) && i < |actions| && actions[i] == Start(id, actor)
    ensures id < |states[i].requests|
    ensures states[i].requests[id].orchestrated || ApprovedByOther(states, actions, i, id)
  {
    RunStep(p, states, actions, i);
    StartableIsJustified(p, states, actions, i, id);
  }

  // ---------------------------------------------------------------- what an execution has done

  /** The step is one of execution `e`. */
  predicate Of(a: Action, e: nat) {
    match a
    case Create(_, _, _) => false
    case Approve(_, _) => false
    case Start(_, _) => false
    case Refuse(_) => false
    case _ => a.e == e
  }

  /** The steps of execution `e` among the first `i` of the run. */
  ghost function Done(actions: seq<Action>, i: nat, e: nat): set<Action>
    requires i <= |actions|
  {
    if i == 0 then {} else Done(actions, i - 1, e) + if Of(actions[i - 1], e) then {actions[i - 1]} else {}
  }

  lemma {:induction false} DoneMeans(actions: seq<Action>, i: nat, e: nat, a: Action)
    requires i <= |actions|
    ensures a in Done(actions, i, e) <==> Of(a, e) && exists j :: 0 <= j < i && actions[j] == a
  {
    if i > 0 {
      DoneMeans(actions, i - 1, e, a);
    }
  }

  predicate WasImported(stage: Stage) {
    || stage in {Delivered, Restored, Isolated, PoweredOn, Booted, Broken}
    || stage.Off? || stage.Cleaned? || (stage.Returned? && stage.imported)
  }

  predicate OffTried(stage: Stage) {
    stage.Off? || stage.Cleaned? || (stage.Returned? && stage.imported)
  }

  predicate DestroyTried(p: Policy, stage: Stage) {
    stage.Cleaned? || (stage.Returned? && stage.imported && p.autoCleanup)
  }

  /** Every stage of the test so far has succeeded, the watch included. */
  predicate Sound(stage: Stage) {
    stage.Booted? || ((stage.Off? || stage.Cleaned?) && stage.sound) || (stage.Returned? && stage.ok)
  }

  /** What an execution's stage says about the steps it has done. */
  ghost predicate Tells(p: Policy, done: set<Action>, e: nat, stage: Stage) {
    && (Import(e, true) in done <==> WasImported(stage))
    && (stage.Checked? || WasImported(stage) ==> Verify(e, true) in done)
    && (stage.Isolated? || stage.PoweredOn? || Sound(stage) ==> Isolate(e, true) in done)
    && (stage.PoweredOn? || Sound(stage) ==> PowerOn(e, true) in done)
    && (Sound(stage) ==> Watch(e, true) in done)
    && (PowerOff(e, true) in done || PowerOff(e, false) in done <==> OffTried(stage))
    && (Destroy(e, true) in done || Destroy(e, false) in done <==> DestroyTried(p, stage))
    && (stage.Returned? && stage.ok ==> stage.imported)
  }

  /** ... and which of its steps have failed. */
  ghost predicate TellsFailures(p: Policy, done: set<Action>, e: nat, stage: Stage) {
    && (Isolate(e, false) in done || PowerOn(e, false) in done || Watch(e, false) in done ==>
          !Sound(stage) && (stage.Broken? || OffTried(stage)))
    && (stage.Broken? || (OffTried(stage) && !Sound(stage)) ==>
          || Isolate(e, false) in done || PowerOn(e, false) in done || Watch(e, false) in done
          || PowerOff(e, false) in done || Destroy(e, false) in done)
    && (PowerOff(e, false) in done || Destroy(e, false) in done ==> OffTried(stage) && !Sound(stage))
    && (Sound(stage) && OffTried(stage) ==> PowerOff(e, true) in done)
    && (Sound(stage) && DestroyTried(p, stage) ==> Destroy(e, true) in done)
  }

  lemma OwnStepTells(p: Policy, s: LifeState, a: Action, e: nat, done: set<Action>)
    requires Enabled(p, s, a) && Of(a, e) && e < |s.execs| && Tells(p, done, e, s.execs[e].stage)
    ensures Tells(p, done + {a}, e, After(p, s, a).execs[e].stage)
  {
  }

  lemma OwnStepTellsFailures(p: Policy, s: LifeState, a: Action, e: nat, done: set<Action>)
    requires Enabled(p, s, a) && Of(a, e) && e < |s.execs|
    requires Tells(p, done, e, s.execs[e].stage) && TellsFailures(p, done, e, s.execs[e].stage)
    ensures TellsFailures(p, done + {a}, e, After(p, s, a).execs[e].stage)
  {
  }

  lemma OtherStepLeaves(p: Policy, s: LifeState, a: Action, e: nat)
    requires Enabled(p, s, a) && !Of(a, e) && e < |s.execs|
    ensures e < |After(p, s, a).execs| && After(p, s, a).execs[e] == s.execs[e]
  {
  }

  lemma StepOfExists(p: Policy, s: LifeState, a: Action, e: nat)
    requires Enabled(p, s, a) && e >= |s.execs|
    ensures !Of(a, e)
    ensures e < |After(p, s, a).execs| ==> After(p, s, a).execs[e].stage == Started
  {
  }

  /** At every moment, an execution's stage tells what it has done; one that has not started has done nothing. */
  lemma {:induction false} StageTells(p: Policy, states: seq<LifeState>, actions: seq<Action>, i: nat, e: nat)
    requires IsRun(p, states, actions) && i < |states|
    ensures if e < |states[i].execs| then
              var stage := states[i].execs[e].stage;
              Tells(p, Done(actions, i, e), e, stage) && TellsFailures(p, Done(actions, i, e), e, stage)
            else Done(actions, i, e) == {}
  {
    if i > 0 {
      var s, a := states[i - 1], actions[i - 1];
      StageTells(p, states, actions, i - 1, e);
      RunStep(p, states, actions, i - 1);
      if e >= |s.execs| {
        StepOfExists(p, s, a, e);
      } else if Of(a, e) {
        OwnStepTells(p, s, a, e, Done(actions, i - 1, e));
        OwnStepTellsFailures(p, s, a, e, Done(actions, i - 1, e));
      } else {
        OtherStepLeaves(p, s, a, e);
      }
    }
  }

  /** No import or conversion is called before the same execution passed manifest verification. */
  lemma ImportNeedsVerification(p: Policy, states: seq<LifeState>, actions: seq<Action>, i: nat, e: nat, ok: bool)
    requires IsRun(p, states, actions) && i < |actions| && actions[i] == Import(e, ok)
    ensures exists j :: 0 <= j < i && actions[j] == Verify(e, true)
  {
    RunStep(p, states, actions, i);
    StageTells(p, states, actions, i, e);
    DoneMeans(actions, i, e, Verify(e, true));
  }

  /** A test VM is powered on only after the same test's isolation returned, and never after its power-off. */
  lemma PowerOnNeedsIsolation(p: Policy, states: seq<LifeState>, actions: seq<Action>, i: nat, e: nat, ok: bool)
    requires IsRun(p, states, actions) && i < |actions| && actions[i] == PowerOn(e, ok)
    ensures exists j :: 0 <= j < i && actions[j] == Isolate(e, true)
    ensures forall j, off | 0 <= j < i :: actions[j] != PowerOff(e, off)
  {
    RunStep(p, states, actions, i);
    StageTells(p, states, actions, i, e);
    DoneMeans(actions, i, e, Isolate(e, true));
    forall j, off | 0 <= j < i ensures actions[j] != PowerOff(e, off) {
      DoneMeans(actions, i, e, PowerOff(e, off));
    }
  }

  /**
    When a test returns, power-off has been attempted exactly if its import returned, destruction
    exactly if it must be too.
   */
  lemma CleanupIsAttempted(p: Policy, states: seq<LifeState>, actions: seq<Action>, i: nat, e: nat)
    requires IsRun(p, states, actions) && i < |states| && e < |states[i].execs| && states[i].execs[e].stage.Returned?
    ensures var done := Done(actions, i, e);
            && (PowerOff(e, true) in done || PowerOff(e, false) in done <==> Import(e, true) in done)
            && (Destroy(e, true) in done || Destroy(e, false) in done <==> Import(e, true) in done && p.autoCleanup)
  {
    StageTells(p, states, actions, i, e);
  }

  /** A test returns normally exactly when every one of its stages succeeded. */
  lemma ReturnsExactlyWhenAllSucceeded(p: Policy, states: seq<LifeState>, actions: seq<Action>, i: nat, e: nat)
    requires IsRun(p, states, actions) && i < |states| && e < |states[i].execs| && states[i].execs[e].stage.Returned?
    ensures var done := Done(actions, i, e);
            states[i].execs[e].stage.ok <==>
              && {Import(e, true), Isolate(e, true), PowerOn(e, true), Watch(e, true), PowerOff(e, true)} <= done
              && (p.autoCleanup ==> Destroy(e, true) in done)
              && PowerOff(e, false) !in done && Destroy(e, false) !in done && Isolate(e, false) !in done
              && PowerOn(e, false) !in done && Watch(e, false) !in done
  {
    StageTells(p, states, actions, i, e);
  }

  // ---------------------------------------------------------------- what the request ends as

  /** Requests of executions are closed, and no request has two executions. */
  ghost predicate OneEach(s: LifeState) {
    && (forall e | 0 <= e < |s.execs| :: s.execs[e].id < |s.requests| && !Open(s.requests[s.execs[e].id].status))
    && forall e, f | 0 <= e < f < |s.execs| :: s.execs[e].id != s.execs[f].id
  }

  lemma ExecStaysClosed(p: Policy, s: LifeState, a: Action, e: nat)
    requires Enabled(p, s, a) && OneEach(s) && e < |After(p, s, a).execs|
    ensures var s' := After(p, s, a); var id := s'.execs[e].id;
            && id < |s'.requests| && !Open(s'.requests[id].status)
            && (e < |s.execs| ==> id == s.execs[e].id) && (e >= |s.execs| ==> Startable(s, id) && e == |s.execs|)
  {
  }

  lemma StepKeepsOneEach(p: Policy, s: LifeState, a: Action)
    requires Enabled(p, s, a) && OneEach(s)
    ensures OneEach(After(p, s, a))
  {
    var s' := After(p, s, a);
    forall e | 0 <= e < |s'.execs|
      ensures s'.execs[e].id < |s'.requests| && !Open(s'.requests[s'.execs[e].id].status)
    {
      ExecStaysClosed(p, s, a, e);
    }
    forall e, f | 0 <= e < f < |s'.execs| ensures s'.execs[e].id != s'.execs[f].id {
      ExecStaysClosed(p, s, a, e);
      ExecStaysClosed(p, s, a, f);
    }
  }

  lemma {:induction false} RunKeepsOneEach(p: Policy, states: seq<LifeState>, actions: seq<Action>, i: nat)
    requires IsRun(p, states, actions) && i < |states|
    ensures OneEach(states[i])
  {
    if i > 0 {
      RunKeepsOneEach(p, states, actions, i - 1);
      RunStep(p, states, actions, i - 1);
      StepKeepsOneEach(p, states[i - 1], actions[i - 1]);
    }
  }

  /** The inner restore failed, or the test returned its failure. */
  predicate HasFailed(stage: Stage) {
    stage.Unrestored? || (stage.Returned? && !stage.ok)
  }

  /** The inner restore succeeded and the test has not returned a failure. */
  predicate Standing(stage: Stage) {
    || stage in {Restored, Isolated, PoweredOn, Booted, Broken}
    || stage.Off? || stage.Cleaned? || (stage.Returned? && stage.ok)
  }

  lemma StepStatus(p: Policy, s: LifeState, a: Action, e: nat)
    requires Enabled(p, s, a) && OneEach(s) && e < |s.execs|
    ensures var s' := After(p, s, a); var id := s.execs[e].id;
            && e < |s'.execs| && s'.execs[e].id == id && id < |s'.requests|
            && (Standing(s.execs[e].stage) && Standing(s'.execs[e].stage) ==>
                  (s'.requests[id].status == Success <==> s.requests[id].status == Success && a != Refuse(id)))
            && (HasFailed(s'.execs[e].stage) && !HasFailed(s.execs[e].stage) ==> s'.requests[id].status == Failed)
            && (HasFailed(s.execs[e].stage) && s.requests[id].status == Failed ==>
                  HasFailed(s'.execs[e].stage) && s'.requests[id].status == Failed)
  {
  }

  /** A failed execution's request is marked failed, and stays so. */
  lemma {:induction false} FailureIsRecorded(p: Policy, states: seq<LifeState>, actions: seq<Action>, i: nat, e: nat)
    requires IsRun(p, states, actions) && i < |states| && e < |states[i].execs| && HasFailed(states[i].execs[e].stage)
    ensures states[i].execs[e].id < |states[i].requests|
    ensures states[i].requests[states[i].execs[e].id].status == Failed
  {
    assert i > 0;
    RunStep(p, states, actions, i - 1);
    RunKeepsOneEach(p, states, actions, i - 1);
    if e < |states[i - 1].execs| {
      StepStatus(p, states[i - 1], actions[i - 1], e);
      if HasFailed(states[i - 1].execs[e].stage) {
        FailureIsRecorded(p, states, actions, i - 1, e);
      }
    }
  }

  lemma StepKeepsStanding(p: Policy, s: LifeState, a: Action, e: nat)
    requires Enabled(p, s, a) && e < |s.execs| && e < |After(p, s, a).execs|
    requires Standing(After(p, s, a).execs[e].stage) && !Standing(s.execs[e].stage)
    ensures a == Finish(e) && s.execs[e].stage == Delivered
  {
  }

  /** Step `f` marked the request of execution `e` successful. */
  ghost predicate Succeeds(states: seq<LifeState>, actions: seq<Action>, f: nat, e: nat)
    requires f < |actions| && |states| == |actions| + 1
  {
    actions[f] == Finish(e) && At(states[f], e, Delivered)
  }

  ghost predicate RefusedBetween(actions: seq<Action>, f: nat, i: nat, id: nat)
    requires i <= |actions|
  {
    exists j :: f < j < i && actions[j] == Refuse(id)
  }

  lemma {:induction false} StillThere(p: Policy, states: seq<LifeState>, actions: seq<Action>, f: nat, i: nat, e: nat)
    requires IsRun(p, states, actions) && f <= i < |states| && e < |states[f].execs|
    ensures e < |states[i].execs| && states[i].execs[e].id == states[f].execs[e].id
  {
    if f < i {
      StillThere(p, states, actions, f, i - 1, e);
      RunStep(p, states, actions, i - 1);
    }
  }

  /** Once its inner restore has finished, an execution is never delivered again. */
  lemma {:induction false} FinishesOnce(p: Policy, states: seq<LifeState>, actions: seq<Action>, f: nat, i: nat, e: nat)
    requires IsRun(p, states, actions) && f < i < |states| && Succeeds(states, actions, f, e)
    ensures e < |states[i].execs|
    ensures Standing(states[i].execs[e].stage) || HasFailed(states[i].execs[e].stage)
  {
    RunStep(p, states, actions, i - 1);
    if f + 1 < i {
      FinishesOnce(p, states, actions, f, i - 1, e);
    }
  }

  /**
    From one moment to the next, an execution that still stands stood before, and only a refusal
    takes success away.
   */
  ghost predicate StandsAt(states: seq<LifeState>, actions: seq<Action>, m: nat, e: nat)
    requires m < |actions| && |states| == |actions| + 1
  {
    && e < |states[m].execs| && e < |states[m + 1].execs|
    && var id := states[m].execs[e].id;
    && states[m + 1].execs[e].id == id && id < |states[m].requests| && id < |states[m + 1].requests|
    && (Standing(states[m + 1].execs[e].stage) ==>
          && Standing(states[m].execs[e].stage)
          && (states[m + 1].requests[id].status == Success <==>
                states[m].requests[id].status == Success && actions[m] != Refuse(id)))
  }

  lemma StandsAfterSuccess(p: Policy, states: seq<LifeState>, actions: seq<Action>, f: nat, m: nat, e: nat)
    requires IsRun(p, states, actions) && f < m < |actions| && Succeeds(states, actions, f, e)
    ensures StandsAt(states, actions, m, e)
  {
    FinishesOnce(p, states, actions, f, m, e);
    RunStep(p, states, actions, m);
    RunKeepsOneEach(p, states, actions, m);
    if !Standing(states[m].execs[e].stage) && Standing(After(p, states[m], actions[m]).execs[e].stage) {
      StepKeepsStanding(p, states[m], actions[m], e);
    }
    StepStatus(p, states[m], actions[m], e);
  }

  lemma {:induction false} StandsAllAlong(states: seq<LifeState>, actions: seq<Action>, f: nat, i: nat, e: nat, id: nat)
    requires f < i < |states| == |actions| + 1
    requires e < |states[f + 1].execs| && states[f + 1].execs[e].id == id
    requires id < |states[f + 1].requests| && states[f + 1].requests[id].status == Success
    requires forall m | f < m < i :: StandsAt(states, actions, m, e)
    requires e < |states[i].execs| && Standing(states[i].execs[e].stage)
    ensures states[i].execs[e].id == id && id < |states[i].requests|
    ensures states[i].requests[id].status == Success <==> !RefusedBetween(actions, f, i, id)
  {
    if f + 1 < i {
      assert StandsAt(states, actions, i - 1, e);
      StandsAllAlong(states, actions, f, i - 1, e, id);
      assert RefusedBetween(actions, f, i, id) <==>
             RefusedBetween(actions, f, i - 1, id) || actions[i - 1] == Refuse(id);
    }
  }

  /**
    While an execution stands, its request reads success exactly if no other test of the same request
    has been refused since the inner restore finished.
   */
  lemma SuccessStandsExactly(p: Policy, states: seq<LifeState>, actions: seq<Action>, f: nat, i: nat, e: nat)
    requires IsRun(p, states, actions) && f < i < |states| && Succeeds(states, actions, f, e)
    requires e < |states[i].execs| && Standing(states[i].execs[e].stage)
    ensures states[i].execs[e].id < |states[i].requests|
    ensures states[i].requests[states[i].execs[e].id].status == Success <==>
            !RefusedBetween(actions, f, i, states[i].execs[e].id)
  {
    RunStep(p, states, actions, f);
    RunKeepsOneEach(p, states, actions, f);
    forall m | f < m < i ensures StandsAt(states, actions, m, e) {
      StandsAfterSuccess(p, states, actions, f, m, e);
    }
    StandsAllAlong(states, actions, f, i, e, states[f].execs[e].id);
  }

  /**
    What a returned test means: after a failure the request is marked failed; after a normal return it
    is marked successful exactly if no other test of the request was refused in the meantime.
   */
  lemma TestVerdict(p: Policy, states: seq<LifeState>, actions: seq<Action>, f: nat, i: nat, e: nat)
    requires IsRun(p, states, actions) && f < i < |states| && Succeeds(states, actions, f, e)
    requires e < |states[i].execs| && states[i].execs[e].stage.Returned?
    ensures var id := states[i].execs[e].id;
            && id < |states[i].requests|
            && (!states[i].execs[e].stage.ok ==> states[i].requests[id].status == Failed)
            && (states[i].execs[e].stage.ok ==>
                  (states[i].requests[id].status == Success <==> !RefusedBetween(actions, f, i, id)))
  {
    if states[i].execs[e].stage.ok {
      SuccessStandsExactly(p, states, actions, f, i, e);
    } else {
      FailureIsRecorded(p, states, actions, i, e);
    }
  }

  /** Refusing a test, of a request still awaiting approval or already finished, say, fails the request for good. */
  lemma RefusedTestStillFailsRequest(
    p: Policy, states: seq<LifeState>, actions: seq<Action>, i: nat, j: nat, id: nat, actor: User)
    requires IsRun(p, states, actions) && i < j <= |actions| && actions[i] == Refuse(id)
    ensures states[i + 1].execs == states[i].execs
    ensures id < |states[i + 1].requests| && states[i + 1].requests[id].status == Failed
    ensures j < |actions| ==> actions[j] != Start(id, actor)
  {
    RunStep(p, states, actions, i);
    ClosedStaysClosed(p, states, actions, i + 1, j, id);
    if j < |actions| {
      RunStep(p, states, actions, j);
    }
  }

  function One(status: Status, stage: Stage): LifeState {
    LifeState([Request("a", false, true, status)], [Exec(0, "a", stage)])
  }

  lemma RequestApproved(p: Policy) returns (trace: seq<Action>)
    requires p.fourEyes
    ensures Reached(p, trace, LifeState([Request("a", false, true, Approved)], []))
  {
    var pending := LifeState([Request("a", false, true, PendingApproval)], []);
    assert IsRun(p, [EMPTY], []);
    trace := Then(p, [], EMPTY, Create("a", false, true), pending);
    trace := Then(p, trace, pending, Approve(0, "b"), LifeState([Request("a", false, true, Approved)], []));
  }

  /** The first half of a passing test: approved, started and restored. */
  lemma TestUpToRestore(p: Policy) returns (trace: seq<Action>)
    requires p.fourEyes
    ensures Reached(p, trace, One(Success, Restored))
  {
    trace := RequestApproved(p);
    trace := Then(p, trace, LifeState([Request("a", false, true, Approved)], []), Start(0, "a"), One(Running, Started));
    trace := Then(p, trace, One(Running, Started), Verify(0, true), One(Running, Checked));
    trace := Then(p, trace, One(Running, Checked), Import(0, true), One(Running, Delivered));
    trace := Then(p, trace, One(Running, Delivered), Finish(0), One(Success, Restored));
  }

  lemma Then(p: Policy, before: seq<Action>, s: LifeState, a: Action, s': LifeState) returns (trace: seq<Action>)
    requires Reached(p, before, s) && Enabled(p, s, a) && After(p, s, a) == s'
    ensures trace == before + [a] && Reached(p, trace, s')
  {
    ReachedOn(p, before, s, a);
    trace := before + [a];
  }

  /** ... and refused by a second test of the request while the first one waits for the boot. */
  lemma TestUpToRefusal(p: Policy) returns (trace: seq<Action>)
    requires p.fourEyes
    ensures Reached(p, trace, One(Failed, PoweredOn))
  {
    trace := TestUpToRestore(p);
    trace := Then(p, trace, One(Success, Restored), Isolate(0, true), One(Success, Isolated));
    trace := Then(p, trace, One(Success, Isolated), PowerOn(0, true), One(Success, PoweredOn));
    trace := Then(p, trace, One(Success, PoweredOn), Refuse(0), One(Failed, PoweredOn));
  }

  /** A second test of the same request, refused while the first one waits for the boot, fails a test that passes. */
  lemma RefusedTestFailsAPassingOne(p: Policy)
    requires p.fourEyes
    ensures exists trace, s ::
              && Reached(p, trace, s) && |s.execs| == 1 && |s.requests| == 1
              && s.execs[0].stage == Returned(true, true) && s.requests[0].status == Failed
  {
    var trace := TestUpToRefusal(p);
    trace := Then(p, trace, One(Failed, PoweredOn), Watch(0, true), One(Failed, Booted));
    trace := Then(p, trace, One(Failed, Booted), PowerOff(0, true), One(Failed, Off(true)));
    var cleaned := if p.autoCleanup then Cleaned(true) else Off(true);
    if p.autoCleanup {
      trace := Then(p, trace, One(Failed, Off(true)), Destroy(0, true), One(Failed, cleaned));
    }
    trace := Then(p, trace, One(Failed, cleaned), Verdict(0), One(Failed, Returned(true, true)));
    assert Reached(p, trace, One(Failed, Returned(true, true)));
  }
}
