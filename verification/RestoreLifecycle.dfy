/**
  Restore requests from creation to outcome: approval under the four-eyes policy, native and
  cross-hypervisor execution, and the isolated recovery test wrapped around them. The steps of the
  database and of the outside world are atomic; executions, even of one request, may overlap.
 */
module RestoreLifecycle {

  type User = string

  datatype Status = PendingApproval | Approved | Ready | Running | Success | Failed

  /** `orchestrated` requests come from disaster recovery; a `test` request asks for an isolated test. */
  datatype Request = Request(requester: User, orchestrated: bool, test: bool, status: Status)

  /**
    How far an execution is. The first six are those of the inner restore; the others are those of a
    test. `sound` says that nothing has failed so far, `imported` that the inner restore succeeded.
   */
  datatype Stage =
    | Started
    | Checked
    | Delivered
    | Raised
    | Restored
    | Unrestored
    | Isolated
    | PoweredOn
    | Booted
    | Broken
    | Off(sound: bool)
    | Cleaned(sound: bool)
    | Returned(ok: bool, imported: bool)

  /** An execution that started; executions are numbered in that order. */
  datatype Exec = Exec(id: nat, actor: User, stage: Stage)

  /** Request ids are positions in the table. */
  datatype LifeState = LifeState(requests: seq<Request>, execs: seq<Exec>)

  datatype Policy = Policy(fourEyes: bool, autoCleanup: bool)

  const EMPTY := LifeState([], [])

  // ---------------------------------------------------------------- the atomic steps

  /** `id` is a request, `e` an execution; `Refuse` is the verdict of a test that never started. */
  datatype Action =
    | Create(requester: User, orchestrated: bool, test: bool)
    | Approve(id: nat, approver: User)
    | Start(id: nat, actor: User)
    | FetchFails(e: nat)
    | Verify(e: nat, ok: bool)
    | Import(e: nat, ok: bool)
    | Finish(e: nat)
    | Isolate(e: nat, ok: bool)
    | PowerOn(e: nat, ok: bool)
    | Watch(e: nat, ok: bool)
    | PowerOff(e: nat, ok: bool)
    | Destroy(e: nat, ok: bool)
    | Verdict(e: nat)
    | Refuse(id: nat)

  predicate Startable(s: LifeState, id: nat) {
    id < |s.requests| && s.requests[id].status in {Approved, Ready}
  }

  predicate At(s: LifeState, e: nat, stage: Stage) {
    e < |s.execs| && s.execs[e].stage == stage
  }

  predicate IsTest(s: LifeState, e: nat) {
    e < |s.execs| && s.execs[e].id < |s.requests| && s.requests[s.execs[e].id].test
  }

  /** Power-off, and destruction where the policy asks for it, have been attempted. */
  predicate CleanedUp(p: Policy, stage: Stage) {
    if p.autoCleanup then stage.Cleaned? else stage.Off?
  }

  predicate Enabled(p: Policy, s: LifeState, a: Action) {
    match a
    case Create(_, _, _) => true
    case Approve(id, approver) =>
      && id < |s.requests| && s.requests[id].status == PendingApproval
      && !(p.fourEyes && s.requests[id].requester == approver)
    case Start(id, _) => Startable(s, id)
    case FetchFails(e) => At(s, e, Started)
    case Verify(e, _) => At(s, e, Started)
    case Import(e, _) => At(s, e, Checked)
    case Finish(e) => At(s, e, Delivered) || At(s, e, Raised)
    case Isolate(e, _) => IsTest(s, e) && At(s, e, Restored)
    case PowerOn(e, _) => At(s, e, Isolated)
    case Watch(e, _) => At(s, e, PoweredOn)
    case PowerOff(e, _) => At(s, e, Booted) || At(s, e, Broken)
    case Destroy(e, _) => p.autoCleanup && e < |s.execs| && s.execs[e].stage.Off?
    case Verdict(e) =>
      IsTest(s, e) && e < |s.execs| && (s.execs[e].stage.Unrestored? || CleanedUp(p, s.execs[e].stage))
    case Refuse(id) => id < |s.requests| && s.requests[id].test
  }

  function WithStatus(s: LifeState, id: nat, status: Status): LifeState {
    if id < |s.requests| then s.(requests := s.requests[id := s.requests[id].(status := status)]) else s
  }

  function Advance(s: LifeState, e: nat, stage: Stage): LifeState
    requires e < |s.execs|
  {
    s.(execs := s.execs[e := s.execs[e].(stage := stage)])
  }

  function After(p: Policy, s: LifeState, a: Action): LifeState
    requires Enabled(p, s, a)
  {
    match a
    case Create(requester, orchestrated, test) =>
      var status := if orchestrated || !p.fourEyes then Ready else PendingApproval;
      s.(requests := s.requests + [Request(requester, orchestrated, test, status)])
    case Approve(id, _) => WithStatus(s, id, Approved)
    case Start(id, actor) => WithStatus(s, id, Running).(execs := s.execs + [Exec(id, actor, Started)])
    case FetchFails(e) => Advance(s, e, Raised)
    case Verify(e, ok) => Advance(s, e, if ok then Checked else Raised)
    case Import(e, ok) => Advance(s, e, if ok then Delivered else Raised)
    case Finish(e) =>
      if s.execs[e].stage == Delivered then Advance(WithStatus(s, s.execs[e].id, Success), e, Restored)
      else Advance(WithStatus(s, s.execs[e].id, Failed), e, Unrestored)
    case Isolate(e, ok) => Advance(s, e, if ok then Isolated else Broken)
    case PowerOn(e, ok) => Advance(s, e, if ok then PoweredOn else Broken)
    case Watch(e, ok) => Advance(s, e, if ok then Booted else Broken)
    case PowerOff(e, ok) => Advance(s, e, Off(ok && s.execs[e].stage == Booted))
    case Destroy(e, ok) => Advance(s, e, Cleaned(ok && s.execs[e].stage.sound))
    case Verdict(e) =>
      var stage := s.execs[e].stage;
      if stage.Unrestored? then Advance(WithStatus(s, s.execs[e].id, Failed), e, Returned(false, false))
      else if stage.sound then Advance(s, e, Returned(true, true))
      else Advance(WithStatus(s, s.execs[e].id, Failed), e, Returned(false, true))
    case Refuse(id) => WithStatus(s, id, Failed)
  }

  // ---------------------------------------------------------------- runs

  ghost predicate StepAt(p: Policy, states: seq<LifeState>, actions: seq<Action>, i: nat)
    requires i < |actions| && |states| == |actions| + 1
  {
    Enabled(p, states[i], actions[i]) && states[i + 1] == After(p, states[i], actions[i])
  }

  /** Any interleaving of the steps of all requests and executions. */
  ghost predicate IsRun(p: Policy, states: seq<LifeState>, actions: seq<Action>) {
    && |states| == |actions| + 1 && states[0] == EMPTY
    && forall i | 0 <= i < |actions| :: StepAt(p, states, actions, i)
  }

  ghost predicate Reached(p: Policy, trace: seq<Action>, s: LifeState) {
    exists states :: IsRun(p, states, trace) && states[|trace|] == s
  }

  lemma ReachedOn(p: Policy, trace: seq<Action>, s: LifeState, a: Action)
    requires Reached(p, trace, s) && Enabled(p, s, a)
    ensures Reached(p, trace + [a], After(p, s, a))
  {
    var states :| IsRun(p, states, trace) && states[|trace|] == s;
    var on, more := states + [After(p, s, a)], trace + [a];
    forall i | 0 <= i < |more| ensures StepAt(p, on, more, i) {
      if i < |trace| {
        assert StepAt(p, states, trace, i);
      }
    }
    assert IsRun(p, on, more);
  }

  /** How far the try block of an execution got. */
  datatype Progress = NotFetched | BadManifest | ImportFailed | ImportDone

  function TryScript(e: nat, progress: Progress): seq<Action> {
    match progress
    case NotFetched => [FetchFails(e)]
    case BadManifest => [Verify(e, false)]
    case ImportFailed => [Verify(e, true), Import(e, false)]
    case ImportDone => [Verify(e, true), Import(e, true)]
  }

  /** Which of the steps in the try block succeed; an import is a conversion where the platforms differ. */
  datatype Answers = Answers(fetched: bool, present: bool, verified: bool, imported: bool)

  /** Which of the steps of a test around its restore succeed. */
  datatype TestAnswers = TestAnswers(isolated: bool, poweredOn: bool, running: bool, poweredOff: bool, destroyed: bool)

  // ---------------------------------------------------------------- the engine

  class RecoveryEngine {
    const p: Policy
    var requests: seq<Request>
    ghost var execs: seq<Exec>
    ghost var trace: seq<Action>

    ghost function View(): LifeState
      reads this
    {
      LifeState(requests, execs)
    }

    /** What has happened is a run of atomic steps that ends here. */
    ghost predicate Valid()
      reads this
    {
      Reached(p, trace, View())
    }

    constructor (p: Policy)
      ensures this.p == p && View() == EMPTY && trace == [] && Valid()
    {
      this.p, requests, execs, trace := p, [], [], [];
      new;
      assert IsRun(p, [EMPTY], []);
    }

    /** A step of the outside world that an execution reports; the database is not involved. */
    ghost method Report(a: Action)
      requires Valid() && Enabled(p, View(), a) && After(p, View(), a).requests == requests
      modifies this`execs, this`trace
      ensures Valid() && View() == After(p, old(View()), a) && trace == old(trace) + [a]
      ensures requests == old(requests)
    {
      ReachedOn(p, trace, View(), a);
      trace, execs := trace + [a], After(p, View(), a).execs;
    }

    method CreateRestoreRequest(requester: User, orchestrated: bool, test: bool, status: Status) returns (id: nat)
      requires Valid() && status == if orchestrated || !p.fourEyes then Ready else PendingApproval
      modifies this`requests, this`trace
      ensures Valid() && id == |old(requests)|
      ensures View() == After(p, old(View()), Create(requester, orchestrated, test))
      ensures trace == old(trace) + [Create(requester, orchestrated, test)]
      ensures requests == old(requests) + [Request(requester, orchestrated, test, status)]
    {
      ReachedOn(p, trace, View(), Create(requester, orchestrated, test));
      id := |requests|;
      requests := requests + [Request(requester, orchestrated, test, status)];
      trace := trace + [Create(requester, orchestrated, test)];
    }

    /** A user's request; a cross-hypervisor one also needs an allowed conversion plan. */
    method RequestRestore(
      requester: User, test: bool, pointKnown: bool, targetEnabled: bool, sameFamily: bool, planAllowed: bool)
      returns (ok: bool)
      requires Valid()
      modifies this`requests, this`trace
      ensures Valid() && ok == (pointKnown && (if sameFamily then targetEnabled else planAllowed))
      ensures !ok ==> View() == old(View()) && trace == old(trace)
      ensures ok ==> View() == After(p, old(View()), Create(requester, false, test))
      ensures ok ==> requests == old(requests) + [
                       Request(requester, false, test, if p.fourEyes then PendingApproval else Ready)]
    {
      if !pointKnown { return false; }
      if sameFamily {
        if !targetEnabled { return false; }
      } else if !planAllowed {
        return false;
      }
      var _ := CreateRestoreRequest(requester, false, test, if p.fourEyes then PendingApproval else Ready);
      ok := true;
    }

    /** The disaster-recovery orchestrator creates its requests ready. */
    method RequestForRecovery() returns (id: nat)
      requires Valid()
      modifies this`requests, this`trace
      ensures Valid() && View() == After(p, old(View()), Create("dr-orchestrator", true, false))
      ensures id == |old(requests)| && Startable(View(), id)
      ensures requests == old(requests) + [Request("dr-orchestrator", true, false, Ready)]
    {
      id := CreateRestoreRequest("dr-orchestrator", true, false, Ready);
    }

    method ApproveRestore(id: nat, approver: User) returns (ok: bool)
      requires Valid()
      modifies this`requests, this`trace
      ensures Valid() && ok == Enabled(p, old(View()), Approve(id, approver))
      ensures if ok then View() == After(p, old(View()), Approve(id, approver)) else View() == old(View())
      ensures trace == old(trace) + if ok then [Approve(id, approver)] else []
      ensures ok <==> id < |old(requests)| && old(requests)[id].status == PendingApproval
                      && (p.fourEyes ==> old(requests)[id].requester != approver)
      ensures requests == if ok then old(requests)[id := old(requests)[id].(status := Approved)] else old(requests)
    {
      if id >= |requests| || requests[id].status != PendingApproval { return false; }
      if p.fourEyes && requests[id].requester == approver { return false; }
      ReachedOn(p, trace, View(), Approve(id, approver));
      requests := requests[id := requests[id].(status := Approved)];
      trace := trace + [Approve(id, approver)];
      ok := true;
    }

    method StartRestore(id: nat, actor: User) returns (ok: bool)
      requires Valid()
      modifies this`requests, this`execs, this`trace
      ensures Valid() && ok == Startable(old(View()), id)
      ensures if ok then View() == After(p, old(View()), Start(id, actor)) else View() == old(View())
      ensures trace == old(trace) + if ok then [Start(id, actor)] else []
      ensures ok <==> id < |old(requests)| && old(requests)[id].status in {Approved, Ready}
      ensures requests == if ok then old(requests)[id := old(requests)[id].(status := Running)] else old(requests)
    {
      if id >= |requests| || !(requests[id].status in {Approved, Ready}) { return false; }
      ReachedOn(p, trace, View(), Start(id, actor));
      requests := requests[id := requests[id].(status := Running)];
      execs, trace := execs + [Exec(id, actor, Started)], trace + [Start(id, actor)];
      ok := true;
    }

    /** Overwrites the status, whatever it is; `a` is the step of which this is the database part. */
    method FinishRestore(id: nat, success: bool, ghost a: Action)
      requires Valid() && Enabled(p, View(), a)
      requires After(p, View(), a).requests == WithStatus(View(), id, if success then Success else Failed).requests
      modifies this`requests, this`execs, this`trace
      ensures Valid() && View() == After(p, old(View()), a) && trace == old(trace) + [a]
    {
      ReachedOn(p, trace, View(), a);
      trace, execs := trace + [a], After(p, View(), a).execs;
      if id < |requests| {
        requests := requests[id := requests[id].(status := if success then Success else Failed)];
      }
    }

    /** Fetch, verify the manifest, then import or convert. */
    method FetchVerifyImport(answers: Answers, ghost e: nat) returns (progress: Progress)
      requires Valid() && At(View(), e, Started)
      modifies this`execs, this`trace
      ensures Valid() && trace == old(trace) + TryScript(e, progress)
      ensures |execs| == |old(execs)|
              && execs[e] == old(execs)[e].(stage := if progress == ImportDone then Delivered else Raised)
      ensures progress == ImportDone <==> answers == Answers(true, true, true, true)
      ensures progress in {BadManifest, ImportFailed, ImportDone} <==> answers.fetched && answers.present
      ensures progress in {ImportFailed, ImportDone} <==> answers.fetched && answers.present && answers.verified
    {
      if !answers.fetched || !answers.present {
        Report(FetchFails(e));
        return NotFetched;
      }
      Report(Verify(e, answers.verified));
      if !answers.verified { return BadManifest; }
      Report(Import(e, answers.imported));
      progress := if answers.imported then ImportDone else ImportFailed;
    }

    /** The part of an execution after its checks: start, the try block, and its end. */
    method StartAndFinish(id: nat, actor: User, answers: Answers)
      returns (ok: bool, ghost started: bool, ghost progress: Progress)
      requires Valid()
      modifies this`requests, this`execs, this`trace
      ensures Valid()
      ensures started <==> id < |old(requests)| && old(requests)[id].status in {Approved, Ready}
      ensures !started ==> !ok && View() == old(View()) && trace == old(trace)
      ensures started ==>
                && var e := |old(execs)|;
                && trace == old(trace) + ([Start(id, actor)] + TryScript(e, progress) + [Finish(e)])
                && |execs| == e + 1 && execs[e] == Exec(id, actor, if ok then Restored else Unrestored)
                && ok == (progress == ImportDone) == (answers == Answers(true, true, true, true))
                && requests == old(requests)[id := old(requests)[id].(status := if ok then Success else Failed)]
    {
      progress := NotFetched;
      ghost var e := |execs|;
      ok := StartRestore(id, actor);
      started := ok;
      if !ok { return; }
      var reached := FetchVerifyImport(answers, e);
      progress := reached;
      ok := reached == ImportDone;
      FinishRestore(id, ok, Finish(e));
      assert trace == old(trace) + ([Start(id, actor)] + TryScript(e, progress) + [Finish(e)]);
    }

    /**
      Executes a request. The parameters are the answers of the checks made before it starts; a
      cross-hypervisor restore evaluates its conversion plan again.
     */
    method ExecuteRestore(
      id: nat, actor: User, dryRun: bool, pointKnown: bool, sameFamily: bool, planAllowed: bool,
      copyAvailable: bool, targetReady: bool, answers: Answers)
      returns (ok: bool, ghost started: bool, ghost progress: Progress)
      requires Valid()
      modifies this`requests, this`execs, this`trace
      ensures Valid()
      ensures started ==> !dryRun && Startable(old(View()), id)
      ensures !started ==> View() == old(View()) && trace == old(trace) && (ok ==> dryRun)
      ensures ok ==> pointKnown && copyAvailable && (sameFamily || planAllowed)
      ensures started ==>
                && var e := |old(execs)|;
                && trace == old(trace) + ([Start(id, actor)] + TryScript(e, progress) + [Finish(e)])
                && |execs| == e + 1 && execs[e] == Exec(id, actor, if ok then Restored else Unrestored)
                && ok == (progress == ImportDone) == (answers == Answers(true, true, true, true))
                && requests == old(requests)[id := old(requests)[id].(status := if ok then Success else Failed)]
      ensures started <==>
                && !dryRun && id < |old(requests)| && old(requests)[id].status in {Approved, Ready}
                && pointKnown && (sameFamily || planAllowed) && copyAvailable && targetReady
      ensures dryRun ==>
                (ok <==> id < |old(requests)| && old(requests)[id].status in {PendingApproval, Approved, Ready}
                         && pointKnown && (sameFamily || planAllowed) && copyAvailable)
    {
      started, progress := false, NotFetched;
      if id >= |requests| { return false, started, progress; }
      if dryRun && !(requests[id].status in {PendingApproval, Approved, Ready}) { return false, started, progress; }
      if !pointKnown { return false, started, progress; }
      if !sameFamily && !planAllowed { return false, started, progress; }
      if !copyAvailable { return false, started, progress; }
      if dryRun { return true, started, progress; }
      if !targetReady { return false, started, progress; }
      ok, started, progress := StartAndFinish(id, actor, answers);
    }

    /** Isolate, power on and watch; stops at the first failure. */
    method BootIsolated(answers: TestAnswers, ghost e: nat) returns (sound: bool)
      requires Valid() && IsTest(View(), e) && At(View(), e, Restored)
      modifies this`execs, this`trace
      ensures Valid() && requests == old(requests) && |execs| == |old(execs)|
              && execs[e] == old(execs)[e].(stage := if sound then Booted else Broken)
      ensures sound <==> answers.isolated && answers.poweredOn && answers.running
    {
      Report(Isolate(e, answers.isolated));
      if !answers.isolated { return false; }
      Report(PowerOn(e, answers.poweredOn));
      if !answers.poweredOn { return false; }
      Report(Watch(e, answers.running));
      sound := answers.running;
    }

    /** Cleanup always attempts both steps; a failed power-off does not stop the destruction. */
    method CleanUp(sound: bool, answers: TestAnswers, ghost e: nat) returns (clean: bool)
      requires Valid() && At(View(), e, if sound then Booted else Broken)
      modifies this`execs, this`trace
      ensures Valid() && requests == old(requests) && |execs| == |old(execs)|
      ensures CleanedUp(p, execs[e].stage) && execs[e].stage.sound == (sound && clean)
      ensures execs[e].id == old(execs)[e].id
      ensures clean <==> answers.poweredOff && (p.autoCleanup ==> answers.destroyed)
    {
      Report(PowerOff(e, answers.poweredOff));
      clean := answers.poweredOff;
      if p.autoCleanup {
        Report(Destroy(e, answers.destroyed));
        clean := clean && answers.destroyed;
      }
    }

    /** An isolated recovery test whose marker, point and network have been validated. */
    method ExecuteTest(
      id: nat, actor: User, pointKnown: bool, sameFamily: bool, planAllowed: bool, copyAvailable: bool,
      targetReady: bool, answers: Answers, test: TestAnswers)
      returns (ok: bool, ghost started: bool)
      requires Valid() && id < |requests| && requests[id].test
      modifies this`requests, this`execs, this`trace
      ensures Valid()
      ensures !started ==> !ok && View() == After(p, old(View()), Refuse(id)) && trace == old(trace) + [Refuse(id)]
      ensures started ==>
                && Startable(old(View()), id) && |execs| == |old(execs)| + 1
                && var exec := execs[|old(execs)|];
                && exec.id == id && exec.stage.Returned? && exec.stage.ok == ok
      ensures started <==>
                && old(requests)[id].status in {Approved, Ready}
                && pointKnown && (sameFamily || planAllowed) && copyAvailable && targetReady
      ensures requests == old(requests)[id := old(requests)[id].(status := if ok then Success else Failed)]
      ensures ok <==>
                && started && answers == Answers(true, true, true, true)
                && test.isolated && test.poweredOn && test.running && test.poweredOff
                && (p.autoCleanup ==> test.destroyed)
    {
      var imported: bool;
      ghost var e, progress := |execs|, NotFetched;
      imported, started, progress := ExecuteRestore(
        id, actor, false, pointKnown, sameFamily, planAllowed, copyAvailable, targetReady, answers);
      ok := imported;
      if imported {
        ok := BootIsolated(test, e);
        var clean := CleanUp(ok, test, e);
        ok := ok && clean;
      }
      if !ok {
        FinishRestore(id, false, if started then Verdict(e) else Refuse(id));
      } else {
        Report(Verdict(e));
      }
    }
  }
}
