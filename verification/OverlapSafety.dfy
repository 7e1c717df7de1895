/**
  What overlapping orchestrator calls keep and what they lose: when an activation is justified, when
  the two routes can be up together unfenced, and when successful runs still alternate.
 */
module OverlapSafety {
  import opened Common
  import opened Failover
  import opened Calls
  import FailoverSafety

  // ---------------------------------------------------------------- rows and calls stay in step

  lemma RunsAfterKeepsOrder(runs: seq<Run>, run: Option<nat>, step: Step, outcome: Outcome, at: nat)
    requires NeedsRow(step) ==> run.Some? && run.value < |runs|
    requires Increasing(runs) && (step.OpenRun? ==> StartsLater(runs, at))
    ensures var runs' := RunsAfter(runs, run, step, outcome, at);
            && Increasing(runs') && |runs| <= |runs'|
            && forall i | 0 <= i < |runs| ::
                 && runs'[i].startedAt == runs[i].startedAt && runs'[i].direction == runs[i].direction
                 && (run != Some(i) || !NeedsRow(step) ==> runs'[i] == runs[i])
                 && (!step.CloseRun? ==> runs'[i].status == runs[i].status)
  {
  }

  /** A step by one call leaves another call and its row alone. */
  lemma OthersStillFit(c: Config, w: World, id: CallId, outcome: Outcome, at: nat, other: CallId)
    requires Fits(c, w) && Enabled(c, w, Do(id, outcome, at)) && other in w.calls && other != id
    ensures var w' := After(c, w, Do(id, outcome, at));
            other in w'.calls && w'.calls[other] == w.calls[other] && CallFits(c, w', w.calls[other])
  {
    var call := w.calls[id];
    RunsAfterKeepsOrder(w.runs, call.run, NextStep(c, w, id), outcome, at);
    assert CallFits(c, w, w.calls[other]) && RowsApart(call, w.calls[other]);
  }

  lemma SelfStillFits(c: Config, w: World, id: CallId, outcome: Outcome, at: nat)
    requires Fits(c, w) && Enabled(c, w, Do(id, outcome, at))
    ensures var w' := After(c, w, Do(id, outcome, at));
            id in w'.calls ==>
              && CallFits(c, w', w'.calls[id])
              && (w'.calls[id].run == w.calls[id].run || w'.calls[id].run == Some(|w.runs|))
  {
    var call := w.calls[id];
    assert CallFits(c, w, call);
    RowSteps(c, call);
    RunsAfterKeepsOrder(w.runs, call.run, NextStep(c, w, id), outcome, at);
  }

  lemma StepKeepsFit(c: Config, w: World, a: Action)
    requires Fits(c, w) && Enabled(c, w, a)
    ensures Fits(c, After(c, w, a))
  {
    var w' := After(c, w, a);
    match a
    case Begin(id, kind) =>
      assert forall other | other in w.calls :: CallFits(c, w, w.calls[other]);
    case Do(id, outcome, at) =>
      RunsAfterKeepsOrder(w.runs, w.calls[id].run, NextStep(c, w, id), outcome, at);
      SelfStillFits(c, w, id, outcome, at);
      forall other | other in w.calls && other != id ensures CallFits(c, w', w.calls[other]) && other in w'.calls {
        OthersStillFit(c, w, id, outcome, at, other);
      }
      forall other | other in w.calls && other != id && id in w'.calls
        ensures RowsApart(w'.calls[id], w.calls[other]) && RowsApart(w.calls[other], w'.calls[id])
      {
        assert CallFits(c, w, w.calls[other]) && RowsApart(w.calls[id], w.calls[other]);
      }
      forall x, y | x in w'.calls && y in w'.calls && x != y ensures RowsApart(w'.calls[x], w'.calls[y]) {
        assert x != id ==> x in w.calls && w'.calls[x] == w.calls[x];
        assert y != id ==> y in w.calls && w'.calls[y] == w.calls[y];
      }
    case Die(id) =>
    case Lift =>
    case Evaluate(_, _) =>
  }

  lemma {:induction false} RunFits(c: Config, states: seq<World>, actions: seq<Action>, i: nat)
    requires IsRun(c, states, actions) && i < |states|
    ensures Fits(c, states[i])
  {
    if i > 0 {
      RunFits(c, states, actions, i - 1);
      RunStep(c, states, actions, i - 1);
      StepKeepsFit(c, states[i - 1], actions[i - 1]);
    }
  }

  // ---------------------------------------------------------------- when an activation is justified

  /** The DR route has been strictly withdrawn since it was last activated. */
  ghost predicate Withdrawn(log: Log, k: nat)
    requires k <= |log|
  {
    if k == 0 then false
    else if log[k - 1] == Event(Deactivate(Dr, false), Done) then true
    else if log[k - 1].step == Activate(Dr) then false
    else Withdrawn(log, k - 1)
  }

  lemma {:induction false} FencedExactly(log: Log, k: nat)
    requires k <= |log|
    ensures Fenced(log, k) <==> exists j: nat :: FenceHeldSince(log, j, k)
  {
    if k > 0 {
      FencedExactly(log, k - 1);
      if log[k - 1] == Event(FenceRecorded, Done) {
        assert FenceHeldSince(log, k - 1, k);
      } else if log[k - 1].step != LiftFence && Fenced(log, k - 1) {
        var j: nat :| FenceHeldSince(log, j, k - 1);
        assert FenceHeldSince(log, j, k);
      } else {
        forall j: nat | log[k - 1].step != LiftFence
          ensures FenceHeldSince(log, j, k) ==> FenceHeldSince(log, j, k - 1)
        {
        }
      }
    }
  }

  lemma {:induction false} WithdrawnExactly(log: Log, k: nat)
    requires k <= |log|
    ensures Withdrawn(log, k) <==> exists j: nat :: DrDownSince(log, j, k)
  {
    if k > 0 {
      WithdrawnExactly(log, k - 1);
      if log[k - 1] == Event(Deactivate(Dr, false), Done) {
        assert DrDownSince(log, k - 1, k);
      } else if log[k - 1].step != Activate(Dr) && Withdrawn(log, k - 1) {
        var j: nat :| DrDownSince(log, j, k - 1);
        assert DrDownSince(log, j, k);
      } else {
        forall j: nat | log[k - 1].step != Activate(Dr)
          ensures DrDownSince(log, j, k) ==> DrDownSince(log, j, k - 1)
        {
        }
      }
    }
  }

  /** After every fence so far comes a lift. */
  ghost predicate EveryFenceLifted(log: Log, i: nat)
    requires i <= |log|
  {
    forall j | 0 <= j < i && log[j] == Event(FenceRecorded, Done) :: exists m :: j < m < i && log[m].step == LiftFence
  }

  /** After every strict withdrawal so far comes a DR activation. */
  ghost predicate EveryWithdrawalOvertaken(log: Log, i: nat)
    requires i <= |log|
  {
    forall j | 0 <= j < i && log[j] == Event(Deactivate(Dr, false), Done) ::
      exists m :: j < m < i && log[m].step == Activate(Dr)
  }

  lemma LiftedExactlyWhenNotHeld(log: Log, i: nat)
    requires i <= |log|
    ensures EveryFenceLifted(log, i) <==> !exists j: nat :: FenceHeldSince(log, j, i)
  {
    if !EveryFenceLifted(log, i) {
      var j :| 0 <= j < i && log[j] == Event(FenceRecorded, Done) && forall m | j < m < i :: log[m].step != LiftFence;
      assert FenceHeldSince(log, j, i);
    }
  }

  lemma OvertakenExactlyWhenNotDown(log: Log, i: nat)
    requires i <= |log|
    ensures EveryWithdrawalOvertaken(log, i) <==> !exists j: nat :: DrDownSince(log, j, i)
  {
    if !EveryWithdrawalOvertaken(log, i) {
      var j :| 0 <= j < i && log[j] == Event(Deactivate(Dr, false), Done)
               && forall m | j < m < i :: log[m].step != Activate(Dr);
      assert DrDownSince(log, j, i);
    }
  }

  /**
    An activation of the DR route is unjustified exactly when every fence so far has been lifted, one
    of the primary route exactly when every strict withdrawal so far was overtaken by a DR activation.
   */
  lemma UnjustifiedExactly(log: Log, i: nat)
    requires i < |log|
    ensures log[i].step == Activate(Dr) ==>
              (JustifiedAt(log, i) <==> Fenced(log, i)) && (!JustifiedAt(log, i) <==> EveryFenceLifted(log, i))
    ensures log[i].step == Activate(Primary) ==>
              && (JustifiedAt(log, i) <==> Withdrawn(log, i))
              && (!JustifiedAt(log, i) <==> EveryWithdrawalOvertaken(log, i))
  {
    FencedExactly(log, i);
    WithdrawnExactly(log, i);
    LiftedExactlyWhenNotHeld(log, i);
    OvertakenExactlyWhenNotDown(log, i);
  }

  // ---------------------------------------------------------------- windows

  /** A promotion between the fence it has recorded and its activation of the DR route. */
  predicate InWindow(c: Config, call: Call) {
    call.kind.Promotion? && !call.handling && |Gate(c)| <= call.pos <= |Gate(c)| + 3 + |c.workloads|
  }

  /** A failback between its strict withdrawal of the DR route and its activation of the primary one. */
  predicate Exposed(c: Config, call: Call) {
    var m, n := |call.list|, |c.workloads|;
    call.kind.Failback? && !call.handling && 4 + m + n <= call.pos <= 4 + 2 * m + n
  }

  predicate Activates(c: Config, w: World, a: Action, site: Site) {
    a.Do? && CanStep(c, w, a.id) && NextStep(c, w, a.id) == Activate(site)
  }

  /** Only a promotion in its window activates the DR route, and only an exposed failback the primary one. */
  lemma ActivationsComeFromWindows(c: Config, call: Call)
    requires call.pos < |Script(c, call)|
    ensures Script(c, call)[call.pos] == Activate(Dr) ==> InWindow(c, call)
    ensures Script(c, call)[call.pos] == Activate(Primary) ==> Exposed(c, call)
  {
  }

  /** A window begins with the call's own fence, an exposure with its own strict withdrawal. */
  lemma WindowsBegin(c: Config, w: World, id: CallId, outcome: Outcome)
    requires CanStep(c, w, id) && MayEnd(c, w.calls[id], NextStep(c, w, id), outcome)
    requires Onward(c, w, id, outcome).Some?
    ensures var call, next := w.calls[id], Onward(c, w, id, outcome).value;
            && (InWindow(c, next) && !InWindow(c, call) ==> NextStep(c, w, id) == FenceRecorded && outcome == Done)
            && (Exposed(c, next) && !Exposed(c, call) ==>
                  NextStep(c, w, id) == Deactivate(Dr, false) && outcome == Done)
  {
    var call := w.calls[id];
    if call.kind.Promotion? && !call.handling && call.pos + 1 == |Gate(c)| {
      assert PromoteScript(c)[call.pos] == FenceRecorded;
    }
  }

  /** The log entry an action makes. */
  function Entry(c: Config, w: World, a: Action): Event
    requires Enabled(c, w, a) && (a.Do? || a.Lift?)
  {
    if a.Lift? then Event(LiftFence, Done) else Event(NextStep(c, w, a.id), a.outcome)
  }

  /** What an action does to one call and to the log. */
  lemma CallNext(c: Config, w: World, a: Action, id: CallId)
    requires Enabled(c, w, a) && id in After(c, w, a).calls
    ensures After(c, w, a).log == w.log + if a.Do? || a.Lift? then [Entry(c, w, a)] else []
    ensures var call := After(c, w, a).calls[id];
            || (id in w.calls && w.calls[id] == call)
            || (a.Begin? && call.pos == 0 && !call.handling)
            || (a.Do? && a.id == id && Onward(c, w, id, a.outcome) == Some(call))
  {
  }

  /** A window or exposure that is new came with the call's own fence or withdrawal. */
  lemma NewWindow(c: Config, w: World, a: Action, id: CallId)
    requires Enabled(c, w, a) && id in After(c, w, a).calls
    ensures var w' := After(c, w, a);
            && (InWindow(c, w'.calls[id]) && !(id in w.calls && InWindow(c, w.calls[id])) ==>
                  w'.log == w.log + [Event(FenceRecorded, Done)])
            && (Exposed(c, w'.calls[id]) && !(id in w.calls && Exposed(c, w.calls[id])) ==>
                  w'.log == w.log + [Event(Deactivate(Dr, false), Done)])
  {
    CallNext(c, w, a, id);
    if a.Do? && a.id == id {
      WindowsBegin(c, w, id, a.outcome);
    }
  }

  lemma {:induction false} WithdrawnStable(log: Log, log': Log, k: nat)
    requires k <= |log| && log <= log'
    ensures Withdrawn(log', k) == Withdrawn(log, k)
  {
    if k > 0 {
      WithdrawnStable(log, log', k - 1);
    }
  }

  lemma ReadingsNext(log: Log, e: Event)
    ensures Fenced(log + [e], |log| + 1) <==>
            e == Event(FenceRecorded, Done) || (e.step != LiftFence && Fenced(log, |log|))
    ensures Withdrawn(log + [e], |log| + 1) <==>
            e == Event(Deactivate(Dr, false), Done) || (e.step != Activate(Dr) && Withdrawn(log, |log|))
  {
    FailoverSafety.ReadingsStable(log, log + [e], |log|);
    WithdrawnStable(log, log + [e], |log|);
  }

  /** Every promotion in its window is fenced, every exposed failback has the DR route withdrawn. */
  ghost predicate WindowsHold(c: Config, w: World) {
    && (forall id | id in w.calls && InWindow(c, w.calls[id]) :: Fenced(w.log, |w.log|))
    && (forall id | id in w.calls && Exposed(c, w.calls[id]) :: Withdrawn(w.log, |w.log|))
  }

  /**
    What a caller has to see to: no lift while a promotion is in its window or both routes may be up,
    and no DR activation while a failback is exposed.
   */
  ghost predicate QuietAt(c: Config, w: World, a: Action) {
    && (a.Lift? ==>
          && !(Up(w.log, |w.log|, Primary) && Up(w.log, |w.log|, Dr))
          && forall id | id in w.calls :: !InWindow(c, w.calls[id]))
    && (Activates(c, w, a, Dr) ==> forall id | id in w.calls :: !Exposed(c, w.calls[id]))
  }

  lemma LogNext(c: Config, w: World, a: Action)
    requires Enabled(c, w, a)
    ensures After(c, w, a).log == w.log + if a.Do? || a.Lift? then [Entry(c, w, a)] else []
  {
  }

  /** How the readings move with an action. */
  lemma ReadingsAfter(c: Config, w: World, a: Action)
    requires Enabled(c, w, a)
    ensures var log, log' := w.log, After(c, w, a).log;
            && (Fenced(log, |log|) && !a.Lift? ==> Fenced(log', |log'|))
            && (Withdrawn(log, |log|) && !Activates(c, w, a, Dr) ==> Withdrawn(log', |log'|))
            && (log' == log + [Event(FenceRecorded, Done)] ==> Fenced(log', |log'|))
            && (log' == log + [Event(Deactivate(Dr, false), Done)] ==> Withdrawn(log', |log'|))
            && (a.Lift? ==> !Fenced(log', |log'|))
  {
    LogNext(c, w, a);
    if a.Do? || a.Lift? {
      ReadingsNext(w.log, Entry(c, w, a));
      if a.Do? {
        StepsNeverLift(c, w, a);
      }
    }
  }

  lemma StepsNeverLift(c: Config, w: World, a: Action)
    requires Enabled(c, w, a) && a.Do?
    ensures NextStep(c, w, a.id) != LiftFence
  {
  }

  lemma StepKeepsWindows(c: Config, w: World, a: Action)
    requires WindowsHold(c, w) && Enabled(c, w, a) && QuietAt(c, w, a)
    ensures WindowsHold(c, After(c, w, a))
  {
    var w' := After(c, w, a);
    ReadingsAfter(c, w, a);
    forall id | id in w'.calls
      ensures InWindow(c, w'.calls[id]) ==> Fenced(w'.log, |w'.log|)
      ensures Exposed(c, w'.calls[id]) ==> Withdrawn(w'.log, |w'.log|)
    {
      NewWindow(c, w, a, id);
    }
  }

  lemma EntryIsJustified(c: Config, w: World, a: Action)
    requires WindowsHold(c, w) && Enabled(c, w, a) && QuietAt(c, w, a) && (a.Do? || a.Lift?)
    ensures JustifiedAt(w.log + [Entry(c, w, a)], |w.log|)
  {
    var log' := w.log + [Entry(c, w, a)];
    FailoverSafety.ReadingsStable(w.log, log', |w.log|);
    WithdrawnStable(w.log, log', |w.log|);
    UnjustifiedExactly(log', |w.log|);
    if a.Do? {
      ActivationsComeFromWindows(c, w.calls[a.id]);
      StepsNeverLift(c, w, a);
    }
  }

  lemma StepKeepsJustified(c: Config, w: World, a: Action)
    requires WindowsHold(c, w) && Justified(w.log) && Enabled(c, w, a) && QuietAt(c, w, a)
    ensures Justified(After(c, w, a).log)
  {
    var log' := After(c, w, a).log;
    LogNext(c, w, a);
    if a.Do? || a.Lift? {
      EntryIsJustified(c, w, a);
    }
    forall i | 0 <= i < |log'| ensures JustifiedAt(log', i) {
      if i < |w.log| {
        FailoverSafety.JustifiedStable(w.log, log', i);
      }
    }
  }

  lemma {:induction false} QuietRunIsJustified(c: Config, states: seq<World>, actions: seq<Action>, i: nat)
    requires IsRun(c, states, actions) && i < |states|
    requires forall m | 0 <= m < i :: QuietAt(c, states[m], actions[m])
    ensures WindowsHold(c, states[i]) && Justified(states[i].log)
  {
    if i > 0 {
      QuietRunIsJustified(c, states, actions, i - 1);
      RunStep(c, states, actions, i - 1);
      StepKeepsWindows(c, states[i - 1], actions[i - 1]);
      StepKeepsJustified(c, states[i - 1], actions[i - 1]);
    }
  }

  /**
    However calls overlap and wherever they stop: while no fence is lifted inside a promotion's window
    and no promotion activates inside a failback's, both routes are up only while the primary is fenced.
   */
  lemma NoSplitBrainWhileQuiet(c: Config, states: seq<World>, actions: seq<Action>, i: nat, k: nat)
    requires IsRun(c, states, actions) && i < |states| && k <= |states[i].log|
    requires forall m | 0 <= m < i :: QuietAt(c, states[m], actions[m])
    ensures !SplitBrain(states[i].log, k)
  {
    QuietRunIsJustified(c, states, actions, i);
    FailoverSafety.JustifiedLogNeverSplits(states[i].log, k);
  }

  /** A window shows in the run log as a running failover, but for the one moment before its row is opened. */
  lemma WindowShowsInRunLog(c: Config, states: seq<World>, actions: seq<Action>, i: nat, id: CallId)
    requires IsRun(c, states, actions) && i < |states| && id in states[i].calls && InWindow(c, states[i].calls[id])
    ensures CanStep(c, states[i], id)
    ensures NextStep(c, states[i], id) == OpenRun(FailoverRun) ||
            exists n :: 0 <= n < |states[i].runs|
                        && states[i].runs[n].direction == FailoverRun && states[i].runs[n].status == Running
  {
    RunFits(c, states, actions, i);
    var call := states[i].calls[id];
    assert CallFits(c, states[i], call);
    if call.pos > |Gate(c)| {
      assert states[i].runs[call.run.value].status == Running;
    }
  }

  /** A window without the fence was so before the step, or the step was a lift; the same for an exposure. */
  lemma WindowNext(c: Config, w: World, a: Action, id: CallId)
    requires Enabled(c, w, a) && id in After(c, w, a).calls
    ensures var w' := After(c, w, a);
            && (InWindow(c, w'.calls[id]) && !Fenced(w'.log, |w'.log|) ==>
                  id in w.calls && InWindow(c, w.calls[id]) && (a.Lift? || !Fenced(w.log, |w.log|)))
            && (Exposed(c, w'.calls[id]) && !Withdrawn(w'.log, |w'.log|) ==>
                  id in w.calls && Exposed(c, w.calls[id]) && (ActivatesDr(w, w') || !Withdrawn(w.log, |w.log|)))
  {
    NewWindow(c, w, a, id);
    ReadingsAfter(c, w, a);
    LogNext(c, w, a);
  }

  /** The step between the worlds was an activation of the DR route, whether or not it returned. */
  predicate ActivatesDr(w: World, w': World) {
    |w'.log| == |w.log| + 1 && w'.log[|w.log|].step == Activate(Dr)
  }

  /**
    Why a DR activation comes out unfenced: since the promotion's own fence, a lift has landed in its
    window.
   */
  lemma {:induction false} WindowIsFencedUnlessLifted(
    c: Config, states: seq<World>, actions: seq<Action>, i: nat, id: CallId)
    requires IsRun(c, states, actions) && i < |states| && id in states[i].calls && InWindow(c, states[i].calls[id])
    ensures Fenced(states[i].log, |states[i].log|) || exists m :: LiftedInWindow(c, states, actions, m, i, id)
  {
    assert i > 0;
    var w, a := states[i - 1], actions[i - 1];
    RunStep(c, states, actions, i - 1);
    WindowNext(c, w, a, id);
    if !Fenced(states[i].log, |states[i].log|) {
      if a.Lift? {
        assert LiftedInWindow(c, states, actions, i - 1, i, id);
      } else {
        WindowIsFencedUnlessLifted(c, states, actions, i - 1, id);
        var m :| LiftedInWindow(c, states, actions, m, i - 1, id);
        assert LiftedInWindow(c, states, actions, m, i, id);
      }
    }
  }

  /** A lift at step `m` of the window that is still open before step `i`. */
  ghost predicate LiftedInWindow(c: Config, states: seq<World>, actions: seq<Action>, m: int, i: nat, id: CallId)
    requires i < |states| == |actions| + 1
  {
    && 0 <= m < i && actions[m] == Lift
    && forall x | m <= x <= i :: id in states[x].calls && InWindow(c, states[x].calls[id])
  }

  /**
    Why a primary activation comes out with the DR route not withdrawn: since the failback's own
    withdrawal, a promotion has activated the DR route.
   */
  lemma {:induction false} ExposedIsWithdrawnUnlessOvertaken(
    c: Config, states: seq<World>, actions: seq<Action>, i: nat, id: CallId)
    requires IsRun(c, states, actions) && i < |states| && id in states[i].calls && Exposed(c, states[i].calls[id])
    ensures Withdrawn(states[i].log, |states[i].log|) || exists m :: OvertakenWhileExposed(c, states, m, i, id)
  {
    assert i > 0;
    var w, a := states[i - 1], actions[i - 1];
    RunStep(c, states, actions, i - 1);
    WindowNext(c, w, a, id);
    if !Withdrawn(states[i].log, |states[i].log|) {
      if ActivatesDr(w, states[i]) {
        assert OvertakenWhileExposed(c, states, i - 1, i, id);
      } else {
        ExposedIsWithdrawnUnlessOvertaken(c, states, actions, i - 1, id);
        var m :| OvertakenWhileExposed(c, states, m, i - 1, id);
        assert OvertakenWhileExposed(c, states, m, i, id);
      }
    }
  }

  /** A DR activation at step `m` of the exposure that still lasts before step `i`. */
  ghost predicate OvertakenWhileExposed(c: Config, states: seq<World>, m: int, i: nat, id: CallId)
    requires i < |states|
  {
    && 0 <= m < i && ActivatesDr(states[m], states[m + 1])
    && forall x | m <= x <= i :: id in states[x].calls && Exposed(c, states[x].calls[id])
  }
}
