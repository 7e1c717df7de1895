/**
  The run log and the health counter while calls overlap: exactly when successful runs take turns.
 */
module OverlapLedger {
  import opened Common
  import opened Failover
  import opened Calls
  import opened OverlapSafety
  import FailoverSafety

  // ---------------------------------------------------------------- successes by row

  lemma {:induction false} SuccessesSplit(runs: seq<Run>, n: nat)
    requires n <= |runs|
    ensures Successes(runs) == Successes(runs[..n]) + Successes(runs[n..])
  {
    if n == |runs| {
      assert runs[..n] == runs && Successes(runs[n..]) == [];
    } else {
      var init := runs[..|runs| - 1];
      SuccessesSplit(init, n);
      assert init[..n] == runs[..n];
      assert runs[n..][..|runs| - n - 1] == init[n..];
    }
  }

  lemma {:induction false} NoSuccessesExactly(runs: seq<Run>)
    ensures Successes(runs) == [] <==> forall i | 0 <= i < |runs| :: runs[i].status != Succeeded
  {
    if runs != [] {
      var n := |runs| - 1;
      NoSuccessesExactly(runs[..n]);
      assert forall i | 0 <= i < n :: runs[..n][i] == runs[i];
    }
  }

  lemma {:induction false} SuccessesOfStatuses(runs: seq<Run>, runs': seq<Run>)
    requires |runs| <= |runs'|
    requires forall i | 0 <= i < |runs| ::
               && runs'[i].direction == runs[i].direction
               && (runs'[i].status == Succeeded <==> runs[i].status == Succeeded)
    requires forall i | |runs| <= i < |runs'| :: runs'[i].status != Succeeded
    ensures Successes(runs') == Successes(runs)
  {
    if runs' != [] {
      var n := |runs'| - 1;
      SuccessesOfStatuses(if |runs| == |runs'| then runs[..n] else runs, runs'[..n]);
    }
  }

  /** Who is active is told by the last success. */
  lemma ActiveIsLastSuccess(runs: seq<Run>)
    requires Increasing(runs)
    ensures var ds := Successes(runs); AlreadyFailedOver(runs) <==> ds != [] && ds[|ds| - 1] == FailoverRun
  {
    var clock := if runs == [] then 0 else runs[|runs| - 1].startedAt + 1;
    LatestIsLastSuccess(runs, clock);
  }

  // ---------------------------------------------------------------- closing a run as successful

  /** No run that started later has succeeded, and the admission check would pass once more. */
  ghost predicate StillAdmitted(runs: seq<Run>, n: nat)
    requires n < |runs|
  {
    && (forall m | n < m < |runs| :: runs[m].status != Succeeded)
    && (AlreadyFailedOver(runs) <==> runs[n].direction == FailbackRun)
  }

  /** The successes before and after row `n` is closed as successful. */
  lemma ClosedSuccesses(runs: seq<Run>, n: nat)
    requires n < |runs| && runs[n].status == Running
    ensures var early, late := Successes(runs[..n]), Successes(runs[n + 1..]);
            && Successes(runs) == early + late
            && Successes(runs[n := runs[n].(status := Succeeded)]) == early + [runs[n].direction] + late
  {
    var runs' := runs[n := runs[n].(status := Succeeded)];
    SuccessesSplit(runs, n);
    SuccessesSplit(runs[n..], 1);
    assert runs[n..][..1] == [runs[n]] && runs[n..][1..] == runs[n + 1..];
    SuccessesSplit(runs', n);
    SuccessesSplit(runs'[n..], 1);
    assert runs'[..n] == runs[..n] && runs'[n..][..1] == [runs'[n]] && runs'[n..][1..] == runs[n + 1..];
    SingleSuccess(runs[n]);
    SingleSuccess(runs'[n]);
  }

  lemma SingleSuccess(run: Run)
    ensures Successes([run]) == if run.status == Succeeded then [run.direction] else []
  {
    assert [run][..0] == [];
  }

  /** One more success keeps the turns only at the end, and only with the direction whose turn it is. */
  lemma InsertedAlternates(early: seq<Direction>, d: Direction, late: seq<Direction>)
    requires Alternates(early + late)
    ensures Alternates(early + [d] + late) <==> late == [] && (d == FailbackRun <==> |early| % 2 == 1)
  {
    var before, after := early + late, early + [d] + late;
    assert forall i | 0 <= i < |early| :: before[i] == after[i];
    assert after[|early|] == d;
    if late != [] {
      assert before[|early|] == after[|early| + 1] == late[0];
    }
  }

  /** A run closed as successful keeps the turns exactly when it is still admitted. */
  lemma CloseAlternatesExactly(runs: seq<Run>, n: nat)
    requires Increasing(runs) && n < |runs| && runs[n].status == Running && Alternates(Successes(runs))
    ensures Alternates(Successes(runs[n := runs[n].(status := Succeeded)])) <==> StillAdmitted(runs, n)
  {
    var early, late := Successes(runs[..n]), Successes(runs[n + 1..]);
    ClosedSuccesses(runs, n);
    ActiveIsLastSuccess(runs);
    NoSuccessesExactly(runs[n + 1..]);
    assert (forall m | n < m < |runs| :: runs[m].status != Succeeded) <==> late == [] by {
      forall m | n < m < |runs| ensures runs[n + 1..][m - n - 1] == runs[m] {
      }
    }
    InsertedAlternates(early, runs[n].direction, late);
  }

  // ---------------------------------------------------------------- over runs

  /** The step by which a call closes its run as successful. */
  predicate Succeeds(c: Config, w: World, a: Action) {
    a.Do? && CanStep(c, w, a.id) && NextStep(c, w, a.id) == CloseRun(true)
  }

  ghost predicate SucceedsAdmitted(c: Config, w: World, a: Action) {
    Succeeds(c, w, a) ==> StillAdmitted(w.runs, w.calls[a.id].run.value)
  }

  /** Every other step leaves the successes as they are. */
  lemma OtherStepsKeepSuccesses(c: Config, w: World, a: Action)
    requires Fits(c, w) && Enabled(c, w, a) && !Succeeds(c, w, a)
    ensures Successes(After(c, w, a).runs) == Successes(w.runs)
    ensures forall i | |w.runs| <= i < |After(c, w, a).runs| :: After(c, w, a).runs[i].status != Succeeded
    ensures |w.runs| <= |After(c, w, a).runs|
    ensures forall i | 0 <= i < |w.runs| && w.runs[i].status != Succeeded ::
              After(c, w, a).runs[i].status != Succeeded
  {
    if a.Do? {
      var call := w.calls[a.id];
      assert CallFits(c, w, call);
      RunsAfterKeepsOrder(w.runs, call.run, NextStep(c, w, a.id), a.outcome, a.at);
      SuccessesOfStatuses(w.runs, After(c, w, a).runs);
    }
  }

  /** What closing a run as successful does. */
  lemma SuccessCloses(c: Config, w: World, a: Action)
    requires Fits(c, w) && Enabled(c, w, a) && Succeeds(c, w, a)
    ensures var call := w.calls[a.id];
            && !call.kind.Demotion? && call.run.Some? && call.run.value < |w.runs|
            && var n := call.run.value;
            && w.runs[n].status == Running && w.runs[n].direction == DirectionOf(call.kind)
            && After(c, w, a).runs == w.runs[n := w.runs[n].(status := Succeeded)]
  {
    assert CallFits(c, w, w.calls[a.id]);
  }

  lemma StepAlternatesExactly(c: Config, w: World, a: Action)
    requires Fits(c, w) && Enabled(c, w, a) && Alternates(Successes(w.runs))
    ensures Alternates(Successes(After(c, w, a).runs)) <==> SucceedsAdmitted(c, w, a)
  {
    if Succeeds(c, w, a) {
      SuccessCloses(c, w, a);
      CloseAlternatesExactly(w.runs, w.calls[a.id].run.value);
    } else {
      OtherStepsKeepSuccesses(c, w, a);
    }
  }

  ghost predicate TurnsTaken(states: seq<World>, i: nat)
    requires i < |states|
  {
    forall m | 0 <= m <= i :: Alternates(Successes(states[m].runs))
  }

  ghost predicate AllAdmitted(c: Config, states: seq<World>, actions: seq<Action>, i: nat)
    requires i <= |actions| <= |states|
  {
    forall m | 0 <= m < i :: SucceedsAdmitted(c, states[m], actions[m])
  }

  /**
    However calls overlap: the successes have taken turns at every moment so far exactly when every
    run that was closed as successful was still admitted at its close.
   */
  lemma {:induction false} AlternatesExactly(c: Config, states: seq<World>, actions: seq<Action>, i: nat)
    requires IsRun(c, states, actions) && i < |states|
    ensures TurnsTaken(states, i) <==> AllAdmitted(c, states, actions, i)
  {
    if i > 0 {
      AlternatesExactly(c, states, actions, i - 1);
      if TurnsTaken(states, i - 1) {
        TurnsNext(c, states, actions, i - 1);
      }
      assert TurnsTaken(states, i) <==> TurnsTaken(states, i - 1) && Alternates(Successes(states[i].runs));
    }
  }

  lemma TurnsNext(c: Config, states: seq<World>, actions: seq<Action>, i: nat)
    requires IsRun(c, states, actions) && i < |actions| && Alternates(Successes(states[i].runs))
    ensures Alternates(Successes(states[i + 1].runs)) <==> SucceedsAdmitted(c, states[i], actions[i])
  {
    RunStep(c, states, actions, i);
    RunFits(c, states, actions, i);
    StepAlternatesExactly(c, states[i], actions[i]);
  }

  /** However calls overlap, the site that counts as active is the one the last successful run moved to. */
  lemma ActiveEver(c: Config, states: seq<World>, actions: seq<Action>, i: nat)
    requires IsRun(c, states, actions) && i < |states|
    ensures var ds := Successes(states[i].runs);
            AlreadyFailedOver(states[i].runs) <==> ds != [] && ds[|ds| - 1] == FailoverRun
  {
    RunFits(c, states, actions, i);
    ActiveIsLastSuccess(states[i].runs);
  }

  // ---------------------------------------------------------------- a run nobody overtook

  /** Call `id` began at action `b` and is still going at state `i`; no run has succeeded since. */
  ghost predicate Unovertaken(c: Config, states: seq<World>, actions: seq<Action>, b: nat, i: nat, id: CallId) {
    && |states| == |actions| + 1 && b < i < |states|
    && actions[b].Begin? && actions[b].id == id
    && (forall x | b < x <= i :: id in states[x].calls)
    && forall x | b < x < i :: !Succeeds(c, states[x], actions[x])
  }

  /** Nothing has succeeded between the worlds, and what call `id` has opened in the run log is new. */
  ghost predicate NothingNew(w: World, w': World, id: CallId, kind: Kind) {
    && id in w'.calls && w'.calls[id].kind == kind
    && Successes(w'.runs) == Successes(w.runs) && |w.runs| <= |w'.runs|
    && (w'.calls[id].run.Some? ==> w'.calls[id].run.value >= |w.runs|)
    && forall m | |w.runs| <= m < |w'.runs| :: w'.runs[m].status != Succeeded
  }

  lemma BeginsWithNothing(c: Config, w: World, a: Action)
    requires Enabled(c, w, a) && a.Begin?
    ensures NothingNew(w, After(c, w, a), a.id, a.kind)
  {
  }

  lemma StillNothingNew(c: Config, w: World, v: World, a: Action, id: CallId, kind: Kind)
    requires NothingNew(w, v, id, kind) && Fits(c, v) && Enabled(c, v, a) && !Succeeds(c, v, a)
    requires id in After(c, v, a).calls
    ensures NothingNew(w, After(c, v, a), id, kind)
  {
    OtherStepsKeepSuccesses(c, v, a);
    RowIsNew(c, v, a, id, |w.runs|);
  }

  lemma {:induction false} SinceBegin(
    c: Config, states: seq<World>, actions: seq<Action>, b: nat, i: nat, id: CallId)
    requires IsRun(c, states, actions) && Unovertaken(c, states, actions, b, i, id)
    ensures NothingNew(states[b], states[i], id, actions[b].kind)
  {
    var v, a := states[i - 1], actions[i - 1];
    RunStep(c, states, actions, i - 1);
    if i - 1 == b {
      BeginsWithNothing(c, v, a);
    } else {
      SinceBegin(c, states, actions, b, i - 1, id);
      RunFits(c, states, actions, i - 1);
      assert !Succeeds(c, v, a) && id in states[i].calls;
      StillNothingNew(c, states[b], v, a, id, actions[b].kind);
    }
  }

  /** A call keeps its kind, and a row it opens is a new one. */
  lemma RowIsNew(c: Config, w: World, a: Action, id: CallId, n: nat)
    requires Fits(c, w) && Enabled(c, w, a) && id in w.calls && id in After(c, w, a).calls && n <= |w.runs|
    requires w.calls[id].run.Some? ==> w.calls[id].run.value >= n
    ensures var call := After(c, w, a).calls[id];
            call.kind == w.calls[id].kind && (call.run.Some? ==> call.run.value >= n)
  {
    if a.Do? && a.id == id {
      SelfStillFits(c, w, id, a.outcome, a.at);
    }
  }

  /** A run closed as successful with no success since its call was admitted is still admitted. */
  lemma UnovertakenIsAdmitted(c: Config, states: seq<World>, actions: seq<Action>, b: nat, i: nat)
    requires IsRun(c, states, actions) && i < |actions| && Succeeds(c, states[i], actions[i])
    requires Unovertaken(c, states, actions, b, i, actions[i].id)
    ensures SucceedsAdmitted(c, states[i], actions[i])
  {
    var id := actions[i].id;
    RunStep(c, states, actions, b);
    RunStep(c, states, actions, i);
    RunFits(c, states, actions, b);
    RunFits(c, states, actions, i);
    SinceBegin(c, states, actions, b, i, id);
    SuccessCloses(c, states[i], actions[i]);
    NothingNewIsAdmitted(c, states[b], states[i], id, actions[b].kind);
  }

  lemma NothingNewIsAdmitted(c: Config, w: World, w': World, id: CallId, kind: Kind)
    requires Increasing(w.runs) && Increasing(w'.runs) && NothingNew(w, w', id, kind)
    requires Admits(w.runs, kind) && !kind.Demotion? && w'.calls[id].run.Some? && w'.calls[id].run.value < |w'.runs|
    requires w'.runs[w'.calls[id].run.value].direction == DirectionOf(kind)
    ensures StillAdmitted(w'.runs, w'.calls[id].run.value)
  {
    ActiveIsLastSuccess(w.runs);
    ActiveIsLastSuccess(w'.runs);
  }

  /** If no run succeeds between another successful run's admission and its close, successes take turns. */
  lemma UnovertakenRunsAlternate(c: Config, states: seq<World>, actions: seq<Action>, i: nat)
    requires IsRun(c, states, actions) && i < |states|
    requires forall m | 0 <= m < i && Succeeds(c, states[m], actions[m]) ::
               exists b: nat :: Unovertaken(c, states, actions, b, m, actions[m].id)
    ensures Alternates(Successes(states[i].runs))
  {
    forall m | 0 <= m < i ensures SucceedsAdmitted(c, states[m], actions[m]) {
      if Succeeds(c, states[m], actions[m]) {
        var b: nat :| Unovertaken(c, states, actions, b, m, actions[m].id);
        UnovertakenIsAdmitted(c, states, actions, b, m);
      }
    }
    AlternatesExactly(c, states, actions, i);
  }

  // ---------------------------------------------------------------- what a run lists

  /** The row of a promotion in its try block lists what it has restored so far. */
  ghost predicate RowLists(c: Config, w: World, call: Call) {
    call.kind.Promotion? && !call.handling && call.run.Some? ==>
      call.run.value < |w.runs| && w.runs[call.run.value].workloads == c.workloads[..PromoteRestores(c, call.pos)]
  }

  /** A successful failover lists every workload. */
  ghost predicate Lists(c: Config, w: World) {
    && (forall id | id in w.calls :: RowLists(c, w, w.calls[id]))
    && forall n | 0 <= n < |w.runs| :: ListsAll(c, w.runs[n])
  }

  predicate ListsAll(c: Config, run: Run) {
    run.direction == FailoverRun && run.status == Succeeded ==> run.workloads == c.workloads
  }

  /** A step of a promotion that does not raise leaves its row listing what it has restored by then. */
  lemma PromotionRowNext(c: Config, runs: seq<Run>, call: Call, outcome: Outcome, at: nat)
    requires call.kind.Promotion? && !call.handling && call.pos < |PromoteScript(c)| && outcome != Raised
    requires call.run.Some? <==> call.pos > |Gate(c)|
    requires call.run.Some? ==> call.run.value < |runs|
                                && runs[call.run.value].workloads == c.workloads[..PromoteRestores(c, call.pos)]
    requires outcome == Done || !PromoteStep(c, call.pos).Restore?
    ensures var step := PromoteStep(c, call.pos);
            var n := if step.OpenRun? then Some(|runs|) else call.run;
            (step.OpenRun? ==> outcome == Done) && n.Some? ==>
              && (NeedsRow(step) ==> call.run.Some?)
              && n.value < |RunsAfter(runs, call.run, step, outcome, at)|
              && RunsAfter(runs, call.run, step, outcome, at)[n.value].workloads ==
                 c.workloads[..PromoteRestores(c, call.pos + 1)]
  {
    FailoverSafety.RestoresStep(c, call.pos);
    var n := PromoteRestores(c, call.pos);
    if n < |c.workloads| {
      assert c.workloads[..n + 1] == c.workloads[..n] + [c.workloads[n]];
    }
  }

  lemma OwnRowLists(c: Config, w: World, id: CallId, outcome: Outcome, at: nat)
    requires Fits(c, w) && Lists(c, w) && Enabled(c, w, Do(id, outcome, at))
    ensures var w' := After(c, w, Do(id, outcome, at)); id in w'.calls ==> RowLists(c, w', w'.calls[id])
  {
    var call := w.calls[id];
    assert CallFits(c, w, call) && RowLists(c, w, call);
    if call.kind.Promotion? && !call.handling && outcome != Raised {
      assert NextStep(c, w, id) == PromoteStep(c, call.pos);
      PromotionRowNext(c, w.runs, call, outcome, at);
    }
  }

  lemma OtherRowsList(c: Config, w: World, id: CallId, outcome: Outcome, at: nat, other: CallId)
    requires Fits(c, w) && Lists(c, w) && Enabled(c, w, Do(id, outcome, at)) && other in w.calls && other != id
    ensures RowLists(c, After(c, w, Do(id, outcome, at)), w.calls[other])
  {
    assert CallFits(c, w, w.calls[other]) && RowsApart(w.calls[id], w.calls[other]);
    assert RowLists(c, w, w.calls[other]);
  }

  lemma ClosedRowListsAll(c: Config, w: World, id: CallId, outcome: Outcome, at: nat, n: nat)
    requires Fits(c, w) && Lists(c, w) && Enabled(c, w, Do(id, outcome, at))
    requires n < |After(c, w, Do(id, outcome, at)).runs|
    ensures ListsAll(c, After(c, w, Do(id, outcome, at)).runs[n])
  {
    var call := w.calls[id];
    assert CallFits(c, w, call) && RowLists(c, w, call);
    RowSteps(c, call);
    if n < |w.runs| {
      assert ListsAll(c, w.runs[n]);
    }
  }

  lemma StepKeepsLists(c: Config, w: World, a: Action)
    requires Fits(c, w) && Lists(c, w) && Enabled(c, w, a)
    ensures Lists(c, After(c, w, a))
  {
    if a.Do? {
      var w' := After(c, w, a);
      forall id | id in w'.calls ensures RowLists(c, w', w'.calls[id]) {
        if id == a.id {
          OwnRowLists(c, w, id, a.outcome, a.at);
        } else {
          OtherRowsList(c, w, a.id, a.outcome, a.at, id);
        }
      }
      forall n | 0 <= n < |w'.runs| ensures ListsAll(c, w'.runs[n]) {
        ClosedRowListsAll(c, w, a.id, a.outcome, a.at, n);
      }
    }
  }

  /** However calls overlap, a successful failover lists all configured workloads, in boot order. */
  lemma {:induction false} RunLists(c: Config, states: seq<World>, actions: seq<Action>, i: nat)
    requires IsRun(c, states, actions) && i < |states|
    ensures Lists(c, states[i])
  {
    if i > 0 {
      RunLists(c, states, actions, i - 1);
      RunFits(c, states, actions, i - 1);
      RunStep(c, states, actions, i - 1);
      StepKeepsLists(c, states[i - 1], actions[i - 1]);
    }
  }

  // ---------------------------------------------------------------- the health counter

  /** Whatever overlaps, the stored counter is the streak of bad evaluations. */
  lemma {:induction false} CounterIsStreak(c: Config, states: seq<World>, actions: seq<Action>, i: nat)
    requires IsRun(c, states, actions) && i < |states|
    ensures var w := states[i];
            && (w.health.None? <==> w.evaluations == [])
            && (w.health.Some? ==> w.health.value.consecutiveFailures == FailoverSafety.Streak(w.evaluations))
  {
    if i > 0 {
      CounterIsStreak(c, states, actions, i - 1);
      RunStep(c, states, actions, i - 1);
      var w, w' := states[i - 1], states[i];
      if actions[i - 1].Evaluate? {
        assert w'.evaluations[..|w'.evaluations| - 1] == w.evaluations;
      }
    }
  }
}
