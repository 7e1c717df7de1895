/**
  Runs that overlap badly, one for every configuration: a fence lifted inside a promotion, and a
  watch that promotes while a manual promotion is on its way.
 */
module OverlapRuns {
  import opened Common
  import opened Failover
  import opened Calls
  import opened OverlapSafety
  import opened OverlapLedger
  import FailoverSafety
  import FailoverQueries

  function Final<T>(s: seq<T>): T
    requires s != []
  {
    s[|s| - 1]
  }

  lemma Extend(c: Config, states: seq<World>, actions: seq<Action>, a: Action)
    requires IsRun(c, states, actions) && Enabled(c, Final(states), a)
    ensures IsRun(c, states + [After(c, Final(states), a)], actions + [a])
  {
    var states', actions' := states + [After(c, Final(states), a)], actions + [a];
    forall i | 0 <= i < |actions'| ensures StepAt(c, states', actions', i) {
      if i < |actions| {
        RunStep(c, states, actions, i);
      }
    }
  }

  predicate Step(a: Action, id: CallId) {
    a.Do? && a.id == id && a.outcome == Done
  }

  /** The rest of the run consists of steps of one call, all of which return. */
  ghost predicate OnlySteps(actions: seq<Action>, actions': seq<Action>, id: CallId) {
    actions <= actions' && forall i | |actions| <= i < |actions'| :: Step(actions'[i], id)
  }

  /** Between the worlds one call has gone on to step `q` of its script. */
  ghost predicate WentOn(c: Config, w: World, w': World, id: CallId, q: nat) {
    && id in w.calls && id in w'.calls
    && var call, call' := w.calls[id], w'.calls[id];
    && call.pos <= q < |Script(c, call)|
    && call' == call.(pos := q, run := call'.run)
    && w'.calls == w.calls[id := call']
    && |w'.log| == |w.log| + q - call.pos && w.log <= w'.log
    && (forall j | call.pos <= j < q :: w'.log[|w.log| + j - call.pos] == Event(Script(c, call)[j], Done))
    && RowKept(w.runs, w'.runs, call, call')
  }

  ghost predicate RowKept(runs: seq<Run>, runs': seq<Run>, call: Call, call': Call) {
    && |runs| <= |runs'|
    && (forall i | 0 <= i < |runs| && call.run != Some(i) :: runs'[i] == runs[i])
    && (call.run.Some? ==> call'.run == call.run && |runs'| == |runs|)
    && (call.run.None? ==> call'.run == if |runs'| == |runs| then None else Some(|runs|))
    && |runs'| <= |runs| + 1
  }

  function NextStart(runs: seq<Run>): nat {
    if runs == [] then 0 else Final(runs).startedAt + 1
  }

  /** Nothing of its own keeps the call from going on: its fence is accepted, or what it restores has been saved. */
  predicate Unhindered(c: Config, call: Call) {
    && (call.kind.Promotion? ==> FenceAccepted(c, call.kind))
    && (call.kind.Failback? ==> forall v | v in c.workloads :: v in call.list)
  }

  lemma RestoresAreListed(c: Config, call: Call)
    requires call.pos < |Script(c, call)| && Unhindered(c, call) && call.kind.Failback?
    ensures SavedFirst(call.list, Event(Script(c, call)[call.pos], Done))
  {
  }

  lemma StepMayReturn(c: Config, call: Call)
    requires call.pos < |Script(c, call)| && Unhindered(c, call)
    ensures MayEnd(c, call, Script(c, call)[call.pos], Done)
  {
    if call.kind.Failback? {
      RestoresAreListed(c, call);
    }
  }

  lemma NextStartIsLater(runs: seq<Run>)
    requires Increasing(runs)
    ensures StartsLater(runs, NextStart(runs))
  {
  }

  lemma StepIsEnabled(c: Config, w: World, id: CallId)
    requires Fits(c, w) && id in w.calls && w.calls[id].pos + 1 < |Script(c, w.calls[id])|
    requires Unhindered(c, w.calls[id])
    ensures Enabled(c, w, Do(id, Done, NextStart(w.runs)))
  {
    assert CallFits(c, w, w.calls[id]);
    FittingCallCanStep(c, w, id);
    StepMayReturn(c, w.calls[id]);
    NextStartIsLater(w.runs);
    EnabledWhen(c, w, id, NextStart(w.runs));
  }

  lemma EnabledWhen(c: Config, w: World, id: CallId, at: nat)
    requires CanStep(c, w, id) && StartsLater(w.runs, at)
    requires MayEnd(c, w.calls[id], Script(c, w.calls[id])[w.calls[id].pos], Done)
    ensures Enabled(c, w, Do(id, Done, at))
  {
  }

  lemma StepGoesOn(c: Config, w: World, id: CallId, at: nat)
    requires Enabled(c, w, Do(id, Done, at)) && w.calls[id].pos + 1 < |Script(c, w.calls[id])|
    ensures var call, w' := w.calls[id], After(c, w, Do(id, Done, at));
            && w'.log == w.log + [Event(NextStep(c, w, id), Done)]
            && w'.runs == RunsAfter(w.runs, call.run, NextStep(c, w, id), Done, at)
            && w'.calls == w.calls[id := call.(
                 pos := call.pos + 1, run := if NextStep(c, w, id).OpenRun? then Some(|w.runs|) else call.run)]
  {
  }

  lemma OneStep(c: Config, w: World, id: CallId)
    requires Fits(c, w) && id in w.calls && w.calls[id].pos + 1 < |Script(c, w.calls[id])|
    requires Unhindered(c, w.calls[id])
    ensures var a := Do(id, Done, NextStart(w.runs));
            Enabled(c, w, a) && WentOn(c, w, After(c, w, a), id, w.calls[id].pos + 1)
  {
    var call, at := w.calls[id], NextStart(w.runs);
    StepIsEnabled(c, w, id);
    StepGoesOn(c, w, id, at);
    assert CallFits(c, w, call);
    RowSteps(c, call);
    RowsKept(w.runs, call, NextStep(c, w, id), at);
  }

  lemma RowsKept(runs: seq<Run>, call: Call, step: Step, at: nat)
    requires NeedsRow(step) ==> call.run.Some? && call.run.value < |runs|
    requires step.OpenRun? ==> call.run.None?
    ensures RowKept(runs, RunsAfter(runs, call.run, step, Done, at), call,
                    call.(pos := call.pos + 1, run := if step.OpenRun? then Some(|runs|) else call.run))
  {
  }

  lemma OnwardFrom(c: Config, w: World, v: World, v': World, id: CallId, q: nat)
    requires WentOn(c, w, v, id, q) && WentOn(c, v, v', id, q + 1)
    ensures WentOn(c, w, v', id, q + 1)
  {
    assert Script(c, v.calls[id]) == Script(c, w.calls[id]);
    forall j | w.calls[id].pos <= j < q + 1
      ensures v'.log[|w.log| + j - w.calls[id].pos] == Event(Script(c, w.calls[id])[j], Done)
    {
    }
  }

  lemma GoOnce(c: Config, w: World, states: seq<World>, actions: seq<Action>, id: CallId, q: nat)
    returns (w': World, a: Action)
    requires IsRun(c, states, actions) && WentOn(c, w, Final(states), id, q) && q + 1 < |Script(c, w.calls[id])|
    requires Unhindered(c, w.calls[id])
    ensures IsRun(c, states + [w'], actions + [a]) && Step(a, id) && WentOn(c, w, w', id, q + 1)
  {
    var v := Final(states);
    RunFits(c, states, actions, |states| - 1);
    OneStep(c, v, id);
    a := Do(id, Done, NextStart(v.runs));
    w' := After(c, v, a);
    Extend(c, states, actions, a);
    OnwardFrom(c, w, v, w', id, q);
  }

  /** A call whose fence is accepted can go on, step by step, while nothing else happens. */
  lemma {:induction false} GoOn(c: Config, states: seq<World>, actions: seq<Action>, id: CallId, q: nat)
    returns (states': seq<World>, actions': seq<Action>)
    requires IsRun(c, states, actions) && id in Final(states).calls
    requires var call := Final(states).calls[id];
             call.pos <= q < |Script(c, call)| && Unhindered(c, call)
    ensures IsRun(c, states', actions') && states <= states' && OnlySteps(actions, actions', id)
    ensures WentOn(c, Final(states), Final(states'), id, q)
    decreases q
  {
    if Final(states).calls[id].pos == q {
      states', actions' := states, actions;
    } else {
      states', actions' := GoOn(c, states, actions, id, q - 1);
      var w, a := GoOnce(c, Final(states), states', actions', id, q - 1);
      states', actions' := states' + [w], actions' + [a];
    }
  }

  /** Between the worlds one promotion or failback has run to its end and succeeded. */
  ghost predicate RanToEnd(c: Config, w: World, w': World, id: CallId) {
    && id in w.calls
    && w'.calls == w.calls - {id}
    && Successes(w'.runs) == Successes(w.runs) + [DirectionOf(w.calls[id].kind)]
    && LoggedToEnd(c, w, w', w.calls[id])
  }

  ghost predicate LoggedToEnd(c: Config, w: World, w': World, call: Call) {
    && call.pos < |Script(c, call)|
    && |w'.log| == |w.log| + |Script(c, call)| - call.pos && w.log <= w'.log
    && forall j | call.pos <= j < |Script(c, call)| ::
         w'.log[|w.log| + j - call.pos] == Event(Script(c, call)[j], Done)
  }

  /** The last step of a promotion or failback closes its row as successful. */
  lemma CloseLast(c: Config, w: World, id: CallId)
    requires id in w.calls && CallFits(c, w, w.calls[id])
    requires var call := w.calls[id]; !call.kind.Demotion? && !call.handling && call.pos + 1 == |Script(c, call)|
    ensures Enabled(c, w, Do(id, Done, 0)) && Succeeds(c, w, Do(id, Done, 0)) && w.calls[id].run.Some?
    ensures var n := w.calls[id].run.value;
            After(c, w, Do(id, Done, 0)) ==
            World(w.log + [Event(CloseRun(true), Done)], w.runs[n := w.runs[n].(status := Succeeded)],
                  w.calls - {id}, w.health, w.evaluations)
  {
    FittingCallCanStep(c, w, id);
    RowSteps(c, w.calls[id]);
  }

  /** A promotion or failback that has no row yet and whose fence is accepted. */
  predicate CanComplete(c: Config, calls: map<CallId, Call>, id: CallId) {
    id in calls && calls[id].run.None? && !calls[id].kind.Demotion? && Unhindered(c, calls[id])
  }

  lemma RowAppended(runs: seq<Run>, longer: seq<Run>, direction: Direction)
    requires |longer| == |runs| + 1 && runs <= longer
    requires longer[|runs|].status == Running && longer[|runs|].direction == direction
    ensures Successes(longer) == Successes(runs)
    ensures Successes(longer[|runs| := longer[|runs|].(status := Succeeded)]) == Successes(runs) + [direction]
  {
    var n := |runs|;
    ClosedSuccesses(longer, n);
    assert longer[..n] == runs && longer[n + 1..] == [];
  }

  /** The row of a call that has gone on to its last step. */
  lemma OpenedRow(c: Config, w: World, v: World, id: CallId)
    requires CanComplete(c, w.calls, id) && CallFits(c, w, w.calls[id])
    requires WentOn(c, w, v, id, |Script(c, w.calls[id])| - 1) && CallFits(c, v, v.calls[id])
    ensures !v.calls[id].handling && v.calls[id].run == Some(|w.runs|)
    ensures |v.runs| == |w.runs| + 1 && w.runs <= v.runs
    ensures v.runs[|w.runs|].status == Running && v.runs[|w.runs|].direction == DirectionOf(w.calls[id].kind)
  {
  }

  ghost predicate AtLast(c: Config, w: World, v: World, id: CallId) {
    var a := Do(id, Done, 0);
    && Enabled(c, v, a) && RanToEnd(c, w, After(c, v, a), id)
    && Succeeds(c, v, a) && Successes(v.runs) == Successes(w.runs)
  }

  /** Going on to the last step, and closing. */
  lemma WentToEnd(c: Config, w: World, v: World, id: CallId)
    requires CanComplete(c, w.calls, id) && CallFits(c, w, w.calls[id])
    requires WentOn(c, w, v, id, |Script(c, w.calls[id])| - 1) && CallFits(c, v, v.calls[id])
    ensures AtLast(c, w, v, id)
  {
    OpenedRow(c, w, v, id);
    RowAppended(w.runs, v.runs, DirectionOf(w.calls[id].kind));
    CloseLast(c, v, id);
    LastEntry(c, w, v, id);
    assert v.calls - {id} == w.calls - {id};
  }

  lemma LastEntry(c: Config, w: World, v: World, id: CallId)
    requires CanComplete(c, w.calls, id) && CallFits(c, w, w.calls[id])
    requires WentOn(c, w, v, id, |Script(c, w.calls[id])| - 1)
    ensures var call, log := w.calls[id], v.log + [Event(CloseRun(true), Done)];
            && |log| == |w.log| + |Script(c, call)| - call.pos && w.log <= log
            && forall j | call.pos <= j < |Script(c, call)| ::
                 log[|w.log| + j - call.pos] == Event(Script(c, call)[j], Done)
  {
    var call := w.calls[id];
    RowSteps(c, call.(pos := |Script(c, call)| - 1));
  }

  /** Such a call can go on to its last step, which can close its row. */
  lemma GoOnToLast(c: Config, states: seq<World>, actions: seq<Action>, id: CallId)
    returns (states': seq<World>, actions': seq<Action>)
    requires IsRun(c, states, actions) && CanComplete(c, Final(states).calls, id)
    ensures IsRun(c, states', actions') && OnlySteps(actions, actions', id)
    ensures AtLast(c, Final(states), Final(states'), id)
  {
    var w := Final(states);
    RunFits(c, states, actions, |states| - 1);
    assert CallFits(c, w, w.calls[id]);
    var last := |Script(c, w.calls[id])| - 1;
    states', actions' := GoOn(c, states, actions, id, last);
    RunFits(c, states', actions', |states'| - 1);
    assert CallFits(c, Final(states'), Final(states').calls[id]);
    WentToEnd(c, w, Final(states'), id);
  }

  /** Such a call can run to its end while nothing else happens. */
  lemma Complete(c: Config, states: seq<World>, actions: seq<Action>, id: CallId)
    returns (states': seq<World>, actions': seq<Action>)
    requires IsRun(c, states, actions) && CanComplete(c, Final(states).calls, id)
    ensures IsRun(c, states', actions') && OnlySteps(actions, actions', id)
    ensures RanToEnd(c, Final(states), Final(states'), id)
    ensures |actions| < |actions'| && Succeeds(c, states'[|actions'| - 1], Final(actions'))
    ensures Successes(states'[|actions'| - 1].runs) == Successes(Final(states).runs)
  {
    var before, steps := GoOnToLast(c, states, actions, id);
    var v, a := Final(before), Do(id, Done, 0);
    Extend(c, before, steps, a);
    states', actions' := before + [After(c, v, a)], steps + [a];
    assert states'[|actions'| - 1] == v;
  }

  // ---------------------------------------------------------------- reading a log

  lemma {:induction false} PrimaryUpUntilWithdrawn(log: Log, k: nat)
    requires k <= |log|
    requires forall j | 0 <= j < k ::
               !(log[j].step.Deactivate? && log[j].step.site == Primary && log[j].outcome == Done)
    ensures Up(log, k, Primary)
  {
    if k > 0 {
      PrimaryUpUntilWithdrawn(log, k - 1);
    }
  }

  lemma {:induction false} DownUntilActivated(log: Log, j: nat, k: nat, site: Site)
    requires j <= k <= |log| && !Up(log, j, site)
    requires forall m | j <= m < k :: log[m].step != Activate(site)
    ensures !Up(log, k, site)
  {
    if j < k {
      DownUntilActivated(log, j, k - 1, site);
    }
  }

  lemma {:induction false} UnfencedSinceLift(log: Log, j: nat, k: nat)
    requires j < k <= |log| && log[j].step == LiftFence
    requires forall m | j < m < k :: log[m].step != FenceRecorded
    ensures !Fenced(log, k)
  {
    if j + 1 < k {
      UnfencedSinceLift(log, j, k - 1);
    }
  }

  // ---------------------------------------------------------------- two promotions

  const WATCH := Promotion(true, false)
  const MANUAL := Promotion(false, true)

  const WATCHING := Call(WATCH, 0, false, None, [])
  const PROMOTING := Call(MANUAL, 0, false, None, [])

  /** So far every step has returned, and these calls are on their way, with these successes. */
  ghost predicate Reaches(
    c: Config, states: seq<World>, actions: seq<Action>, calls: map<CallId, Call>, ds: seq<Direction>)
  {
    && IsRun(c, states, actions) && Final(states).calls == calls && Successes(Final(states).runs) == ds
    && [Begin(0, WATCH), Begin(1, MANUAL)] <= actions
    && forall x | 0 <= x < |actions| :: AsPlanned(actions[x], x)
  }

  /** The watch is admitted first; every step returns. */
  predicate AsPlanned(a: Action, x: nat) {
    if a.Begin? then a.id == 0 ==> x == 0 else a.Do? && a.outcome == Done
  }

  /** A watch is admitted, then a manual promotion. */
  lemma BothAdmitted(c: Config) returns (states: seq<World>, actions: seq<Action>)
    ensures Reaches(c, states, actions, map[0 := WATCHING, 1 := PROMOTING], [])
    ensures Final(states).log == []
  {
    states, actions := [START], [];
    Extend(c, states, actions, Begin(0, WATCH));
    states, actions := states + [After(c, START, Begin(0, WATCH))], actions + [Begin(0, WATCH)];
    Extend(c, states, actions, Begin(1, MANUAL));
    states, actions := states + [After(c, Final(states), Begin(1, MANUAL))], actions + [Begin(1, MANUAL)];
  }

  lemma StillAsPlanned(actions: seq<Action>, actions': seq<Action>, id: CallId)
    requires OnlySteps(actions, actions', id)
    requires forall x | 0 <= x < |actions| :: AsPlanned(actions[x], x)
    ensures forall x | 0 <= x < |actions'| :: AsPlanned(actions'[x], x)
  {
    forall x | 0 <= x < |actions'| ensures AsPlanned(actions'[x], x) {
      if x < |actions| {
        assert actions'[x] == actions[x];
      } else {
        assert Step(actions'[x], id);
      }
    }
  }

  /** Call `id` can run to its end, and this is what is then left and what has then succeeded. */
  ghost predicate Leaves(
    c: Config, calls: map<CallId, Call>, ds: seq<Direction>, id: CallId, rest: map<CallId, Call>, ds': seq<Direction>)
  {
    CanComplete(c, calls, id) && rest == calls - {id} && ds' == ds + [DirectionOf(calls[id].kind)]
  }

  lemma NextCompletes(
    c: Config, states: seq<World>, actions: seq<Action>, calls: map<CallId, Call>, ds: seq<Direction>, id: CallId,
    rest: map<CallId, Call>, ds': seq<Direction>)
    returns (states': seq<World>, actions': seq<Action>)
    requires Reaches(c, states, actions, calls, ds) && Leaves(c, calls, ds, id, rest, ds')
    ensures Reaches(c, states', actions', rest, ds')
    ensures Succeeds(c, states'[|actions'| - 1], Final(actions')) && Final(actions').id == id
    ensures Successes(states'[|actions'| - 1].runs) == ds
  {
    states', actions' := Complete(c, states, actions, id);
    StillAsPlanned(actions, actions', id);
  }

  /** Either promotion leaves the other, and then nothing. */
  lemma EitherLeaves(c: Config, ds: seq<Direction>)
    requires c.fence.Command?
    ensures Leaves(c, map[0 := WATCHING, 1 := PROMOTING], ds, 0, map[1 := PROMOTING], ds + [FailoverRun])
    ensures Leaves(c, map[0 := WATCHING, 1 := PROMOTING], ds, 1, map[0 := WATCHING], ds + [FailoverRun])
    ensures Leaves(c, map[0 := WATCHING], ds, 0, map[], ds + [FailoverRun])
    ensures Leaves(c, map[1 := PROMOTING], ds, 1, map[], ds + [FailoverRun])
  {
    assert map[0 := WATCHING, 1 := PROMOTING] - {0} == map[1 := PROMOTING];
    assert map[0 := WATCHING, 1 := PROMOTING] - {1} == map[0 := WATCHING];
    assert map[0 := WATCHING] - {0} == map[] && map[1 := PROMOTING] - {1} == map[];
  }

  lemma TwoInARow()
    ensures [FailoverRun] + [FailoverRun] == [FailoverRun, FailoverRun] && !Alternates([FailoverRun, FailoverRun])
    ensures [] + [FailoverRun] == [FailoverRun]
    ensures [FailoverRun, FailbackRun] + [FailoverRun] == [FailoverRun, FailbackRun, FailoverRun]
    ensures Alternates([FailoverRun, FailbackRun, FailoverRun])
  {
    assert [FailoverRun, FailoverRun][1] == FailoverRun;
  }

  /**
    Where the fence is a command, a watch and a manual promotion that are both admitted before either
    closes can both return: two successful failovers in a row.
   */
  lemma TwoPromotionsBothReturn(c: Config) returns (states: seq<World>, actions: seq<Action>)
    requires c.fence.Command?
    ensures Reaches(c, states, actions, map[], [FailoverRun, FailoverRun])
    ensures !Alternates([FailoverRun, FailoverRun])
  {
    TwoInARow();
    EitherLeaves(c, [FailoverRun]);
    states, actions := WatchReturns(c);
    states, actions := NextCompletes(c, states, actions, map[1 := PROMOTING], [FailoverRun], 1,
      map[], [FailoverRun, FailoverRun]);
  }

  /** Of the two, the watch's promotion returns. */
  lemma WatchReturns(c: Config) returns (states: seq<World>, actions: seq<Action>)
    requires c.fence.Command?
    ensures Reaches(c, states, actions, map[1 := PROMOTING], [FailoverRun])
  {
    TwoInARow();
    EitherLeaves(c, []);
    states, actions := BothAdmitted(c);
    states, actions := NextCompletes(c, states, actions, map[0 := WATCHING, 1 := PROMOTING], [], 0,
      map[1 := PROMOTING], [FailoverRun]);
  }

  /** Of the two, the manual promotion returns. */
  lemma ManualReturns(c: Config) returns (states: seq<World>, actions: seq<Action>)
    requires c.fence.Command?
    ensures Reaches(c, states, actions, map[0 := WATCHING], [FailoverRun])
  {
    TwoInARow();
    EitherLeaves(c, []);
    states, actions := BothAdmitted(c);
    states, actions := NextCompletes(c, states, actions, map[0 := WATCHING, 1 := PROMOTING], [], 1,
      map[0 := WATCHING], [FailoverRun]);
  }

  lemma LatestListsAll(c: Config, w: World)
    requires Increasing(w.runs) && Lists(c, w) && Latest(w.runs, FailoverRun).Some?
    ensures Latest(w.runs, FailoverRun).value.workloads == c.workloads
  {
    FailoverQueries.LatestExactly(w.runs, NextStart(w.runs), FailoverRun);
    var i: nat :| FailoverQueries.LastSuccess(w.runs, FailoverRun, i)
                  && Latest(w.runs, FailoverRun).value == w.runs[i];
    assert ListsAll(c, w.runs[i]);
  }

  lemma FailbackBegins(c: Config, states: seq<World>, actions: seq<Action>)
    returns (states': seq<World>, actions': seq<Action>)
    requires Reaches(c, states, actions, map[0 := WATCHING], [FailoverRun])
    ensures states' != [] && Reaches(c, states', actions', Final(states').calls, [FailoverRun])
    ensures Leaves(c, Final(states').calls, [FailoverRun], 2, map[0 := WATCHING], [FailoverRun, FailbackRun])
  {
    RunFits(c, states, actions, |states| - 1);
    ActiveIsLastSuccess(Final(states).runs);
    RunLists(c, states, actions, |states| - 1);
    LatestListsAll(c, Final(states));
    Extend(c, states, actions, Begin(2, Failback));
    states', actions' := states + [After(c, Final(states), Begin(2, Failback))], actions + [Begin(2, Failback)];
    FailbackLeaves(c, Final(states'));
  }

  lemma FailbackLeaves(c: Config, w: World)
    requires w.calls == map[0 := WATCHING, 2 := Call(Failback, 0, false, None, c.workloads)]
    ensures Leaves(c, w.calls, [FailoverRun], 2, map[0 := WATCHING], [FailoverRun, FailbackRun])
  {
    assert w.calls - {2} == map[0 := WATCHING];
  }

  /** While the watch's promotion is on its way, a manual promotion and its failback succeed. */
  lemma ThereAndBack(c: Config) returns (states: seq<World>, actions: seq<Action>)
    requires c.fence.Command?
    ensures Reaches(c, states, actions, map[0 := WATCHING], [FailoverRun, FailbackRun])
  {
    states, actions := ManualReturns(c);
    states, actions := FailbackBegins(c, states, actions);
    states, actions := NextCompletes(c, states, actions, Final(states).calls, [FailoverRun], 2,
      map[0 := WATCHING], [FailoverRun, FailbackRun]);
  }

  /**
    The admission of a run may be overtaken and the successes still take turns: a watch is admitted, a
    manual promotion and its failback succeed, and then the watch's promotion does.
   */
  lemma OvertakenRunsMayAlternate(c: Config) returns (states: seq<World>, actions: seq<Action>)
    requires c.fence.Command?
    ensures Reaches(c, states, actions, map[], [FailoverRun, FailbackRun, FailoverRun])
    ensures Succeeds(c, states[|actions| - 1], Final(actions)) && Final(actions).id == 0
    ensures Successes(states[|actions| - 1].runs) == [FailoverRun, FailbackRun]
    ensures Alternates([FailoverRun, FailbackRun, FailoverRun])
  {
    TwoInARow();
    EitherLeaves(c, [FailoverRun, FailbackRun]);
    states, actions := ThereAndBack(c);
    states, actions := NextCompletes(c, states, actions, map[0 := WATCHING], [FailoverRun, FailbackRun], 0,
      map[], [FailoverRun, FailbackRun, FailoverRun]);
  }

  /** A manual promotion has opened its run, the watch's promotion has not. */
  lemma OneOpens(c: Config) returns (states: seq<World>, actions: seq<Action>)
    requires c.fence.Command?
    ensures IsRun(c, states, actions) && Successes(Final(states).runs) == []
    ensures Final(states).calls.Keys == {0, 1} && Final(states).calls[0] == WATCHING
    ensures HasOpened(c, Final(states))
  {
    var before, begun := BothAdmitted(c);
    states, actions := GoOn(c, before, begun, 1, |Gate(c)| + 1);
    RunFits(c, states, actions, |states| - 1);
    OneHasOpened(c, Final(before), Final(states));
  }

  lemma OneHasOpened(c: Config, w: World, w': World)
    requires w.calls == map[0 := WATCHING, 1 := PROMOTING] && Successes(w.runs) == []
    requires WentOn(c, w, w', 1, |Gate(c)| + 1) && CallFits(c, w', w'.calls[1])
    ensures Successes(w'.runs) == [] && w'.calls.Keys == {0, 1} && w'.calls[0] == WATCHING && HasOpened(c, w')
  {
    assert |w'.runs| > |w.runs| ==> w'.calls[1].run == Some(|w.runs|);
    SuccessesOfStatuses(w.runs, w'.runs);
  }

  predicate HasOpened(c: Config, w: World) {
    1 in w.calls && w.calls[1] == PROMOTING.(pos := |Gate(c)| + 1, run := w.calls[1].run)
  }

  /** A manual promotion has opened its run when the watch's promotion runs to its end. */
  lemma FirstReturns(c: Config) returns (states: seq<World>, actions: seq<Action>, w: World)
    requires c.fence.Command?
    ensures IsRun(c, states, actions) && Successes(Final(states).runs) == [FailoverRun]
    ensures LoggedToEnd(c, w, Final(states), WATCHING) && HasOpened(c, Final(states))
  {
    var before, begun := OneOpens(c);
    w := Final(before);
    states, actions := Complete(c, before, begun, 0);
  }

  /** The handler of a promotion whose preparation of the DR site raised. */
  lemma PreparationRaises(c: Config, states: seq<World>, actions: seq<Action>)
    returns (states': seq<World>, actions': seq<Action>)
    requires IsRun(c, states, actions) && HasOpened(c, Final(states))
    ensures IsRun(c, states', actions') && Final(states').runs == Final(states).runs
    ensures Final(states').log == Final(states).log + [Event(Prepare(Dr), Raised), Event(Deactivate(Dr, true), Done)]
  {
    var w, a, b := Final(states), Do(1, Raised, 0), Do(1, Done, 0);
    RunFits(c, states, actions, |states| - 1);
    HandlerWithdraws(c, w);
    Extend(c, states, actions, a);
    var v := After(c, w, a);
    Extend(c, states + [v], actions + [a], b);
    states', actions' := states + [v] + [After(c, v, b)], actions + [a] + [b];
  }

  lemma HandlerWithdraws(c: Config, w: World)
    requires HasOpened(c, w) && CallFits(c, w, w.calls[1])
    ensures Enabled(c, w, Do(1, Raised, 0))
    ensures var v, b := After(c, w, Do(1, Raised, 0)), Do(1, Done, 0);
            && Enabled(c, v, b) && After(c, v, b).runs == w.runs
            && After(c, v, b).log == w.log + [Event(Prepare(Dr), Raised), Event(Deactivate(Dr, true), Done)]
  {
    FittingCallCanStep(c, w, 1);
    assert NextStep(c, w, 1) == PromoteStep(c, |Gate(c)| + 1) == Prepare(Dr);
    var v := After(c, w, Do(1, Raised, 0));
    assert NextStep(c, v, 1) == Deactivate(Dr, true);
  }

  /**
    Where the fence is a command: a promotion has returned, then one admitted before it fails, and its
    handler withdraws the DR route. Neither route is up, and the run log still has the DR site active.
   */
  lemma LateFailureWithdrawsTheOther(c: Config) returns (states: seq<World>, actions: seq<Action>)
    requires c.fence.Command?
    ensures IsRun(c, states, actions) && AlreadyFailedOver(Final(states).runs)
    ensures forall site :: !Up(Final(states).log, |Final(states).log|, site)
  {
    var before, begun, w := FirstReturns(c);
    states, actions := PreparationRaises(c, before, begun);
    RunFits(c, states, actions, |states| - 1);
    ActiveIsLastSuccess(Final(states).runs);
    PrimaryStaysDown(c, w, Final(before), Final(states).log);
  }

  lemma PrimaryStaysDown(c: Config, w: World, v: World, log: Log)
    requires LoggedToEnd(c, w, v, WATCHING)
    requires log == v.log + [Event(Prepare(Dr), Raised), Event(Deactivate(Dr, true), Done)]
    ensures !Up(log, |log|, Primary)
  {
    var j := |w.log| + |Gate(c)| + 2;
    assert Script(c, WATCHING)[|Gate(c)| + 2] == PromoteStep(c, |Gate(c)| + 2) == Deactivate(Primary, true);
    assert log[j] == Event(Deactivate(Primary, true), Done);
    forall m | j < m < |log| ensures log[m].step != Activate(Primary) {
      if m < |v.log| {
        assert log[m].step == Script(c, WATCHING)[m - |w.log|] == PromoteStep(c, m - |w.log|);
      }
    }
    DownUntilActivated(log, j + 1, |log|, Primary);
  }

  // ---------------------------------------------------------------- a lift inside a promotion

  /** A promotion up to its activation, its primary withdrawal tolerated, the fence lifted after `r` restores. */
  function LiftedEvent(c: Config, r: nat, k: nat): Event
    requires r <= |c.workloads| && k < |Gate(c)| + 5 + |c.workloads|
  {
    var g := |Gate(c)|;
    if k == g + 2 then Event(Deactivate(Primary, true), Tolerated)
    else if k < g + 3 + r then Event(PromoteStep(c, k), Done)
    else if k == g + 3 + r then Event(LiftFence, Done)
    else Event(PromoteStep(c, k - 1), Done)
  }

  function LiftedLog(c: Config, r: nat): (log: Log)
    requires r <= |c.workloads|
  {
    seq(|Gate(c)| + 5 + |c.workloads|,
        k requires 0 <= k < |Gate(c)| + 5 + |c.workloads| => LiftedEvent(c, r, k))
  }

  lemma LiftedLogSplits(c: Config, r: nat)
    requires r <= |c.workloads|
    ensures var log := LiftedLog(c, r);
            SplitBrain(log, |log|) && !Up(log, |Gate(c)| + 3 + r, Dr) && log[|Gate(c)| + 3 + r].step == LiftFence
  {
    var log, lift := LiftedLog(c, r), |Gate(c)| + 3 + r;
    PrimaryUpUntilWithdrawn(log, |log|);
    assert log[|log| - 1].step == PromoteStep(c, |log| - 2) == Activate(Dr);
    UnfencedSinceLift(log, lift, |log|);
    DownUntilActivated(log, 0, lift, Dr);
  }

  /** A manual promotion alone is at step `pos`, the log so far is the first `k` entries of the lifted log. */
  ghost predicate Lifting(c: Config, r: nat, states: seq<World>, actions: seq<Action>, pos: nat, k: nat)
    requires r <= |c.workloads|
  {
    && IsRun(c, states, actions) && k <= |LiftedLog(c, r)| && Final(states).log == LiftedLog(c, r)[..k]
    && 0 in Final(states).calls
    && var call := Final(states).calls[0];
    && call.kind == MANUAL && !call.handling && call.pos == pos < |PromoteScript(c)|
    && forall x | 0 < x < |actions| :: !actions[x].Begin?
  }

  lemma LiftingGoesOn(c: Config, r: nat, states: seq<World>, actions: seq<Action>, pos: nat, k: nat, q: nat)
    returns (states': seq<World>, actions': seq<Action>)
    requires r <= |c.workloads| && Lifting(c, r, states, actions, pos, k) && actions != []
    requires pos <= q < |PromoteScript(c)| && k + q - pos <= |LiftedLog(c, r)|
    requires forall j | pos <= j < q :: LiftedLog(c, r)[k + j - pos] == Event(PromoteStep(c, j), Done)
    ensures Lifting(c, r, states', actions', q, k + q - pos) && actions <= actions' && states <= states'
  {
    var log := LiftedLog(c, r);
    states', actions' := GoOn(c, states, actions, 0, q);
    var w' := Final(states');
    forall i | 0 <= i < |w'.log| ensures w'.log[i] == log[i] {
      if i >= k {
        assert PromoteScript(c)[i - k + pos] == PromoteStep(c, i - k + pos);
      } else {
        assert w'.log[i] == Final(states).log[i];
      }
    }
    assert w'.log == log[..k + q - pos];
    forall x | 0 < x < |actions'| ensures !actions'[x].Begin? {
      assert x < |actions| ==> actions'[x] == actions[x];
      assert x >= |actions| ==> Step(actions'[x], 0);
    }
  }

  /** A promotion whose primary withdrawal was tolerated, and that has restored `r` workloads. */
  lemma BeforeTheLift(c: Config, r: nat) returns (states: seq<World>, actions: seq<Action>)
    requires r <= |c.workloads|
    ensures var k := |Gate(c)| + 3 + r; Lifting(c, r, states, actions, k, k)
    ensures actions != []
  {
    var g := |Gate(c)|;
    states, actions := [START], [];
    Extend(c, states, actions, Begin(0, MANUAL));
    states, actions := states + [After(c, START, Begin(0, MANUAL))], actions + [Begin(0, MANUAL)];
    states, actions := LiftingGoesOn(c, r, states, actions, 0, 0, g + 2);
    states, actions := WithdrawalTolerated(c, r, states, actions);
    states, actions := LiftingGoesOn(c, r, states, actions, g + 3, g + 3, g + 3 + r);
  }

  lemma WithdrawalTolerated(c: Config, r: nat, states: seq<World>, actions: seq<Action>)
    returns (states': seq<World>, actions': seq<Action>)
    requires r <= |c.workloads| && Lifting(c, r, states, actions, |Gate(c)| + 2, |Gate(c)| + 2) && actions != []
    ensures Lifting(c, r, states', actions', |Gate(c)| + 3, |Gate(c)| + 3) && actions' != []
  {
    var w, a := Final(states), Do(0, Tolerated, 0);
    RunFits(c, states, actions, |states| - 1);
    assert CallFits(c, w, w.calls[0]);
    WithdrawalIsTolerated(c, w);
    Extend(c, states, actions, a);
    states', actions' := states + [After(c, w, a)], actions + [a];
  }

  lemma WithdrawalIsTolerated(c: Config, w: World)
    requires 0 in w.calls && w.calls[0].kind == MANUAL && !w.calls[0].handling && w.calls[0].pos == |Gate(c)| + 2
    requires CallFits(c, w, w.calls[0])
    ensures var a := Do(0, Tolerated, 0);
            && Enabled(c, w, a) && After(c, w, a).log == w.log + [Event(Deactivate(Primary, true), Tolerated)]
            && After(c, w, a).calls == w.calls[0 := w.calls[0].(pos := |Gate(c)| + 3)]
  {
    FittingCallCanStep(c, w, 0);
    assert NextStep(c, w, 0) == PromoteStep(c, |Gate(c)| + 2);
  }

  /**
    In every configuration, after any number of restores: the fence is lifted while the DR route is
    still down, and the promotion under way activates it all the same. Both routes are then up, unfenced.
   */
  lemma LiftInsidePromotionSplits(c: Config, r: nat)
    returns (states: seq<World>, actions: seq<Action>, m: nat)
    requires r <= |c.workloads|
    ensures IsRun(c, states, actions) && forall x | 0 < x < |actions| :: !actions[x].Begin?
    ensures m < |actions| && actions[m] == Lift && !Up(states[m].log, |states[m].log|, Dr)
    ensures SplitBrain(Final(states).log, |Final(states).log|)
  {
    states, actions, m := LiftedRun(c, r);
    LiftedLogSplits(c, r);
    PrefixReads(LiftedLog(c, r), |Gate(c)| + 3 + r);
  }

  lemma LiftedRun(c: Config, r: nat) returns (states: seq<World>, actions: seq<Action>, m: nat)
    requires r <= |c.workloads|
    ensures IsRun(c, states, actions) && (forall x | 0 < x < |actions| :: !actions[x].Begin?)
    ensures Final(states).log == LiftedLog(c, r) && |Gate(c)| + 3 + r <= |LiftedLog(c, r)|
    ensures m < |actions| && actions[m] == Lift && states[m].log == LiftedLog(c, r)[..|Gate(c)| + 3 + r]
  {
    var k, n := |Gate(c)| + 3 + r, |c.workloads|;
    var before, begun := BeforeTheLift(c, r);
    m := |begun|;
    var lifted, steps := FenceLifted(c, r, before, begun);
    states, actions := LiftingGoesOn(c, r, lifted, steps, k, k + 1, k + 1 + n - r);
    assert states[m] == lifted[m] && actions[m] == steps[m];
    assert LiftedLog(c, r)[..|LiftedLog(c, r)|] == LiftedLog(c, r);
  }

  lemma PrefixReads(log: Log, k: nat)
    requires k <= |log|
    ensures Up(log[..k], k, Dr) == Up(log, k, Dr)
  {
    FailoverSafety.ReadingsStable(log[..k], log, k);
  }

  lemma FenceLifted(c: Config, r: nat, states: seq<World>, actions: seq<Action>)
    returns (states': seq<World>, actions': seq<Action>)
    requires r <= |c.workloads| && actions != []
    requires var k := |Gate(c)| + 3 + r; Lifting(c, r, states, actions, k, k)
    ensures var k := |Gate(c)| + 3 + r; Lifting(c, r, states', actions', k, k + 1)
    ensures states' == states + [After(c, Final(states), Lift)] && actions' == actions + [Lift]
  {
    Extend(c, states, actions, Lift);
    states', actions' := states + [After(c, Final(states), Lift)], actions + [Lift];
  }
}
