/**
  In what order a promotion, a failback and a demotion do things, said of their log entries alone:
  what must have returned before each step, and what a raise still lets happen.
 */
module FailoverOrder {
  import opened Common
  import opened Failover

  /** The step returned somewhere in entries `from..i`. */
  ghost predicate Earlier(log: Log, from: nat, i: nat, step: Step)
    requires i <= |log|
  {
    exists j :: from <= j < i && log[j] == Event(step, Done)
  }

  /** `w` is listed, and those listed ahead of it have been backed up. */
  ghost predicate BackUpInTurn(log: Log, from: nat, i: nat, ws: seq<string>, w: string)
    requires i <= |log|
  {
    exists n :: 0 <= n < |ws| && w == ws[n] && forall m | 0 <= m < n :: Earlier(log, from, i, BackUp(ws[m]))
  }

  /** `v` is listed, and those listed ahead of it have been restored. */
  ghost predicate RestoreInTurn(log: Log, from: nat, i: nat, ws: seq<string>, v: string, site: Site)
    requires i <= |log|
  {
    exists n :: 0 <= n < |ws| && v == ws[n] && forall m | 0 <= m < n :: Earlier(log, from, i, Restore(ws[m], site))
  }

  /** `v` is listed, and those listed ahead of it have been found healthy. */
  ghost predicate BootInTurn(log: Log, from: nat, i: nat, ws: seq<string>, v: string, site: Site)
    requires i <= |log|
  {
    exists n :: 0 <= n < |ws| && v == ws[n] && forall m | 0 <= m < n :: Earlier(log, from, i, HealthCheck(ws[m], site))
  }

  /** Some entry raised. */
  ghost predicate RaisedBefore(log: Log, from: nat, i: nat)
    requires i <= |log|
  {
    exists j :: from <= j < i && log[j].outcome == Raised
  }

  // ---------------------------------------------------------------- failback

  /** What must have returned before entry `i` of a failback of `active`, which started at entry `from`. */
  ghost predicate FailbackLaw(c: Config, active: seq<string>, log: Log, from: nat, i: nat)
    requires from <= i < |log|
  {
    match log[i].step
    case OpenRun(direction) => direction == FailbackRun && i == from
    case Prepare(site) => site == Primary && Earlier(log, from, i, OpenRun(FailbackRun))
    case BackUp(w) => Earlier(log, from, i, Deactivate(Primary, false)) && BackUpInTurn(log, from, i, active, w)
    case Restore(v, site) =>
      && site == Primary && (log[i].outcome == Done ==> v in active)
      && (forall w | w in active :: Earlier(log, from, i, BackUp(w)))
      && RestoreInTurn(log, from, i, c.workloads, v, Primary)
    case Deactivate(site, tolerant) =>
      && !tolerant
      && (site == Primary ==> Earlier(log, from, i, Prepare(Primary)))
      && (site == Dr ==> forall v | v in c.workloads :: Earlier(log, from, i, Restore(v, Primary)))
    case PowerOff(w, site, tolerant) =>
      && site == Dr && !tolerant && w in active && Earlier(log, from, i, Deactivate(Dr, false))
    case Activate(site) =>
      && site == Primary && Earlier(log, from, i, Deactivate(Dr, false))
      && forall w | w in active :: Earlier(log, from, i, PowerOff(w, Dr, false))
    case PowerOn(v, site) =>
      && site == Primary && Earlier(log, from, i, Activate(Primary))
      && BootInTurn(log, from, i, c.workloads, v, Primary)
    case HealthCheck(v, site) =>
      site == Primary && v in c.workloads && i > from && log[i - 1] == Event(PowerOn(v, Primary), Done)
    case CloseRun(success) =>
      if success then
        && Earlier(log, from, i, Activate(Primary))
        && forall v | v in c.workloads :: Earlier(log, from, i, HealthCheck(v, Primary))
      else RaisedBefore(log, from, i)
    case _ => false
  }

  /** Entry `i` of a failback that is all there is from `from` on: a raise leaves only the closing of the run. */
  ghost predicate FailbackLawful(c: Config, active: seq<string>, log: Log, from: nat, i: nat)
    requires from <= i < |log|
  {
    && FailbackLaw(c, active, log, from, i)
    && log[i].outcome in {Done, Raised}
    && (log[i].outcome == Raised ==> i + 2 == |log| && log[i + 1] == Event(CloseRun(false), Done))
  }

  lemma FailbackPassed(c: Config, active: seq<string>, log: Log, from: nat, i: nat, k: nat)
    requires Ran(FailbackScript(c, active), log, from, i) && from + k < i
    ensures k < |FailbackScript(c, active)| && log[from + k] == Event(FailbackStep(c, active, k), Done)
  {
  }

  /** What has returned once the script has got to entry `i`. */
  lemma FailbackSoFar(c: Config, active: seq<string>, log: Log, from: nat, i: nat)
    requires Ran(FailbackScript(c, active), log, from, i)
    ensures var k, m, n := i - from, |active|, |c.workloads|;
            && (k > 0 ==> Earlier(log, from, i, OpenRun(FailbackRun)))
            && (k > 1 ==> Earlier(log, from, i, Prepare(Primary)))
            && (k > 2 ==> Earlier(log, from, i, Deactivate(Primary, false)))
            && (forall j | 0 <= j < m && 3 + j < k :: Earlier(log, from, i, BackUp(active[j])))
            && (forall j | 0 <= j < n && 3 + m + j < k :: Earlier(log, from, i, Restore(c.workloads[j], Primary)))
            && (k > 3 + m + n ==> Earlier(log, from, i, Deactivate(Dr, false)))
  {
    var k, m, n := i - from, |active|, |c.workloads|;
    if k > 0 { FailbackPassed(c, active, log, from, i, 0); }
    if k > 1 { FailbackPassed(c, active, log, from, i, 1); }
    if k > 2 { FailbackPassed(c, active, log, from, i, 2); }
    forall j | 0 <= j < m && 3 + j < k ensures Earlier(log, from, i, BackUp(active[j])) {
      FailbackPassed(c, active, log, from, i, 3 + j);
    }
    forall j | 0 <= j < n && 3 + m + j < k ensures Earlier(log, from, i, Restore(c.workloads[j], Primary)) {
      FailbackPassed(c, active, log, from, i, 3 + m + j);
    }
    if k > 3 + m + n { FailbackPassed(c, active, log, from, i, 3 + m + n); }
  }

  /** ... from the withdrawal on. */
  lemma FailbackSinceWithdrawal(c: Config, active: seq<string>, log: Log, from: nat, i: nat)
    requires Ran(FailbackScript(c, active), log, from, i)
    ensures var k, m, n := i - from, |active|, |c.workloads|;
            && (forall j | 0 <= j < m && 3 + 2 * m + n - j < k :: Earlier(log, from, i, PowerOff(active[j], Dr, false)))
            && (k > 4 + 2 * m + n ==> Earlier(log, from, i, Activate(Primary)))
            && (forall j | 0 <= j < n && 6 + 2 * m + n + 2 * j < k ::
                  Earlier(log, from, i, HealthCheck(c.workloads[j], Primary)))
  {
    var k, m, n := i - from, |active|, |c.workloads|;
    forall j | 0 <= j < m && 3 + 2 * m + n - j < k ensures Earlier(log, from, i, PowerOff(active[j], Dr, false)) {
      FailbackPassed(c, active, log, from, i, 3 + 2 * m + n - j);
    }
    if k > 4 + 2 * m + n { FailbackPassed(c, active, log, from, i, 4 + 2 * m + n); }
    forall j | 0 <= j < n && 6 + 2 * m + n + 2 * j < k
      ensures Earlier(log, from, i, HealthCheck(c.workloads[j], Primary))
    {
      FailbackPassed(c, active, log, from, i, 6 + 2 * m + n + 2 * j);
    }
  }

  /** Entry `i` is the next step of the script, and what is restored has been backed up. */
  ghost predicate FailbackNext(c: Config, active: seq<string>, log: Log, from: nat, i: nat) {
    && Ran(FailbackScript(c, active), log, from, i) && i < |log| && i - from < |FailbackScript(c, active)|
    && log[i].step == FailbackStep(c, active, i - from)
    && (log[i].step.Restore? && log[i].outcome == Done ==> log[i].step.vm in active)
  }

  lemma SavingObeys(c: Config, active: seq<string>, log: Log, from: nat, i: nat)
    requires FailbackNext(c, active, log, from, i) && i - from < 3 + |active|
    ensures FailbackLaw(c, active, log, from, i)
  {
    FailbackSoFar(c, active, log, from, i);
    if i - from >= 3 {
      assert log[i].step == BackUp(active[i - from - 3]);
    }
  }

  lemma RestoringObeys(c: Config, active: seq<string>, log: Log, from: nat, i: nat)
    requires FailbackNext(c, active, log, from, i)
    requires 3 + |active| <= i - from <= 3 + |active| + |c.workloads|
    ensures FailbackLaw(c, active, log, from, i)
  {
    FailbackSoFar(c, active, log, from, i);
    var j := i - from - 3 - |active|;
    if j < |c.workloads| {
      assert log[i].step == Restore(c.workloads[j], Primary);
    }
  }

  lemma CuttingOverObeys(c: Config, active: seq<string>, log: Log, from: nat, i: nat)
    requires FailbackNext(c, active, log, from, i)
    requires 3 + |active| + |c.workloads| < i - from <= 4 + 2 * |active| + |c.workloads|
    ensures FailbackLaw(c, active, log, from, i)
  {
    FailbackSoFar(c, active, log, from, i);
    FailbackSinceWithdrawal(c, active, log, from, i);
  }

  lemma PoweringOnObeys(c: Config, active: seq<string>, log: Log, from: nat, i: nat, j: nat)
    requires FailbackNext(c, active, log, from, i)
    requires j < |c.workloads| && i - from == 5 + 2 * |active| + |c.workloads| + 2 * j
    ensures FailbackLaw(c, active, log, from, i)
  {
    FailbackSinceWithdrawal(c, active, log, from, i);
    assert log[i].step == PowerOn(c.workloads[j], Primary);
    assert BootInTurn(log, from, i, c.workloads, c.workloads[j], Primary);
  }

  lemma CheckingObeys(c: Config, active: seq<string>, log: Log, from: nat, i: nat, j: nat)
    requires FailbackNext(c, active, log, from, i)
    requires j < |c.workloads| && i - from == 6 + 2 * |active| + |c.workloads| + 2 * j
    ensures FailbackLaw(c, active, log, from, i)
  {
    FailbackPassed(c, active, log, from, i, i - from - 1);
    assert log[i].step == HealthCheck(c.workloads[j], Primary);
    assert log[i - 1].step == PowerOn(c.workloads[j], Primary);
  }

  lemma ClosingObeys(c: Config, active: seq<string>, log: Log, from: nat, i: nat)
    requires FailbackNext(c, active, log, from, i)
    requires i - from == 5 + 2 * |active| + 3 * |c.workloads|
    ensures FailbackLaw(c, active, log, from, i)
  {
    FailbackSinceWithdrawal(c, active, log, from, i);
  }

  /** The next step of the script obeys the law. */
  lemma FailbackStepObeys(c: Config, active: seq<string>, log: Log, from: nat, i: nat)
    requires FailbackNext(c, active, log, from, i)
    ensures FailbackLaw(c, active, log, from, i)
  {
    var k, m, n := i - from, |active|, |c.workloads|;
    if k < 3 + m {
      SavingObeys(c, active, log, from, i);
    } else if k <= 3 + m + n {
      RestoringObeys(c, active, log, from, i);
    } else if k <= 4 + 2 * m + n {
      CuttingOverObeys(c, active, log, from, i);
    } else if k == 5 + 2 * m + 3 * n {
      ClosingObeys(c, active, log, from, i);
    } else {
      var b := k - 5 - 2 * m - n;
      if b % 2 == 0 {
        PoweringOnObeys(c, active, log, from, i, b / 2);
      } else {
        CheckingObeys(c, active, log, from, i, b / 2);
      }
    }
  }

  /** From the withdrawal of the DR route on, a failback restores nothing. */
  lemma NothingRestoredLater(c: Config, active: seq<string>, log: Log, from: nat, cut: nat)
    requires Ran(FailbackScript(c, active), log, from, |log|) || Stopped(FailbackScript(c, active), log, from, |log|)
    requires cut == from + 3 + |active| + |c.workloads|
    ensures forall i | cut <= i < |log| :: !log[i].step.Restore?
  {
    forall i | cut <= i < |log| ensures !log[i].step.Restore? {
      assert log[i].step == FailbackStep(c, active, i - from);
    }
  }

  // ---------------------------------------------------------------- a whole failback

  /** All that a failback logged obeys the law; it completed exactly if it closed its run as successful. */
  ghost predicate FailbackOrdered(c: Config, active: seq<string>, log: Log, from: nat, completed: bool) {
    && from < |log|
    && (forall i | from <= i < |log| :: FailbackLawful(c, active, log, from, i))
    && (completed <==> log[|log| - 1] == Event(CloseRun(true), Done))
  }

  lemma RanPrefix(script: seq<Step>, log: Log, from: nat, to: nat, i: nat)
    requires from <= i < to && (Ran(script, log, from, to) || Stopped(script, log, from, to))
    ensures Ran(script, log, from, i) && i - from < |script| && log[i].step == script[i - from]
    ensures Passed(log[i]) || (i == to - 1 && log[i].outcome == Raised)
  {
  }

  lemma FailbackEntry(c: Config, active: seq<string>, s: DrState, s': DrState, completed: bool, to: nat, i: nat)
    requires FailbackRan(c, active, s, s', completed) && to == |s'.log| - if completed then 0 else 1
    requires |s.log| <= i < to
    ensures FailbackNext(c, active, s'.log, |s.log|, i)
    ensures Passed(s'.log[i]) || (!completed && i == to - 1 && s'.log[i].outcome == Raised)
    ensures !completed ==> s'.log[to] == Event(CloseRun(false), Done)
  {
    RanPrefix(FailbackScript(c, active), s'.log, |s.log|, to, i);
    assert SavedFirst(active, s'.log[i]);
  }

  lemma FailbackEntryIsLawful(
    c: Config, active: seq<string>, s: DrState, s': DrState, completed: bool, to: nat, i: nat)
    requires FailbackRan(c, active, s, s', completed) && to == |s'.log| - if completed then 0 else 1
    requires |s.log| <= i < to
    ensures FailbackLawful(c, active, s'.log, |s.log|, i)
  {
    FailbackEntry(c, active, s, s', completed, to, i);
    FailbackStepObeys(c, active, s'.log, |s.log|, i);
  }

  /** Whatever raises, a failback obeys its order. */
  lemma FailbackObeysOrder(c: Config, active: seq<string>, s: DrState, s': DrState, completed: bool)
    requires FailbackRan(c, active, s, s', completed)
    ensures FailbackOrdered(c, active, s'.log, |s.log|, completed)
  {
    var log, from, to := s'.log, |s.log|, |s'.log| - if completed then 0 else 1;
    forall i | from <= i < |log| ensures FailbackLawful(c, active, log, from, i) {
      if i < to {
        FailbackEntryIsLawful(c, active, s, s', completed, to, i);
      } else {
        assert log[to - 1].outcome == Raised;
      }
    }
    if completed {
      FailbackPassed(c, active, log, from, to, |FailbackScript(c, active)| - 1);
    }
  }

  /** Before entry `d`, each listed workload was saved before any was restored, and all were restored. */
  ghost predicate SavedAndRestored(c: Config, active: seq<string>, log: Log, from: nat, d: nat)
    requires d <= |log|
  {
    forall v, w | v in c.workloads && w in active :: exists b, r ::
      from <= b < r < d && log[b] == Event(BackUp(w), Done) && log[r] == Event(Restore(v, Primary), Done)
  }

  /** Between entries `d` and `a`, each of the workloads was powered off at the DR site. */
  ghost predicate OffBetween(active: seq<string>, log: Log, d: nat, a: nat)
    requires a <= |log|
  {
    forall w | w in active :: exists p :: d < p < a && log[p] == Event(PowerOff(w, Dr, false), Done)
  }

  /** The workload was powered on at entry `p` and found healthy at the next. */
  ghost predicate Boots(log: Log, p: int, v: string, site: Site) {
    && 0 <= p < |log| - 1
    && log[p] == Event(PowerOn(v, site), Done) && log[p + 1] == Event(HealthCheck(v, site), Done)
  }

  /** ... after entry `a`. */
  ghost predicate BootedAt(log: Log, a: nat, p: int, v: string, site: Site) {
    a < p && Boots(log, p, v, site)
  }

  /** Nothing was powered on in entries `from..a`; after these each workload was, and was found healthy. */
  ghost predicate BootedAfter(ws: seq<string>, site: Site, log: Log, from: nat, a: nat)
    requires a <= |log|
  {
    && (forall i | from <= i < a :: !log[i].step.PowerOn?)
    && forall v | v in ws :: exists p :: BootedAt(log, a, p, v, site)
  }

  /** The DR site is withdrawn at entry `d`, the primary activated at entry `a`, and all else lies around these. */
  ghost predicate TookBack(c: Config, active: seq<string>, log: Log, from: nat, d: nat, a: nat) {
    && from <= d < a < |log|
    && log[d] == Event(Deactivate(Dr, false), Done) && log[a] == Event(Activate(Primary), Done)
    && SavedAndRestored(c, active, log, from, d) && OffBetween(active, log, d, a)
    && BootedAfter(c.workloads, Primary, log, from, a)
  }

  lemma SavesThenRestores(c: Config, active: seq<string>, log: Log, from: nat)
    requires RanAll(FailbackScript(c, active), log, from, |log|)
    ensures SavedAndRestored(c, active, log, from, from + 3 + |active| + |c.workloads|)
  {
    var m := |active|;
    forall v, w | v in c.workloads && w in active
      ensures exists b, r :: from <= b < r < from + 3 + m + |c.workloads|
                             && log[b] == Event(BackUp(w), Done) && log[r] == Event(Restore(v, Primary), Done)
    {
      var j :| 0 <= j < m && active[j] == w;
      var k :| 0 <= k < |c.workloads| && c.workloads[k] == v;
      FailbackPassed(c, active, log, from, |log|, 3 + j);
      FailbackPassed(c, active, log, from, |log|, 3 + m + k);
      assert log[from + 3 + j] == Event(BackUp(w), Done) && log[from + 3 + m + k] == Event(Restore(v, Primary), Done);
    }
  }

  lemma PowersOffBeforeCutOver(c: Config, active: seq<string>, log: Log, from: nat)
    requires RanAll(FailbackScript(c, active), log, from, |log|)
    ensures var d, a := from + 3 + |active| + |c.workloads|, from + 4 + 2 * |active| + |c.workloads|;
            OffBetween(active, log, d, a)
  {
    var d, a := from + 3 + |active| + |c.workloads|, from + 4 + 2 * |active| + |c.workloads|;
    forall w | w in active ensures exists p :: d < p < a && log[p] == Event(PowerOff(w, Dr, false), Done) {
      var j :| 0 <= j < |active| && active[j] == w;
      var p := a - 1 - j;
      FailbackPassed(c, active, log, from, |log|, p - from);
      assert log[p] == Event(PowerOff(w, Dr, false), Done);
    }
  }

  lemma BootsInTurn(c: Config, active: seq<string>, log: Log, from: nat, a: nat, v: string)
    requires RanAll(FailbackScript(c, active), log, from, |log|) && a == from + 4 + 2 * |active| + |c.workloads|
    requires v in c.workloads
    ensures exists p :: BootedAt(log, a, p, v, Primary)
  {
    var j :| 0 <= j < |c.workloads| && c.workloads[j] == v;
    var p := a + 1 + 2 * j;
    FailbackPassed(c, active, log, from, |log|, p - from);
    FailbackPassed(c, active, log, from, |log|, p + 1 - from);
    assert BootedAt(log, a, p, v, Primary);
  }

  lemma BootsAfterCutOver(c: Config, active: seq<string>, log: Log, from: nat)
    requires RanAll(FailbackScript(c, active), log, from, |log|)
    ensures BootedAfter(c.workloads, Primary, log, from, from + 4 + 2 * |active| + |c.workloads|)
  {
    var a := from + 4 + 2 * |active| + |c.workloads|;
    forall v | v in c.workloads ensures exists p :: BootedAt(log, a, p, v, Primary) {
      BootsInTurn(c, active, log, from, a, v);
    }
    forall i | from <= i < a ensures !log[i].step.PowerOn? {
      FailbackPassed(c, active, log, from, |log|, i - from);
    }
  }

  lemma CutOverEntries(c: Config, active: seq<string>, log: Log, from: nat, d: nat, a: nat)
    requires RanAll(FailbackScript(c, active), log, from, |log|)
    requires d == from + 3 + |active| + |c.workloads| && a == d + |active| + 1
    ensures a < |log| && log[d] == Event(Deactivate(Dr, false), Done) && log[a] == Event(Activate(Primary), Done)
  {
    FailbackPassed(c, active, log, from, |log|, d - from);
    FailbackPassed(c, active, log, from, |log|, a - from);
  }

  ghost predicate TookAllBack(c: Config, active: seq<string>, log: Log, from: nat) {
    exists d: nat, a: nat :: TookBack(c, active, log, from, d, a)
  }

  lemma ScriptTakesAllBack(c: Config, active: seq<string>, log: Log, from: nat)
    requires RanAll(FailbackScript(c, active), log, from, |log|)
    ensures TookAllBack(c, active, log, from)
  {
    var d, a := from + 3 + |active| + |c.workloads|, from + 4 + 2 * |active| + |c.workloads|;
    CutOverEntries(c, active, log, from, d, a);
    SavesThenRestores(c, active, log, from);
    PowersOffBeforeCutOver(c, active, log, from);
    BootsAfterCutOver(c, active, log, from);
    assert TookBack(c, active, log, from, d, a);
  }

  /**
    A failback that returned has saved every workload of the DR site before it restored any at the
    primary, restored all before it withdrew the DR route, powered every one off at the DR site before
    it activated the primary route, and only then powered each on and found it healthy.
   */
  lemma ReturnedFailbackTookBack(c: Config, s: DrState, s': DrState)
    requires AlreadyFailedOver(s.runs) && FailbackEffect(c, true, true, s, s', Returned)
    ensures TookAllBack(c, Latest(s.runs, FailoverRun).value.workloads, s'.log, |s.log|)
  {
    ScriptTakesAllBack(c, Latest(s.runs, FailoverRun).value.workloads, s'.log, |s.log|);
  }
}
