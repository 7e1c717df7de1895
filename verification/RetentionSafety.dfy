/**
  What holds over every interleaving of backups, holds and retentions: what a removed point's
  deadlines were, when a removal is premature, and when the catalog and the repository agree.
 */
module RetentionSafety {
  import opened Common
  import opened Catalog

  /** The steps of all calls; those of different calls interleave freely, except that retentions exclude each other. */
  datatype Action =
    | Store(id: SnapshotId)
    | Catalogue(id: SnapshotId, suspicious: bool, keepDays: nat, now: nat)
    | Extend(id: SnapshotId, until: nat, ok: bool)
    | Read(at: nat)
    | Forget(proposal: seq<seq<SnapshotId>>, gone: set<SnapshotId>, completed: bool)
    | Mark
    | Crash
    | TimePasses

  ghost predicate Next(c: Config, s: VaultState, a: Action, s': VaultState) {
    match a
    case Store(id) => StoreEffect(s, s', id)
    case Catalogue(id, suspicious, keepDays, now) => CatalogueEffect(c, s, s', id, suspicious, keepDays, now)
    case Extend(id, until, ok) => ExtendEffect(s, s', id, until, ok)
    case Read(at) => ReadEffect(s, s', at)
    case Forget(proposal, gone, completed) => ForgetEffect(s, s', proposal, gone, completed)
    case Mark => MarkEffect(s, s')
    case Crash => s' == s.(sweep := Idle)
    case TimePasses => s.clock <= s'.clock && s' == s.(clock := s'.clock)
  }

  ghost predicate IsRun(c: Config, states: seq<VaultState>, actions: seq<Action>) {
    && |states| == |actions| + 1
    && states[0].(clock := 0) == EMPTY
    && forall i | 0 <= i < |actions| :: Next(c, states[i], actions[i], states[i + 1])
  }

  // ---------------------------------------------------------------- the invariant

  /** The deadline covers the creation window, a longer one for suspicious points, and every hold. */
  ghost predicate Covered(c: Config, s: VaultState, id: SnapshotId)
    requires id in s.points && id in s.window && id in s.holds
  {
    var p := s.points[id];
    && p.createdAt < s.clock
    && p.immutableUntil >= p.createdAt + s.window[id]
    && (p.suspicious ==> c.preserveSuspiciousDays * DAY <= s.window[id])
    && (forall h | h in s.holds[id] :: h <= p.immutableUntil)
    && (p.immutableUntil == p.createdAt + s.window[id] || p.immutableUntil in s.holds[id])
  }

  ghost predicate Inv(c: Config, s: VaultState) {
    && s.points.Keys == s.window.Keys == s.holds.Keys
    && s.points.Keys <= s.stored && s.repo <= s.stored
    && (s.sweep.HasForgotten? ==> s.sweep.removed !! s.repo)
    && forall id | id in s.points :: Covered(c, s, id)
  }

  /** A point keeps its identity and history, and its deadline never moves earlier. */
  ghost predicate Grew(s: VaultState, s': VaultState, id: SnapshotId)
    requires id in s.points && id in s.window && id in s.holds
  {
    && id in s'.points && id in s'.window && id in s'.holds
    && s'.points[id].createdAt == s.points[id].createdAt
    && s'.points[id].suspicious == s.points[id].suspicious
    && s.points[id].immutableUntil <= s'.points[id].immutableUntil
    && (s.points[id].expired ==> s'.points[id].expired)
    && s'.window[id] == s.window[id]
    && s.holds[id] <= s'.holds[id]
  }

  lemma StepKeepsKeys(c: Config, s: VaultState, a: Action, s': VaultState)
    requires Inv(c, s) && Next(c, s, a, s')
    ensures s'.points.Keys == s'.window.Keys == s'.holds.Keys
    ensures s'.points.Keys <= s'.stored && s'.repo <= s'.stored
    ensures s'.sweep.HasForgotten? ==> s'.sweep.removed !! s'.repo
  {
  }

  lemma StepKeepsPoint(c: Config, s: VaultState, a: Action, s': VaultState, id: SnapshotId)
    requires Inv(c, s) && s'.points.Keys == s'.window.Keys == s'.holds.Keys
    requires Next(c, s, a, s')
    ensures id in s'.points ==> Covered(c, s', id)
    ensures id in s.points ==> Grew(s, s', id)
  {
    assert id in s.points ==> Covered(c, s, id);
  }

  lemma StepKeepsInv(c: Config, s: VaultState, a: Action, s': VaultState)
    requires Inv(c, s) && Next(c, s, a, s')
    ensures Inv(c, s')
    ensures forall id | id in s.points :: Grew(s, s', id)
  {
    StepKeepsKeys(c, s, a, s');
    forall id ensures id in s'.points ==> Covered(c, s', id) {
      StepKeepsPoint(c, s, a, s', id);
    }
    forall id | id in s.points ensures Grew(s, s', id) {
      StepKeepsPoint(c, s, a, s', id);
    }
  }

  lemma {:induction false} RunKeepsInv(c: Config, states: seq<VaultState>, actions: seq<Action>, i: nat)
    requires IsRun(c, states, actions) && i < |states|
    ensures Inv(c, states[i])
  {
    if i > 0 {
      RunKeepsInv(c, states, actions, i - 1);
      assert Next(c, states[i - 1], actions[i - 1], states[i]);
      StepKeepsInv(c, states[i - 1], actions[i - 1], states[i]);
    }
  }

  lemma StepGrows(c: Config, states: seq<VaultState>, actions: seq<Action>, i: nat, id: SnapshotId)
    requires IsRun(c, states, actions) && i < |actions| && id in states[i].points
    ensures id in states[i].window && id in states[i].holds && Grew(states[i], states[i + 1], id)
  {
    RunKeepsInv(c, states, actions, i);
    assert Next(c, states[i], actions[i], states[i + 1]);
    StepKeepsInv(c, states[i], actions[i], states[i + 1]);
  }

  lemma GrewOnward(s: VaultState, mid: VaultState, s': VaultState, id: SnapshotId)
    requires id in s.points && id in s.window && id in s.holds && Grew(s, mid, id) && Grew(mid, s', id)
    ensures Grew(s, s', id)
  {
  }

  /** Between any two moments of a run, no deadline has moved earlier and no hold was forgotten. */
  lemma {:induction false} DeadlinesNeverDecrease(
    c: Config, states: seq<VaultState>, actions: seq<Action>, i: nat, j: nat, id: SnapshotId)
    requires IsRun(c, states, actions) && i <= j < |states| && id in states[i].points
    ensures id in states[i].window && id in states[i].holds && Grew(states[i], states[j], id)
  {
    RunKeepsInv(c, states, actions, i);
    if i < j {
      DeadlinesNeverDecrease(c, states, actions, i, j - 1, id);
      StepGrows(c, states, actions, j - 1, id);
      GrewOnward(states[i], states[j - 1], states[j], id);
    }
  }

  // ---------------------------------------------------------------- removal and deadlines

  ghost predicate SweepStep(a: Action) {
    a.Read? || a.Forget? || a.Mark? || a.Crash?
  }

  /** Step `r` is the catalog read of the retention whose forget is step `i`. */
  ghost predicate ReadOf(actions: seq<Action>, r: nat, i: nat) {
    && r < i < |actions| && actions[r].Read? && actions[i].Forget?
    && forall k | r < k < i :: !SweepStep(actions[k])
  }

  lemma {:induction false} SweepSinceRead(c: Config, states: seq<VaultState>, actions: seq<Action>, r: nat, m: nat)
    requires IsRun(c, states, actions) && r < m < |states| && actions[r].Read?
    requires forall k | r < k < m :: !SweepStep(actions[k])
    ensures states[m].sweep == states[r + 1].sweep
  {
    if r + 1 < m {
      SweepSinceRead(c, states, actions, r, m - 1);
      assert Next(c, states[m - 1], actions[m - 1], states[m]);
    }
  }

  /** Every forget has the read it acts on. */
  lemma {:induction false} ForgetHasRead(c: Config, states: seq<VaultState>, actions: seq<Action>, i: nat)
    requires IsRun(c, states, actions) && i < |states| && states[i].sweep.HasRead?
    ensures exists r: nat :: r < i && actions[r].Read? && forall k | r < k < i :: !SweepStep(actions[k])
  {
    var a := actions[i - 1];
    assert Next(c, states[i - 1], a, states[i]);
    if !a.Read? {
      ForgetHasRead(c, states, actions, i - 1);
      var r: nat :| r < i - 1 && actions[r].Read? && forall k | r < k < i - 1 :: !SweepStep(actions[k]);
      assert !SweepStep(a);
    }
  }

  /** The point is catalogued with a creation window or a hold that reaches beyond the instant. */
  ghost predicate Late(s: VaultState, id: SnapshotId, at: nat) {
    && id in s.points && id in s.window && id in s.holds
    && (s.points[id].createdAt + s.window[id] > at || exists h :: h in s.holds[id] && h > at)
  }

  /** A hold on the point beyond the instant is granted, or the point is catalogued for days that reach beyond it. */
  ghost predicate Lands(c: Config, a: Action, id: SnapshotId, at: nat) {
    || (a.Extend? && a.id == id && a.ok && at < a.until)
    || (a.Catalogue? && a.id == id
        && (at < a.now + DAY * a.keepDays || (a.suspicious && at < a.now + DAY * c.preserveSuspiciousDays)))
  }

  lemma LateAfterExtension(c: Config, s: VaultState, a: Action, s': VaultState, id: SnapshotId, at: nat)
    requires Inv(c, s) && Next(c, s, a, s') && a.Extend? && a.id == id && a.ok
    ensures Late(s', id, at) <==> Late(s, id, at) || Lands(c, a, id, at)
  {
    assert s'.holds[id] == s.holds[id] + {a.until};
  }

  lemma LateAfterCataloguing(c: Config, s: VaultState, a: Action, s': VaultState, id: SnapshotId, at: nat)
    requires Inv(c, s) && Next(c, s, a, s') && a.Catalogue? && a.id == id
    ensures Late(s', id, at) <==> Late(s, id, at) || Lands(c, a, id, at)
  {
    assert s'.holds[id] == {};
  }

  lemma LateExactlyWhenLanded(c: Config, s: VaultState, a: Action, s': VaultState, id: SnapshotId, at: nat)
    requires Inv(c, s) && Next(c, s, a, s')
    ensures Late(s', id, at) <==> Late(s, id, at) || Lands(c, a, id, at)
  {
    if a.Extend? && a.id == id && a.ok {
      LateAfterExtension(c, s, a, s', id, at);
    } else if a.Catalogue? && a.id == id {
      LateAfterCataloguing(c, s, a, s', id, at);
    } else if id in s.points {
      StepKeepsInv(c, s, a, s');
      assert s'.holds[id] == s.holds[id] && Grew(s, s', id);
    }
  }

  lemma LateStep(c: Config, states: seq<VaultState>, actions: seq<Action>, i: nat, id: SnapshotId, at: nat)
    requires IsRun(c, states, actions) && i < |actions|
    ensures Late(states[i + 1], id, at) <==> Late(states[i], id, at) || Lands(c, actions[i], id, at)
  {
    RunKeepsInv(c, states, actions, i);
    assert Next(c, states[i], actions[i], states[i + 1]);
    LateExactlyWhenLanded(c, states[i], actions[i], states[i + 1], id, at);
  }

  ghost predicate LandsBetween(c: Config, actions: seq<Action>, r: nat, m: nat, id: SnapshotId, at: nat)
    requires m <= |actions|
  {
    exists k :: r < k < m && Lands(c, actions[k], id, at)
  }

  lemma {:induction false} LateSinceRead(
    c: Config, states: seq<VaultState>, actions: seq<Action>, r: nat, m: nat, id: SnapshotId, at: nat)
    requires r < m <= |actions| && |states| == |actions| + 1
    requires forall k | r < k < m ::
               Late(states[k + 1], id, at) <==> Late(states[k], id, at) || Lands(c, actions[k], id, at)
    ensures Late(states[m], id, at) <==> Late(states[r + 1], id, at) || LandsBetween(c, actions, r, m, id, at)
  {
    if r + 1 < m {
      LateSinceRead(c, states, actions, r, m - 1, id, at);
      assert LandsBetween(c, actions, r, m, id, at) <==>
             LandsBetween(c, actions, r, m - 1, id, at) || Lands(c, actions[m - 1], id, at);
    }
  }

  /** A point that was catalogued and left out of what a read protects had no window or hold beyond the instant. */
  lemma UnprotectedIsNotLate(c: Config, s: VaultState, s': VaultState, id: SnapshotId, at: nat)
    requires Inv(c, s) && ReadEffect(s, s', at) && id !in s'.sweep.keep
    requires id in s.points ==> !s.points[id].expired
    ensures !Late(s, id, at) && !Late(s', id, at)
  {
  }

  /** Step `i` takes a catalogued, unexpired point out of the repository. */
  ghost predicate Removes(states: seq<VaultState>, i: nat, id: SnapshotId)
    requires i + 1 < |states|
  {
    Live(states[i].points, id) && id in states[i].repo && id !in states[i + 1].repo
  }

  lemma RemovalUnprotected(c: Config, states: seq<VaultState>, actions: seq<Action>, r: nat, i: nat, id: SnapshotId)
    requires IsRun(c, states, actions) && ReadOf(actions, r, i) && Removes(states, i, id)
    ensures Inv(c, states[r]) && ReadEffect(states[r], states[r + 1], actions[r].at) && id !in states[r + 1].sweep.keep
    ensures id in states[r].points ==> !states[r].points[id].expired
  {
    RunKeepsInv(c, states, actions, r);
    assert Next(c, states[r], actions[r], states[r + 1]);
    assert Next(c, states[i], actions[i], states[i + 1]);
    SweepSinceRead(c, states, actions, r, i);
    assert Removable(states[i].sweep.keep, actions[i].proposal, id);
    if id in states[r].points {
      DeadlinesNeverDecrease(c, states, actions, r, i, id);
    }
  }

  /** A point has a deadline beyond the instant exactly if something so far has asked for that. */
  lemma {:induction false} LateExactlyWhenAsked(
    c: Config, states: seq<VaultState>, actions: seq<Action>, i: nat, id: SnapshotId, at: nat)
    requires IsRun(c, states, actions) && i < |states|
    ensures Late(states[i], id, at) <==> AskedBefore(c, actions, i, id, at)
  {
    if i > 0 {
      LateExactlyWhenAsked(c, states, actions, i - 1, id, at);
      LateStep(c, states, actions, i - 1, id, at);
      assert AskedBefore(c, actions, i, id, at) <==>
             AskedBefore(c, actions, i - 1, id, at) || Lands(c, actions[i - 1], id, at);
    }
  }

  /** Among the first `i` steps, a backup or a hold has asked for the point to be kept beyond the instant. */
  ghost predicate AskedBefore(c: Config, actions: seq<Action>, i: nat, id: SnapshotId, at: nat)
    requires i <= |actions|
  {
    exists k :: 0 <= k < i && Lands(c, actions[k], id, at)
  }

  /** A read protects a point exactly if it is unexpired and something has asked for it beyond that instant. */
  lemma ProtectedExactly(c: Config, states: seq<VaultState>, actions: seq<Action>, r: nat, id: SnapshotId)
    requires IsRun(c, states, actions) && r < |actions| && actions[r].Read?
    ensures states[r + 1].sweep.HasRead?
    ensures id in states[r + 1].sweep.keep <==>
            Live(states[r].points, id) && AskedBefore(c, actions, r, id, actions[r].at)
  {
    RunKeepsInv(c, states, actions, r);
    assert Next(c, states[r], actions[r], states[r + 1]);
    LateExactlyWhenAsked(c, states, actions, r, id, actions[r].at);
    assert id in states[r].points ==> Covered(c, states[r], id);
  }

  /**
    What a completed forget removes: exactly what restic proposed, unless at the read it was catalogued,
    unexpired, and asked to be kept beyond the instant of the read.
   */
  lemma ForgottenExactly(c: Config, states: seq<VaultState>, actions: seq<Action>, r: nat, i: nat, id: SnapshotId)
    requires IsRun(c, states, actions) && ReadOf(actions, r, i) && actions[i].completed && id in states[i].repo
    ensures id !in states[i + 1].repo <==>
            && id != "" && (exists g :: 0 <= g < |actions[i].proposal| && id in actions[i].proposal[g])
            && !(Live(states[r].points, id) && AskedBefore(c, actions, r, id, actions[r].at))
  {
    ProtectedExactly(c, states, actions, r, id);
    SweepSinceRead(c, states, actions, r, i);
    assert Next(c, states[i], actions[i], states[i + 1]);
    assert Removable(states[i].sweep.keep, actions[i].proposal, id) <==> id in actions[i].gone;
  }

  /**
    Whatever restic proposes and whatever comes between: an unexpired catalogued point leaves the
    repository only in a retention's forget, and by the instant at which that retention read the
    catalog, the days its backup asked for and every hold granted before the read had passed.
   */
  lemma RemovedOnlyAfterDeadline(c: Config, states: seq<VaultState>, actions: seq<Action>, i: nat, id: SnapshotId)
    requires IsRun(c, states, actions) && i < |actions| && Removes(states, i, id)
    ensures exists r: nat :: ReadOf(actions, r, i)
    ensures forall r: nat | ReadOf(actions, r, i) && id in states[r].points ::
              PassedBy(c, states[r], id, actions[r].at)
    ensures forall r: nat | ReadOf(actions, r, i) :: !AskedBefore(c, actions, r, id, actions[r].at)
  {
    assert Next(c, states[i], actions[i], states[i + 1]);
    ForgetHasRead(c, states, actions, i);
    var first: nat :| first < i && actions[first].Read? && forall k | first < k < i :: !SweepStep(actions[k]);
    assert ReadOf(actions, first, i);
    forall r: nat | ReadOf(actions, r, i) && id in states[r].points ensures PassedBy(c, states[r], id, actions[r].at) {
      RemovalUnprotected(c, states, actions, r, i, id);
      assert Covered(c, states[r], id);
    }
    forall r: nat | ReadOf(actions, r, i) ensures !AskedBefore(c, actions, r, id, actions[r].at) {
      RemovalUnprotected(c, states, actions, r, i, id);
      UnprotectedIsNotLate(c, states[r], states[r + 1], id, actions[r].at);
      LateExactlyWhenAsked(c, states, actions, r, id, actions[r].at);
    }
  }

  /** The creation window, the longer one of suspicious points, and all holds so far have passed. */
  ghost predicate PassedBy(c: Config, s: VaultState, id: SnapshotId, at: nat) {
    && id in s.points && id in s.window && id in s.holds
    && s.points[id].createdAt + s.window[id] <= at
    && (s.points[id].suspicious ==> s.points[id].createdAt + c.preserveSuspiciousDays * DAY <= at)
    && forall h | h in s.holds[id] :: h <= at
  }

  /**
    A removal is premature, with a window or a granted hold beyond the read instant, if and only if
    between the read and the forget such a hold landed or the point was only then catalogued.
   */
  lemma PrematureExactlyWhenOvertaken(
    c: Config, states: seq<VaultState>, actions: seq<Action>, r: nat, i: nat, id: SnapshotId)
    requires IsRun(c, states, actions) && ReadOf(actions, r, i) && Removes(states, i, id)
    ensures Late(states[i], id, actions[r].at) <==>
            exists k :: r < k < i && Lands(c, actions[k], id, actions[r].at)
  {
    var at := actions[r].at;
    RemovalUnprotected(c, states, actions, r, i, id);
    UnprotectedIsNotLate(c, states[r], states[r + 1], id, at);
    forall k | r < k < i
      ensures Late(states[k + 1], id, at) <==> Late(states[k], id, at) || Lands(c, actions[k], id, at)
    {
      LateStep(c, states, actions, k, id, at);
    }
    LateSinceRead(c, states, actions, r, i, id, at);
    assert LandsBetween(c, actions, r, i, id, at) <==> exists k :: r < k < i && Lands(c, actions[k], id, at);
  }

  /** The smallest such run: a hold of any length on an unprotected point, granted while retention is under way. */
  lemma HoldDuringRetentionIsLost(until: nat)
    requires until > DAY
    ensures exists c, states, actions ::
              && IsRun(c, states, actions) && |actions| == 5
              && actions[3] == Extend("s", until, true)
              && Removes(states, 4, "s") && Late(states[4], "s", DAY)
  {
    var c := Config(0);
    var s0 := EMPTY.(clock := 1);
    var s1 := s0.(repo := {"s"}, stored := {"s"});
    var s2 := s1.(points := map["s" := Point(0, DAY, false, false)], window := map["s" := DAY],
      holds := map["s" := {}]);
    var s3 := s2.(clock := DAY + 1, sweep := HasRead(DAY, {}));
    var s4 := s3.(points := map["s" := Point(0, until, false, false)], holds := map["s" := {until}]);
    var s5 := s4.(repo := {}, sweep := HasForgotten({"s"}));
    var forget := Forget([["s"]], {"s"}, true);
    var states := [s0, s1, s2, s3, s4, s5];
    var actions := [Store("s"), Catalogue("s", false, 1, 0), Read(DAY), Extend("s", until, true), forget];
    assert Removable({}, [["s"]], "s") by {
      assert "s" in [["s"]][0];
    }
    assert Next(c, s2, Read(DAY), s3) by {
      assert (set id | id in s2.points && ProtectedAt(s2.points, id, DAY)) == {};
    }
    assert ExtendEffect(s3, s4, "s", until, true) by {
      assert s4.points == s3.points["s" := s3.points["s"].(immutableUntil := Max(DAY, until))];
      var none: set<nat> := s3.holds["s"];
      assert none + {until} == {until};
      assert s4.holds == s3.holds["s" := s3.holds["s"] + {until}];
    }
    forall i | 0 <= i < 5 ensures Next(c, states[i], actions[i], states[i + 1]) {
    }
    assert until in s4.holds["s"];
    assert IsRun(c, states, actions) && Removes(states, 4, "s");
  }

  // ---------------------------------------------------------------- catalog and repository

  /** A retention has removed the point and not marked it yet. */
  ghost predicate Pending(s: VaultState, id: SnapshotId) {
    s.sweep.HasForgotten? && id in s.sweep.removed
  }

  /** The expired points are exactly the catalogued ones gone from the repository, up to those about to be marked. */
  ghost predicate Agrees(s: VaultState) {
    forall id | id in s.points :: (s.points[id].expired || Pending(s, id)) <==> id !in s.repo
  }

  /**
    The steps after which they disagree: a forget or prune that raises with a catalogued snapshot
    gone, a process that ends before marking, and cataloguing a snapshot already removed.
   */
  ghost predicate Diverges(s: VaultState, a: Action) {
    match a
    case Forget(proposal, gone, completed) => !completed && exists id :: id in gone && id in s.points && id in s.repo
    case Crash => exists id :: Pending(s, id) && Live(s.points, id)
    case Catalogue(id, suspicious, keepDays, now) => id !in s.repo && !Pending(s, id)
    case _ => false
  }

  lemma StepAgreesExactly(c: Config, s: VaultState, a: Action, s': VaultState)
    requires Inv(c, s) && Agrees(s) && Next(c, s, a, s')
    ensures Agrees(s') <==> !Diverges(s, a)
  {
  }

  /** In a run without such a step, expired means removed and removed means expired, whenever no marks are due. */
  lemma {:induction false} ExpiredExactlyWhenRemoved(c: Config, states: seq<VaultState>, actions: seq<Action>, i: nat)
    requires IsRun(c, states, actions) && i < |states|
    requires forall k | 0 <= k < i :: !Diverges(states[k], actions[k])
    ensures Agrees(states[i])
    ensures !states[i].sweep.HasForgotten? ==>
              forall id | id in states[i].points :: states[i].points[id].expired <==> id !in states[i].repo
  {
    if i > 0 {
      ExpiredExactlyWhenRemoved(c, states, actions, i - 1);
      RunKeepsInv(c, states, actions, i - 1);
      assert Next(c, states[i - 1], actions[i - 1], states[i]);
      StepAgreesExactly(c, states[i - 1], actions[i - 1], states[i]);
    }
  }

  /** In such a run, a hold is granted on a removed snapshot only between its removal and its mark. */
  lemma HoldOnRemovedOnlyBeforeMark(c: Config, states: seq<VaultState>, actions: seq<Action>, i: nat)
    requires IsRun(c, states, actions) && i < |actions| && actions[i].Extend? && actions[i].ok
    requires forall k | 0 <= k < i :: !Diverges(states[k], actions[k])
    ensures actions[i].id !in states[i].repo <==> Pending(states[i], actions[i].id)
  {
    ExpiredExactlyWhenRemoved(c, states, actions, i);
    assert Next(c, states[i], actions[i], states[i + 1]);
  }

  /** The smallest interruption: one point past its deadline is forgotten, then pruning raises. */
  lemma InterruptedRetentionDisagrees()
    ensures exists c, states, actions ::
              IsRun(c, states, actions) && |actions| == 4 && Diverges(states[3], actions[3]) && !Agrees(states[4])
  {
    var c := Config(0);
    var s0 := EMPTY.(clock := 1);
    var s1 := s0.(repo := {"s"}, stored := {"s"});
    var s2 := s1.(points := map["s" := Point(0, DAY, false, false)], window := map["s" := DAY],
      holds := map["s" := {}]);
    var s3 := s2.(clock := DAY + 1, sweep := HasRead(DAY, {}));
    var s4 := s3.(repo := {}, sweep := Idle);
    var forget := Forget([["s"]], {"s"}, false);
    var states, actions := [s0, s1, s2, s3, s4], [Store("s"), Catalogue("s", false, 1, 0), Read(DAY), forget];
    assert Removable({}, [["s"]], "s") by {
      assert "s" in [["s"]][0];
    }
    assert Next(c, s2, Read(DAY), s3) by {
      assert (set id | id in s2.points && ProtectedAt(s2.points, id, DAY)) == {};
    }
    forall i | 0 <= i < 4 ensures Next(c, states[i], actions[i], states[i + 1]) {
    }
    assert "s" in s3.points && "s" in s3.repo && "s" in s4.points;
    assert Diverges(s3, forget) && !Agrees(s4);
    assert IsRun(c, states, actions);
  }
}
