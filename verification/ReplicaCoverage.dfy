/**
  The catalog and a replica together: whether the replica's locks last as long as the deadlines of
  the recovery points it holds. The steps of backups, synchronisations, holds and retentions
  interleave; one lock call is one step here, whose reads return. Module LockRuns takes it apart.
 */
module ReplicaCoverage {
  import opened Common
  import opened Catalog
  import opened ProviderLocks
  import opened ProviderSafety
  import opened LockRuns
  import RetentionSafety

  datatype Settings = Settings(vault: Catalog.Config, replica: ProviderLocks.Config)

  /** `copies` has the points with a successful copy, each with the locked objects it may need. */
  datatype Joint = Joint(vault: VaultState, bucket: Bucket, copies: map<SnapshotId, set<Key>>)

  /**
    `Local` is any step in the catalog and the repository, the extension of a deadline by a hold among
    them. A copy is the writing of its objects, a lock call, and the catalog's record of it. A hold
    locks, too, some time after the extension. `Lock` says what a call got to: on R2 whether its write
    was applied, on S3 the objects it reached.
   */
  datatype Step =
    | Local(step: RetentionSafety.Action)
    | Write(keys: set<Key>)
    | Lock(now: nat, days: nat, applied: bool, reached: set<Key>)
    | Record(id: SnapshotId, keys: set<Key>)
    | Unrecord(id: SnapshotId)

  function Written(b: Bucket, keys: set<Key>): Bucket {
    b.(objects := AddObjects(b.objects, keys))
  }

  ghost predicate Locks(c: ProviderLocks.Config, b: Bucket, b': Bucket, until: nat, applied: bool, reached: set<Key>) {
    if c.isR2 then b' == b.(rules := if applied then Ensured(c, b.rules, until) else b.rules)
    else
      && reached <= b.objects.Keys
      && b' == b.(objects := map key | key in b.objects ::
                    if key in reached then LockedForm(c, key, until, {}, b.objects[key]) else b.objects[key])
  }

  /** The lock call got to everything there is to lock. */
  ghost predicate Complete(c: ProviderLocks.Config, b: Bucket, applied: bool, reached: set<Key>) {
    if c.isR2 then applied else forall key | key in b.objects && Persistent(c, key) :: key in reached
  }

  ghost predicate Next(c: Settings, j: Joint, a: Step, j': Joint) {
    match a
    case Local(step) => RetentionSafety.Next(c.vault, j.vault, step, j'.vault) && j' == j.(vault := j'.vault)
    case Write(keys) => j' == j.(bucket := Written(j.bucket, keys))
    case Lock(now, days, applied, reached) =>
      && Locks(c.replica, j.bucket, j'.bucket, Horizon(c.replica, now, days), applied, reached)
      && j' == j.(bucket := j'.bucket)
    case Record(id, keys) =>
      id in j.vault.points && keys <= j.bucket.objects.Keys && j' == j.(copies := j.copies[id := keys])
    case Unrecord(id) => j' == j.(copies := j.copies - {id})
  }

  ghost predicate IsRun(c: Settings, states: seq<Joint>, steps: seq<Step>) {
    && |states| == |steps| + 1
    && states[0].vault.(clock := 0) == EMPTY && states[0].copies == map[]
    && forall i | 0 <= i < |steps| :: Next(c, states[i], steps[i], states[i + 1])
  }

  lemma StepOf(c: Settings, states: seq<Joint>, steps: seq<Step>, i: nat)
    requires IsRun(c, states, steps) && i < |steps|
    ensures Next(c, states[i], steps[i], states[i + 1])
  {
  }

  /** A lock call whose reads return is such a step, and one that returns got to everything. */
  lemma LockIsAStep(c: ProviderLocks.Config, b: Bucket, b': Bucket, now: nat, days: nat, ok: bool)
    ensures LockEffect(c, b, b', now, days, {}, ok) <==>
            exists applied, reached ::
              Locks(c, b, b', Horizon(c, now, days), applied, reached) && (ok ==> Complete(c, b, applied, reached))
  {
    var until := Horizon(c, now, days);
    if LockEffect(c, b, b', now, days, {}, ok) {
      var applied := b'.rules == Ensured(c, b.rules, until);
      var reached := set key | key in b.objects && b'.objects[key] == LockedForm(c, key, until, {}, b.objects[key]);
      assert Locks(c, b, b', until, applied, reached) && (ok ==> Complete(c, b, applied, reached));
    }
  }

  // ---------------------------------------------------------------- what is promised when

  /** What locks an object of namespace `k`. */
  function UnitOf(c: ProviderLocks.Config, key: Key, k: nat): Unit {
    if c.isR2 then Namespace(k) else Object(key)
  }

  /** The step is a lock call that got to the unit, with a horizon no earlier than the instant. */
  predicate LocksUpTo(c: ProviderLocks.Config, a: Step, u: Unit, t: nat) {
    && a.Lock? && t <= Horizon(c, a.now, a.days)
    && match u
       case Namespace(_) => a.applied
       case Object(key) => key in a.reached
  }

  lemma EnsuredPromisesExactly(c: ProviderLocks.Config, rules: seq<Rule>, until: nat, k: nat, t: nat)
    requires k < 5
    ensures !NeedsWork(c, Ensured(c, rules, until), t, k) <==> t <= until || !NeedsWork(c, rules, t, k)
  {
    if Changed(c, Kept(c, rules), until, 5) {
      ShortExactlyWhenBothAre(c, rules, until, k, t);
    } else if t <= until {
      EnsuredIsGood(c, rules, until, k);
      assert Wanted(c, k, until).id == Wanted(c, k, t).id;
    }
  }

  /** A step promises what it locks, and takes no promise away. */
  lemma StepPromisesExactly(c: Settings, j: Joint, a: Step, j': Joint, key: Key, k: nat, t: nat)
    requires Next(c, j, a, j') && k < 5 && InNamespace(c.replica, key, k)
    ensures var u := UnitOf(c.replica, key, k);
            Promised(c.replica, j'.bucket, u, t) <==>
            Promised(c.replica, j.bucket, u, t) || LocksUpTo(c.replica, a, u, t)
  {
    if a.Lock? {
      if c.replica.isR2 {
        EnsuredPromisesExactly(c.replica, j.bucket.rules, Horizon(c.replica, a.now, a.days), k, t);
      } else {
        NamespacesArePersistent(c.replica, key, k);
      }
    }
  }

  /** Some lock call among the steps `i..j` got to the unit. */
  ghost predicate LockedBetween(
    c: ProviderLocks.Config, steps: seq<Step>, i: nat, j: nat, u: Unit, t: nat)
    requires i <= j <= |steps|
  {
    exists m :: i <= m < j && LocksUpTo(c, steps[m], u, t)
  }

  /**
    Over every run and between any two moments: an object is promised until an instant exactly when it
    was so before, or some lock call since has got to it with a horizon no earlier than that.
   */
  lemma {:induction false} PromisedExactly(
    c: Settings, states: seq<Joint>, steps: seq<Step>, i: nat, j: nat, key: Key, k: nat, t: nat)
    requires IsRun(c, states, steps) && i <= j < |states| && k < 5 && InNamespace(c.replica, key, k)
    ensures var u := UnitOf(c.replica, key, k);
            Promised(c.replica, states[j].bucket, u, t) <==>
            Promised(c.replica, states[i].bucket, u, t) || LockedBetween(c.replica, steps, i, j, u, t)
  {
    if i < j {
      var u := UnitOf(c.replica, key, k);
      PromisedExactly(c, states, steps, i, j - 1, key, k, t);
      StepOf(c, states, steps, j - 1);
      StepPromisesExactly(c, states[j - 1], steps[j - 1], states[j], key, k, t);
      assert LockedBetween(c.replica, steps, i, j, u, t) <==>
             LockedBetween(c.replica, steps, i, j - 1, u, t) || LocksUpTo(c.replica, steps[j - 1], u, t);
    }
  }

  // ---------------------------------------------------------------- coverage

  /** Every object is promised until the instant. */
  ghost predicate AllPromised(c: ProviderLocks.Config, b: Bucket, keys: set<Key>, t: nat) {
    forall key, k | key in keys && 0 <= k < 5 && InNamespace(c, key, k) :: Promised(c, b, UnitOf(c, key, k), t)
  }

  ghost predicate PointCovered(c: Settings, j: Joint, id: SnapshotId)
    requires id in j.vault.points && id in j.copies
  {
    AllPromised(c.replica, j.bucket, j.copies[id], j.vault.points[id].immutableUntil)
  }

  /** Each point with a copy has all the objects of that copy locked until its deadline. */
  ghost predicate Covered(c: Settings, j: Joint) {
    forall id | id in j.copies :: id in j.vault.points && PointCovered(c, j, id)
  }

  /** Covered points really are locked: whatever key of the copy one takes, until the point's deadline. */
  lemma CoveredIsLocked(c: Settings, j: Joint, id: SnapshotId, key: Key, k: nat)
    requires Covered(c, j) && id in j.copies && key in j.copies[id] && k < 5 && InNamespace(c.replica, key, k)
    ensures LockedUntil(c.replica, j.bucket, key, j.vault.points[id].immutableUntil)
  {
  }

  /** The objects are promised exactly when each one was, or has been locked since. */
  lemma AllPromisedExactly(
    c: Settings, states: seq<Joint>, steps: seq<Step>, i: nat, j: nat, keys: set<Key>, t: nat)
    requires IsRun(c, states, steps) && i <= j < |states|
    ensures AllPromised(c.replica, states[j].bucket, keys, t) <==>
            forall key, k | key in keys && 0 <= k < 5 && InNamespace(c.replica, key, k) ::
              || Promised(c.replica, states[i].bucket, UnitOf(c.replica, key, k), t)
              || LockedBetween(c.replica, steps, i, j, UnitOf(c.replica, key, k), t)
  {
    forall key, k | key in keys && 0 <= k < 5 && InNamespace(c.replica, key, k)
      ensures Promised(c.replica, states[j].bucket, UnitOf(c.replica, key, k), t) <==>
              || Promised(c.replica, states[i].bucket, UnitOf(c.replica, key, k), t)
              || LockedBetween(c.replica, steps, i, j, UnitOf(c.replica, key, k), t)
    {
      PromisedExactly(c, states, steps, i, j, key, k, t);
    }
  }

  // ---------------------------------------------------------------- one step, exactly

  /**
    The step leaves a gap: a hold moves the deadline of a copied point beyond what is promised, or a
    copy is recorded whose objects are promised for less than the point's deadline.
   */
  ghost predicate LeavesGap(c: Settings, j: Joint, a: Step) {
    match a
    case Local(Extend(id, until, ok)) =>
      && ok && id in j.copies && id in j.vault.points && j.vault.points[id].immutableUntil < until
      && !AllPromised(c.replica, j.bucket, j.copies[id], until)
    case Record(id, keys) =>
      id in j.vault.points && !AllPromised(c.replica, j.bucket, keys, j.vault.points[id].immutableUntil)
    case _ => false
  }

  /** A step in the vault keeps every point, and its deadline unless it extends it. */
  lemma LocalDeadlines(c: Settings, s: VaultState, step: RetentionSafety.Action, s': VaultState, id: SnapshotId)
    requires RetentionSafety.Next(c.vault, s, step, s') && id in s.points
    ensures id in s'.points
    ensures s'.points[id].immutableUntil ==
            if step.Extend? && step.id == id && step.ok then Max(s.points[id].immutableUntil, step.until)
            else s.points[id].immutableUntil
  {
  }

  lemma StepKeepsPromises(c: Settings, j: Joint, a: Step, j': Joint, keys: set<Key>, t: nat)
    requires Next(c, j, a, j') && AllPromised(c.replica, j.bucket, keys, t)
    ensures AllPromised(c.replica, j'.bucket, keys, t)
  {
    forall key, k | key in keys && 0 <= k < 5 && InNamespace(c.replica, key, k)
      ensures Promised(c.replica, j'.bucket, UnitOf(c.replica, key, k), t)
    {
      StepPromisesExactly(c, j, a, j', key, k, t);
    }
  }

  /** A point whose deadline and copy the step leaves alone stays covered. */
  lemma OthersStayCovered(c: Settings, j: Joint, a: Step, j': Joint, id: SnapshotId)
    requires Covered(c, j) && Next(c, j, a, j') && id in j.copies && id in j'.copies
    requires !(a.Local? && a.step.Extend? && a.step.id == id) && !(a.Record? && a.id == id)
    ensures id in j'.vault.points && PointCovered(c, j', id)
  {
    assert PointCovered(c, j, id);
    if a.Local? {
      LocalDeadlines(c, j.vault, a.step, j'.vault, id);
    }
    StepKeepsPromises(c, j, a, j', j.copies[id], j.vault.points[id].immutableUntil);
  }

  lemma ExtensionCoversExactly(c: Settings, j: Joint, a: Step, j': Joint)
    requires Covered(c, j) && Next(c, j, a, j') && a.Local? && a.step.Extend? && a.step.id in j.copies
    ensures a.step.id in j'.vault.points && (PointCovered(c, j', a.step.id) <==> !LeavesGap(c, j, a))
  {
    assert PointCovered(c, j, a.step.id);
    LocalDeadlines(c, j.vault, a.step, j'.vault, a.step.id);
  }

  /** After one step, everything is still covered exactly when the step left no gap. */
  lemma StepCoversExactly(c: Settings, j: Joint, a: Step, j': Joint)
    requires Covered(c, j) && Next(c, j, a, j')
    ensures Covered(c, j') <==> !LeavesGap(c, j, a)
  {
    if a.Local? && a.step.Extend? && a.step.id in j.copies {
      ExtensionCoversExactly(c, j, a, j');
    }
    forall id | id in j.copies && id in j'.copies
                && !(a.Local? && a.step.Extend? && a.step.id == id) && !(a.Record? && a.id == id)
      ensures id in j'.vault.points && PointCovered(c, j', id)
    {
      OthersStayCovered(c, j, a, j', id);
    }
  }

  // ---------------------------------------------------------------- runs

  /**
    Over every run: up to a moment, all copied points have been locked until their deadlines after
    every step exactly when no step on the way left a gap.
   */
  lemma {:induction false} CoveredExactlyWithoutGaps(c: Settings, states: seq<Joint>, steps: seq<Step>, i: nat)
    requires IsRun(c, states, steps) && i < |states|
    ensures (forall m | 0 <= m <= i :: Covered(c, states[m])) <==>
            forall m | 0 <= m < i :: !LeavesGap(c, states[m], steps[m])
  {
    if i > 0 {
      CoveredExactlyWithoutGaps(c, states, steps, i - 1);
      StepOf(c, states, steps, i - 1);
      if Covered(c, states[i - 1]) {
        StepCoversExactly(c, states[i - 1], steps[i - 1], states[i]);
      }
    }
  }

  lemma {:induction false} VaultKeepsInv(c: Settings, states: seq<Joint>, steps: seq<Step>, i: nat)
    requires IsRun(c, states, steps) && i < |states|
    ensures RetentionSafety.Inv(c.vault, states[i].vault)
  {
    if i > 0 {
      VaultKeepsInv(c, states, steps, i - 1);
      StepOf(c, states, steps, i - 1);
      if steps[i - 1].Local? {
        RetentionSafety.StepKeepsInv(c.vault, states[i - 1].vault, steps[i - 1].step, states[i].vault);
      }
    }
  }

  /** Step `m` is a lock call that gets to everything, and these objects are there. */
  ghost predicate LocksAll(c: Settings, states: seq<Joint>, steps: seq<Step>, m: nat, keys: set<Key>) {
    && m < |steps| < |states| && steps[m].Lock? && keys <= states[m].bucket.objects.Keys
    && Complete(c.replica, states[m].bucket, steps[m].applied, steps[m].reached)
  }

  /** A lock call that gets to everything locks each object up to its horizon, for good. */
  lemma LockedFromThen(
    c: Settings, states: seq<Joint>, steps: seq<Step>, m: nat, j: nat, keys: set<Key>, t: nat)
    requires IsRun(c, states, steps) && LocksAll(c, states, steps, m, keys) && m < j < |states|
    requires t <= Horizon(c.replica, steps[m].now, steps[m].days)
    ensures AllPromised(c.replica, states[j].bucket, keys, t)
  {
    forall key, k | key in keys && 0 <= k < 5 && InNamespace(c.replica, key, k)
      ensures LockedBetween(c.replica, steps, m, j, UnitOf(c.replica, key, k), t)
    {
      NamespacesArePersistent(c.replica, key, k);
      assert LocksUpTo(c.replica, steps[m], UnitOf(c.replica, key, k), t);
    }
    AllPromisedExactly(c, states, steps, m, j, keys, t);
  }

  /**
    A hold opens a gap when it extends a deadline beyond what is promised; from the hold's own lock
    call on, if that gets to everything, the point is covered again, until it is held once more.
   */
  lemma HoldIsCoveredOnceLocked(
    c: Settings, states: seq<Joint>, steps: seq<Step>, h: nat, m: nat, j: nat, id: SnapshotId, until: nat)
    requires IsRun(c, states, steps) && h < m < j < |states|
    requires steps[h] == Local(RetentionSafety.Extend(id, until, true))
    requires id in states[h].vault.points && id in states[h].copies && PointCovered(c, states[h], id)
    requires id in states[j].copies && states[j].copies[id] == states[h].copies[id]
    requires LocksAll(c, states, steps, m, states[h].copies[id])
    requires until <= Horizon(c.replica, steps[m].now, steps[m].days)
    requires id in states[j].vault.points && id in states[h + 1].vault.points
             && states[j].vault.points[id].immutableUntil == states[h + 1].vault.points[id].immutableUntil
    ensures PointCovered(c, states[j], id)
  {
    var keys, stored := states[h].copies[id], states[h].vault.points[id].immutableUntil;
    StepOf(c, states, steps, h);
    LocalDeadlines(c, states[h].vault, steps[h].step, states[h + 1].vault, id);
    LockedFromThen(c, states, steps, m, j, keys, until);
    AllPromisedExactly(c, states, steps, h, j, keys, stored);
  }

  /** A backup's copy is recorded without a gap: it locks later, and for at least the days of the point's window. */
  lemma BackupCopyLeavesNoGap(c: Settings, states: seq<Joint>, steps: seq<Step>, m: nat, r: nat)
    requires IsRun(c, states, steps) && m < r < |steps| && steps[r].Record?
    requires LocksAll(c, states, steps, m, steps[r].keys)
    requires var s, id := states[r].vault, steps[r].id;
             && id in s.points && id in s.window && id in s.holds
             && s.points[id].createdAt <= steps[m].now && s.window[id] == DAY * steps[m].days
             && forall h | h in s.holds[id] :: h <= s.points[id].createdAt + s.window[id]
    ensures !LeavesGap(c, states[r], steps[r])
  {
    var s, id := states[r].vault, steps[r].id;
    VaultKeepsInv(c, states, steps, r);
    assert RetentionSafety.Covered(c.vault, s, id);
    LockedFromThen(c, states, steps, m, r, steps[r].keys, s.points[id].immutableUntil);
  }

  /**
    The copy of a synchronisation, locked at step `m` and recorded at step `r` with no lock call in
    between, leaves a gap exactly when a longer window or a hold outlasts the lock's horizon and some
    object was not already promised that long.
   */
  lemma SyncLeavesGapExactly(c: Settings, states: seq<Joint>, steps: seq<Step>, m: nat, r: nat)
    requires IsRun(c, states, steps) && m < r < |steps| && steps[r].Record?
    requires LocksAll(c, states, steps, m, steps[r].keys) && forall x | m < x < r :: !steps[x].Lock?
    requires var s, id := states[r].vault, steps[r].id; id in s.points && id in s.window && id in s.holds
    ensures var s, id := states[r].vault, steps[r].id;
            var horizon := Horizon(c.replica, steps[m].now, steps[m].days);
            LeavesGap(c, states[r], steps[r]) <==>
              && (s.points[id].createdAt + s.window[id] > horizon || exists h :: h in s.holds[id] && h > horizon)
              && !AllPromised(c.replica, states[m].bucket, steps[r].keys, s.points[id].immutableUntil)
  {
    var s, id, keys := states[r].vault, steps[r].id, steps[r].keys;
    var t := s.points[id].immutableUntil;
    VaultKeepsInv(c, states, steps, r);
    assert RetentionSafety.Covered(c.vault, s, id);
    if t <= Horizon(c.replica, steps[m].now, steps[m].days) {
      LockedFromThen(c, states, steps, m, r, keys, t);
    } else {
      forall key, k | key in keys && 0 <= k < 5 && InNamespace(c.replica, key, k)
        ensures !LockedBetween(c.replica, steps, m, r, UnitOf(c.replica, key, k), t)
      {
      }
      AllPromisedExactly(c, states, steps, m, r, keys, t);
    }
  }
}
