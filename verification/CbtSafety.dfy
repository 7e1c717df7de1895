/**
  Over every run of exports, accepted, rejected, crashed or falling back: a cache is absent or is
  its VM's disk at the checkpoint stored in it, and every snapshot view is the disk at its own.
 */
module CbtSafety {
  import opened Common
  import opened CbtCache

  /** Different VMs have different cache directories: no two names, equal ones included, sanitize alike. */
  ghost predicate DistinctCaches(vms: set<Vm>) {
    forall a, b | a in vms && b in vms && CacheKey(a) == CacheKey(b) :: a == b
  }

  ghost predicate CacheIsTrue(c: Config, vms: set<Vm>, s: CbtState, key: string)
    requires key in s.caches
  {
    var cache := s.caches[key];
    && cache.checkpoint.Some?
    && cache.checkpoint.value.vm in vms && CacheKey(cache.checkpoint.value.vm) == key
    && (forall f | f in cache.dir :: cache.dir[f] in s.inodes)
    && Contents(s.inodes, cache.dir) == c.disk(cache.checkpoint.value)
  }

  ghost predicate ViewIsTrue(c: Config, s: CbtState, view: View) {
    && view.checkpoint.vm == view.vm
    && (forall f | f in view.dir :: view.dir[f] in s.inodes)
    && Contents(s.inodes, view.dir) == c.disk(view.checkpoint)
  }

  ghost predicate Inv(c: Config, vms: set<Vm>, s: CbtState) {
    && (forall key | key in s.caches :: CacheIsTrue(c, vms, s, key))
    && (forall i | 0 <= i < |s.views| :: ViewIsTrue(c, s, s.views[i]))
  }

  datatype Action =
    Export(vm: Vm, dryRun: bool, result: ExportResult, entered: bool, residue: bool, reply: Reply)

  ghost predicate Next(c: Config, s: CbtState, a: Action, s': CbtState) {
    ExportEffect(c, s, s', a.vm, a.dryRun, a.result, a.entered, a.residue, a.reply)
  }

  ghost predicate IsRun(c: Config, vms: set<Vm>, states: seq<CbtState>, actions: seq<Action>) {
    && |states| == |actions| + 1
    && states[0].caches == map[] && states[0].views == []
    && forall i | 0 <= i < |actions| :: actions[i].vm in vms && Next(c, states[i], actions[i], states[i + 1])
  }

  /** Files whose inodes are unchanged have unchanged contents. */
  lemma ContentsStable(inodes: map<Inode, Bytes>, inodes': map<Inode, Bytes>, dir: Directory)
    requires forall f | f in dir :: dir[f] in inodes
    requires forall n | n in inodes :: n in inodes' && inodes'[n] == inodes[n]
    ensures Contents(inodes', dir) == Contents(inodes, dir)
  {
  }

  lemma FramedCachesStay(c: Config, vms: set<Vm>, s: CbtState, s': CbtState, key: string, other: string)
    requires c.linkSafe && Framed(c, s, s', key)
    requires other in s'.caches && other != key
    requires forall k | k in s.caches :: CacheIsTrue(c, vms, s, k)
    ensures CacheIsTrue(c, vms, s', other)
  {
    assert other in s'.caches - {key};
    assert other in s.caches - {key};
    assert s'.caches[other] == (s'.caches - {key})[other] == s.caches[other];
    assert CacheIsTrue(c, vms, s, other);
    ContentsStable(s.inodes, s'.inodes, s.caches[other].dir);
  }

  lemma NativeIsTrue(c: Config, vms: set<Vm>, s: CbtState, s': CbtState, vm: Vm, reply: Reply)
    requires DistinctCaches(vms) && vm in vms
    requires forall key | key in s.caches :: CacheIsTrue(c, vms, s, key)
    requires NativeEffect(c, s, s', vm, reply)
    ensures CacheIsTrue(c, vms, s', CacheKey(vm)) && ViewIsTrue(c, s', s'.views[|s.views|])
  {
  }

  lemma ExportKeepsCaches(c: Config, vms: set<Vm>, s: CbtState, a: Action, s': CbtState, key: string)
    requires c.linkSafe && DistinctCaches(vms) && a.vm in vms
    requires forall k | k in s.caches :: CacheIsTrue(c, vms, s, k)
    requires Next(c, s, a, s') && !a.residue && key in s'.caches
    ensures CacheIsTrue(c, vms, s', key)
  {
    if key != CacheKey(a.vm) {
      FramedCachesStay(c, vms, s, s', CacheKey(a.vm), key);
    } else if a.result == Native {
      NativeIsTrue(c, vms, s, s', a.vm, a.reply);
    }
  }

  lemma ExportKeepsViews(c: Config, vms: set<Vm>, s: CbtState, a: Action, s': CbtState, i: nat)
    requires c.linkSafe && DistinctCaches(vms) && a.vm in vms
    requires Inv(c, vms, s) && Next(c, s, a, s') && i < |s'.views|
    ensures ViewIsTrue(c, s', s'.views[i])
  {
  }

  /** One export whose invalidation really deletes the cache keeps everything true. */
  lemma ExportKeepsInv(c: Config, vms: set<Vm>, s: CbtState, a: Action, s': CbtState)
    requires c.linkSafe && DistinctCaches(vms) && a.vm in vms
    requires Inv(c, vms, s) && Next(c, s, a, s') && !a.residue
    ensures Inv(c, vms, s')
  {
    forall key | key in s'.caches ensures CacheIsTrue(c, vms, s', key) {
      ExportKeepsCaches(c, vms, s, a, s', key);
    }
    forall i | 0 <= i < |s'.views| ensures ViewIsTrue(c, s', s'.views[i]) {
      ExportKeepsViews(c, vms, s, a, s', i);
    }
  }

  /** The main result, for VM names that do not share a cache and deletions that succeed. */
  lemma {:induction false} CachesAndViewsAreTrue(
    c: Config, vms: set<Vm>, states: seq<CbtState>, actions: seq<Action>, i: nat)
    requires c.linkSafe && DistinctCaches(vms)
    requires IsRun(c, vms, states, actions) && i < |states|
    requires forall k | 0 <= k < i :: !actions[k].residue
    ensures Inv(c, vms, states[i])
  {
    if i > 0 {
      CachesAndViewsAreTrue(c, vms, states, actions, i - 1);
      assert Next(c, states[i - 1], actions[i - 1], states[i]);
      ExportKeepsInv(c, vms, states[i - 1], actions[i - 1], states[i]);
    }
  }

  /** A reply that passed every gate reported this checkpoint to an export of the VM that returned natively. */
  ghost predicate Reported(c: Config, actions: seq<Action>, i: nat, vm: Vm, checkpoint: Checkpoint)
    requires i <= |actions|
  {
    exists k ::
      0 <= k < i && ReportedBy(c, actions[k], checkpoint) && actions[k].vm == vm && actions[k].result == Native
  }

  ghost predicate ReportedBy(c: Config, a: Action, checkpoint: Checkpoint) {
    Proven(c, a.reply) && a.reply.checkpoint == Some(checkpoint)
  }

  /**
    Over every run, whatever the helper answers and whichever deletions fail: each view comes from an
    export of its VM that returned natively, for a checkpoint whose reply passed every gate, and each
    checkpoint in a cache was reported by such a reply.
   */
  lemma {:induction false} EveryCheckpointIsProven(
    c: Config, vms: set<Vm>, states: seq<CbtState>, actions: seq<Action>, i: nat)
    requires IsRun(c, vms, states, actions) && i < |states|
    ensures forall v | v in states[i].views :: Reported(c, actions, i, v.vm, v.checkpoint)
    ensures forall key | key in states[i].caches && states[i].caches[key].checkpoint.Some? ::
              exists k :: 0 <= k < i && ReportedBy(c, actions[k], states[i].caches[key].checkpoint.value)
  {
    if i > 0 {
      EveryCheckpointIsProven(c, vms, states, actions, i - 1);
      assert Next(c, states[i - 1], actions[i - 1], states[i]);
      forall v | v in states[i].views ensures Reported(c, actions, i, v.vm, v.checkpoint) {
        if v in states[i - 1].views {
          assert Reported(c, actions, i - 1, v.vm, v.checkpoint);
        } else {
          ViewIsReported(c, states[i - 1], actions[i - 1], states[i], v);
          assert ReportedBy(c, actions[i - 1], v.checkpoint);
        }
      }
      forall key | key in states[i].caches && states[i].caches[key].checkpoint.Some?
        ensures exists k :: 0 <= k < i && ReportedBy(c, actions[k], states[i].caches[key].checkpoint.value)
      {
        CacheIsReported(c, states[i - 1], actions[i - 1], states[i], key);
        assert ReportedBy(c, actions[i - 1], states[i].caches[key].checkpoint.value) || (key in states[i - 1].caches
          && states[i - 1].caches[key].checkpoint == states[i].caches[key].checkpoint);
      }
    }
  }

  lemma ViewIsReported(c: Config, s: CbtState, a: Action, s': CbtState, v: View)
    requires Next(c, s, a, s') && v in s'.views && v !in s.views
    ensures ReportedBy(c, a, v.checkpoint) && v.vm == a.vm && a.result == Native
  {
    var j :| 0 <= j < |s'.views| && s'.views[j] == v;
    assert forall k | 0 <= k < |s.views| :: s'.views[k] in s.views;
  }

  lemma CacheIsReported(c: Config, s: CbtState, a: Action, s': CbtState, key: string)
    requires Next(c, s, a, s') && key in s'.caches && s'.caches[key].checkpoint.Some?
    ensures || ReportedBy(c, a, s'.caches[key].checkpoint.value)
            || (key in s.caches && s.caches[key].checkpoint == s'.caches[key].checkpoint)
  {
    if key != CacheKey(a.vm) {
      assert key in s'.caches - {CacheKey(a.vm)};
      assert key in s.caches - {CacheKey(a.vm)};
      assert s'.caches[key] == (s'.caches - {CacheKey(a.vm)})[key] == s.caches[key];
    }
  }

  /** In strict mode no failure ever becomes a full export, and a failed backup leaves no cache. */
  lemma StrictFailsClosed(c: Config, s: CbtState, a: Action, s': CbtState)
    requires c.strict && Next(c, s, a, s') && a.result != Native
    ensures a.result in {FailedClosed, Planned} && s'.views == s.views
    ensures a.entered && !a.residue ==> CacheKey(a.vm) !in s'.caches
  {
  }

  // ---------------------------------------------------------------- why each condition is needed

  const START := CbtState(map[], 0, map[], [])
  const ONE_FILE: Directory := map["0" := 0]

  function TwoDisks(a: Vm): Config {
    Config((cp: Checkpoint) => map["0" := if cp.vm == a then [1] else [2]], true, true, false, false, true)
  }

  /** The cache directory holds VM `a`'s block; `last` is the VM backed up last. */
  function AfterBackups(a: Vm, last: Vm, views: seq<View>): CbtState {
    CbtState(map[0 := [1]], 1, map[CacheKey(a) := Cache(ONE_FILE, true, Some(Checkpoint(last, "1")))], views)
  }

  /** The helper's report of a success at a checkpoint of the VM. */
  function Success(vm: Vm, token: string): Reply {
    Answered(true, true, "", false, false, Some(Checkpoint(vm, token)))
  }

  function ViewOf(vm: Vm): View {
    View(vm, ONE_FILE, Checkpoint(vm, "1"))
  }

  lemma FirstBackup(a: Vm)
    ensures Next(TwoDisks(a), START, Export(a, false, Native, true, false, Success(a, "1")),
                 AfterBackups(a, a, [ViewOf(a)]))
  {
  }

  /** The helper owes nothing here: the checkpoint it was handed belongs to the other VM. */
  lemma SecondBackup(a: Vm, b: Vm)
    requires a != b && CacheKey(a) == CacheKey(b)
    ensures Next(TwoDisks(a), AfterBackups(a, a, [ViewOf(a)]),
                 Export(b, false, Native, true, false, Success(b, "1")), AfterBackups(a, b, [ViewOf(a), ViewOf(b)]))
  {
  }

  lemma SecondViewIsFalse(a: Vm, b: Vm, vms: set<Vm>)
    requires a != b
    ensures !Inv(TwoDisks(a), vms, AfterBackups(a, b, [ViewOf(a), ViewOf(b)]))
  {
    var c, s := TwoDisks(a), AfterBackups(a, b, [ViewOf(a), ViewOf(b)]);
    assert Contents(s.inodes, ONE_FILE)["0"] == [1] && c.disk(Checkpoint(b, "1"))["0"] == [2];
    assert !ViewIsTrue(c, s, s.views[1]);
  }

  lemma TwoStepsAreARun(c: Config, vms: set<Vm>, s1: CbtState, s2: CbtState, first: Action, second: Action)
    requires first.vm in vms && second.vm in vms
    requires Next(c, START, first, s1) && Next(c, s1, second, s2)
    ensures IsRun(c, vms, [START, s1, s2], [first, second])
  {
  }

  /** All exports of the run found a link-safe helper and deletions that worked. */
  ghost predicate CleanRun(c: Config, vms: set<Vm>, states: seq<CbtState>, actions: seq<Action>) {
    c.linkSafe && IsRun(c, vms, states, actions) && forall k | 0 <= k < |actions| :: !actions[k].residue
  }

  /**
    Any two VMs whose names sanitize alike, two VMs of one name in different folders included, break
    the cache: after an accepted backup of each, it carries the second one's checkpoint over the
    first one's blocks.
   */
  lemma SharedCacheIsFalse(a: Vm, b: Vm, vms: set<Vm>)
    requires a in vms && b in vms && a != b && CacheKey(a) == CacheKey(b)
    ensures exists c: Config, states: seq<CbtState>, actions: seq<Action> ::
              && CleanRun(c, vms, states, actions) && |actions| == 2
              && actions[0].result == Native && actions[1].result == Native
              && !Inv(c, vms, states[2])
  {
    var s1, s2 := AfterBackups(a, a, [ViewOf(a)]), AfterBackups(a, b, [ViewOf(a), ViewOf(b)]);
    var first := Export(a, false, Native, true, false, Success(a, "1"));
    var second := Export(b, false, Native, true, false, Success(b, "1"));
    FirstBackup(a);
    SecondBackup(a, b);
    TwoStepsAreARun(TwoDisks(a), vms, s1, s2, first, second);
    SecondViewIsFalse(a, b, vms);
    assert CleanRun(TwoDisks(a), vms, [START, s1, s2], [first, second]);
    assert !Inv(TwoDisks(a), vms, [START, s1, s2][2]);
  }

  /** For link-safe helpers and deletions that work, distinct cache directories are exactly what is needed. */
  lemma TrueExactlyWhenCachesAreDistinct(vms: set<Vm>)
    ensures DistinctCaches(vms) <==>
            forall c: Config, states: seq<CbtState>, actions: seq<Action> ::
              CleanRun(c, vms, states, actions) ==> Inv(c, vms, states[|actions|])
  {
    if DistinctCaches(vms) {
      forall c: Config, states: seq<CbtState>, actions: seq<Action> | CleanRun(c, vms, states, actions)
        ensures Inv(c, vms, states[|actions|])
      {
        CachesAndViewsAreTrue(c, vms, states, actions, |actions|);
      }
    } else {
      var a, b :| a in vms && b in vms && CacheKey(a) == CacheKey(b) && a != b;
      SharedCacheIsFalse(a, b, vms);
    }
  }

  /** The helper rewrote the block, the backup was rejected, and the directory could not be deleted. */
  function AfterFailedDeletion(a: Vm): CbtState {
    CbtState(
      map[0 := [1], 1 := [9]], 2, map[CacheKey(a) := Cache(map["0" := 1], true, Some(Checkpoint(a, "1")))], [ViewOf(a)])
  }

  lemma ChangedBlockIsFalse(a: Vm)
    ensures !Inv(TwoDisks(a), {a}, AfterFailedDeletion(a))
  {
    var s := AfterFailedDeletion(a);
    assert Contents(s.inodes, map["0" := 1])["0"] == [9] && TwoDisks(a).disk(Checkpoint(a, "1"))["0"] == [1];
    assert !CacheIsTrue(TwoDisks(a), {a}, s, CacheKey(a));
  }

  lemma FailedDeletionIsAStep(a: Vm)
    ensures Next(TwoDisks(a), AfterBackups(a, a, [ViewOf(a)]),
                 Export(a, false, FailedClosed, true, true, Crashed), AfterFailedDeletion(a))
  {
  }

  lemma FirstBackupIsTrue(a: Vm)
    ensures Inv(TwoDisks(a), {a}, AfterBackups(a, a, [ViewOf(a)]))
  {
    assert Contents(map[0 := [1]], ONE_FILE) == map["0" := [1]];
  }

  /** From a true state, a deletion that fails silently leaves changed blocks under the old checkpoint. */
  lemma SilentDeletionFailureBreaksCache(a: Vm)
    ensures exists s, s' ::
              && Inv(TwoDisks(a), {a}, s)
              && Next(TwoDisks(a), s, Export(a, false, FailedClosed, true, true, Crashed), s')
              && !Inv(TwoDisks(a), {a}, s')
  {
    FirstBackupIsTrue(a);
    FailedDeletionIsAStep(a);
    ChangedBlockIsFalse(a);
  }

  /** The disk reads 1 at the first checkpoint and 2 after it; the helper writes into linked files. */
  const IN_PLACE := Config(
    (cp: Checkpoint) => map["0" := if cp.token == "1" then [1] else [2]], false, true, false, false, true)

  /** The second backup of a VM, accepted, with the block rewritten in place. */
  function AfterInPlace(a: Vm): CbtState {
    CbtState(
      map[0 := [2]], 1, map[CacheKey(a) := Cache(ONE_FILE, true, Some(Checkpoint(a, "2")))],
      [ViewOf(a), View(a, ONE_FILE, Checkpoint(a, "2"))])
  }

  lemma InPlaceIsAStep(a: Vm)
    ensures Next(IN_PLACE, AfterBackups(a, a, [ViewOf(a)]), Export(a, false, Native, true, false, Success(a, "2")),
                 AfterInPlace(a))
  {
    var s, s' := AfterBackups(a, a, [ViewOf(a)]), AfterInPlace(a);
    assert Framed(IN_PLACE, s, s', CacheKey(a)) by {
      assert ONE_FILE["0"] == 0 && 0 in ONE_FILE.Values;
    }
    assert Contents(map[0 := [2]], ONE_FILE) == map["0" := [2]];
    assert NativeEffect(IN_PLACE, s, s', a, Success(a, "2"));
  }

  /**
    From a true state with a view, one accepted backup by a helper that writes through hard links
    makes that view false.
   */
  lemma WritingThroughLinksChangesViews(a: Vm)
    ensures exists c: Config, s: CbtState, s': CbtState ::
              && !c.linkSafe && Inv(c, {a}, s) && |s.views| == 1
              && Next(c, s, Export(a, false, Native, true, false, Success(a, "2")), s')
              && s.views[0] == s'.views[0] && !ViewIsTrue(c, s', s'.views[0]) && !Inv(c, {a}, s')
  {
    var s, s' := AfterBackups(a, a, [ViewOf(a)]), AfterInPlace(a);
    assert Contents(s.inodes, ONE_FILE) == map["0" := [1]];
    assert Inv(IN_PLACE, {a}, s);
    InPlaceIsAStep(a);
    assert Contents(s'.inodes, ONE_FILE)["0"] == [2] && IN_PLACE.disk(Checkpoint(a, "1"))["0"] == [1];
    assert !ViewIsTrue(IN_PLACE, s', s'.views[0]);
  }

  // ---------------------------------------------------------------- which names share a cache

  lemma TrimNothing(s: string, drop: char -> bool)
    requires s != [] && !drop(s[0]) && !drop(s[|s| - 1])
    ensures Trim(s, drop) == s
  {
  }

  predicate AllSafe(s: string) {
    forall i | 0 <= i < |s| :: SafeChar(s[i])
  }

  lemma {:induction false} TrimLeftKeeps(s: string, drop: char -> bool)
    ensures AllSafe(s) ==> AllSafe(TrimLeft(s, drop))
  {
    if s != [] && drop(s[0]) {
      TrimLeftKeeps(s[1..], drop);
    }
  }

  lemma {:induction false} TrimRightKeeps(s: string, drop: char -> bool)
    ensures AllSafe(s) ==> AllSafe(TrimRight(s, drop))
  {
    if s != [] && drop(s[|s| - 1]) {
      TrimRightKeeps(s[..|s| - 1], drop);
    }
  }

  lemma {:induction false} SquashIsSafe(s: string, inRun: bool)
    ensures AllSafe(Squash(s, inRun))
  {
    if s != [] {
      SquashIsSafe(s[1..], !SafeChar(s[0]));
    }
  }

  /** A cache directory's name is never empty, at most 160 characters long, and made of safe characters only. */
  lemma SafeComponentIsSafe(name: string)
    ensures var r := SafeComponent(name);
            && 1 <= |r| <= 160
            && forall i | 0 <= i < |r| ::
                 ('A' <= r[i] <= 'Z') || ('a' <= r[i] <= 'z') || ('0' <= r[i] <= '9') || r[i] in {'.', '_', '-'}
  {
    var squashed := Squash(Trim(name, Space), false);
    SquashIsSafe(Trim(name, Space), false);
    TrimLeftKeeps(squashed, Edge);
    TrimRightKeeps(TrimLeft(squashed, Edge), Edge);
    assert AllSafe("unnamed");
    assert AllSafe(SafeComponent(name));
  }

  lemma {:induction false} SquashSafe(s: string, rest: string, inRun: bool)
    requires AllSafe(s)
    ensures Squash(s + rest, inRun) == s + Squash(rest, if s == [] then inRun else false)
  {
    if s == [] {
      assert s + rest == rest;
    } else {
      SquashSafe(s[1..], rest, false);
      assert (s + rest)[1..] == s[1..] + rest;
    }
  }

  lemma {:induction false} SquashUnsafe(s: string, rest: string)
    requires forall i | 0 <= i < |s| :: !SafeChar(s[i])
    ensures Squash(s + rest, true) == Squash(rest, true)
  {
    if s == [] {
      assert s + rest == rest;
    } else {
      SquashUnsafe(s[1..], rest);
      assert (s + rest)[1..] == s[1..] + rest;
    }
  }

  /** Safe, and neither begins nor ends with a character that is stripped. */
  predicate Plain(s: string) {
    s != [] && AllSafe(s) && !Edge(s[0]) && !Edge(s[|s| - 1])
  }

  lemma PlainIsKept(s: string)
    requires Plain(s) && |s| <= 160
    ensures SafeComponent(s) == s
  {
    TrimNothing(s, Space);
    SquashSafe(s, "", false);
    assert s + "" == s;
    TrimNothing(s, Edge);
  }

  lemma GapBecomesUnderscore(gap: string, b: string)
    requires AllSafe(b) && b != [] && gap != [] && forall i | 0 <= i < |gap| :: !SafeChar(gap[i])
    ensures Squash(gap + b, false) == ['_'] + b
  {
    SquashFirst(gap + b);
    assert (gap + b)[1..] == gap[1..] + b;
    SquashUnsafe(gap[1..], b);
    SquashAllSafe(b);
  }

  lemma SquashFirst(s: string)
    requires s != [] && !SafeChar(s[0])
    ensures Squash(s, false) == ['_'] + Squash(s[1..], true)
  {
  }

  lemma SquashAllSafe(s: string)
    requires AllSafe(s) && s != []
    ensures Squash(s, true) == s
  {
    SquashSafe(s, "", true);
    assert s + "" == s && Squash("", false) == "";
  }

  lemma SquashRun(a: string, gap: string, b: string)
    requires AllSafe(a) && AllSafe(b) && b != [] && gap != [] && forall i | 0 <= i < |gap| :: !SafeChar(gap[i])
    ensures Squash(a + (gap + b), false) == a + ("_" + b)
  {
    SquashSafe(a, gap + b, false);
    GapBecomesUnderscore(gap, b);
  }

  /**
    Whatever run of unsafe characters stands between two plain parts, an underscore alone takes its
    place; so names that differ only there share a directory.
   */
  lemma UnsafeRunsCollapse(a: string, gap: string, b: string)
    requires Plain(a) && Plain(b) && |a| + |b| < 160
    requires gap != [] && forall i | 0 <= i < |gap| :: !SafeChar(gap[i])
    ensures SafeComponent(a + (gap + b)) == a + ("_" + b) == SafeComponent(a + ("_" + b))
  {
    TrimNothing(a + (gap + b), Space);
    SquashRun(a, gap, b);
    TrimNothing(a + ("_" + b), Edge);
    PlainIsKept(a + ("_" + b));
  }

  /** Different names can sanitize alike: a space and an underscore land in the same directory. */
  lemma NamesCollide()
    ensures SafeComponent("a b") == SafeComponent("a_b")
  {
    UnsafeRunsCollapse("a", " ", "b");
    assert "a" + (" " + "b") == "a b" && "a" + ("_" + "b") == "a_b";
  }
}
