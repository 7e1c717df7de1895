/**
  The changed-block cache of the incremental VMware transport. The helper program is foreign: it
  is held to a stated contract and may otherwise fail, lie about its status or crash at any
  point. Cache and snapshot views share file inodes through hard links.
 */
module CbtCache {
  import opened Common

  type Inode = nat
  type FileName = string
  type Bytes = seq<bv8>

  /** The inventory path identifies a VM; its last component, the name, is all the cache directory is made from. */
  datatype Vm = Vm(id: string, name: string)

  /** A per-disk change id, as the helper reports it: it identifies a VM and a moment. */
  datatype Checkpoint = Checkpoint(vm: Vm, token: string)

  type Disk = map<FileName, Bytes>
  type Directory = map<FileName, Inode>

  datatype Cache = Cache(dir: Directory, layout: bool, checkpoint: Option<Checkpoint>)
  datatype View = View(vm: Vm, dir: Directory, checkpoint: Checkpoint)

  /**
    `disk` is the truth: the block files of a VM's disk at a checkpoint. `linkSafe` says that
    the helper replaces changed block files instead of writing into linked ones.
   */
  datatype Config = Config(
    disk: Checkpoint -> Disk, linkSafe: bool,
    strict: bool, fallbackConfigured: bool, applicationStrict: bool, quiesce: bool)

  datatype CbtState = CbtState(inodes: map<Inode, Bytes>, next: nat, caches: map<string, Cache>, views: seq<View>)

  function Contents(inodes: map<Inode, Bytes>, dir: Directory): Disk {
    map f | f in dir && dir[f] in inodes :: inodes[dir[f]]
  }

  // ---------------------------------------------------------------- cache directory names

  predicate SafeChar(c: char) {
    ('A' <= c <= 'Z') || ('a' <= c <= 'z') || ('0' <= c <= '9') || c in "._-"
  }

  predicate Space(c: char) {
    c in " \t\n\r"
  }

  predicate Edge(c: char) {
    c in "._-"
  }

  function TrimLeft(s: string, drop: char -> bool): string {
    if s != [] && drop(s[0]) then TrimLeft(s[1..], drop) else s
  }

  function TrimRight(s: string, drop: char -> bool): string {
    if s != [] && drop(s[|s| - 1]) then TrimRight(s[..|s| - 1], drop) else s
  }

  function Trim(s: string, drop: char -> bool): string {
    TrimRight(TrimLeft(s, drop), drop)
  }

  /** Each run of unsafe characters becomes one underscore. */
  function Squash(s: string, inRun: bool): string {
    if s == [] then []
    else if SafeChar(s[0]) then [s[0]] + Squash(s[1..], false)
    else (if inRun then [] else ['_']) + Squash(s[1..], true)
  }

  function SafeComponent(name: string): string {
    var cleaned := Trim(Squash(Trim(name, Space), false), Edge);
    var short := if |cleaned| > 160 then cleaned[..160] else cleaned;
    if short == "" then "unnamed" else short
  }

  /** The directory a VM's cache lives in. */
  function CacheKey(vm: Vm): string {
    SafeComponent(vm.name)
  }

  // ---------------------------------------------------------------- fallback policy

  const SAFE_CAPABILITY_REASONS: set<string> := {"helper_missing", "missing_required_capability"}

  const SAFE_PROVIDER_REASONS: set<string> := {
    "cbt_disabled", "cbt_uninitialized", "cbt_not_supported", "cbt_invalid",
    "change_id_reset", "invalid_change_id", "unsupported_disk", "baseline_required"
  }

  predicate FallbackAllowed(c: Config, reason: string, fallbackSafe: bool, capabilityStage: bool) {
    if c.strict || !c.fallbackConfigured || !fallbackSafe then false
    else reason in if capabilityStage then SAFE_CAPABILITY_REASONS else SAFE_PROVIDER_REASONS
  }

  // ---------------------------------------------------------------- the helper's contract

  /** What the helper may answer; `Crashed` covers a timeout or any unexpected exception around the call. */
  datatype Reply =
    | Answered(exitZero: bool, success: bool, reason: string, fallbackSafe: bool, attested: bool,
      checkpoint: Option<Checkpoint>)
    | Crashed

  predicate ClaimsSuccess(reply: Reply) {
    reply.Answered? && reply.exitZero && reply.success && reply.checkpoint.Some?
  }

  /** What a native backup needs of the helper's answer, application consistency included where it is required. */
  ghost predicate Proven(c: Config, reply: Reply) {
    && reply.Answered? && reply.exitZero && reply.success && reply.checkpoint.Some?
    && (c.applicationStrict && c.quiesce ==> reply.attested)
  }

  /** The helper says that it has failed, and that a full export is safe all the same. */
  ghost predicate ClaimsSafeFailure(reply: Reply) {
    reply.Answered? && !(reply.exitZero && reply.success) && reply.fallbackSafe
  }

  /** ... for a reason that is known to be safe. */
  ghost predicate FailedSafely(reply: Reply) {
    && ClaimsSafeFailure(reply)
    && reply.reason in {"cbt_disabled", "cbt_uninitialized", "cbt_not_supported", "cbt_invalid",
                        "change_id_reset", "invalid_change_id", "unsupported_disk", "baseline_required"}
  }

  /** The cache is the VM's disk at the checkpoint handed to the helper, or no checkpoint is handed over. */
  predicate TrustedBase(c: Config, inodes: map<Inode, Bytes>, cache: Cache, vm: Vm) {
    cache.checkpoint.Some? ==>
      cache.checkpoint.value.vm == vm && Contents(inodes, cache.dir) == c.disk(cache.checkpoint.value)
  }

  /**
    What the helper may do to the files of one cache. Claiming success on a trusted base
    means the cache now is the VM's disk at the new checkpoint; on any other outcome the
    files may be anything. Checkpoint and transport files are not the helper's.
   */
  predicate HelperContract(
    c: Config, vm: Vm, inodes: map<Inode, Bytes>, cache: Cache, inodes': map<Inode, Bytes>, cache': Cache,
    reply: Reply)
  {
    && inodes.Keys <= inodes'.Keys
    && (forall f | f in cache'.dir :: cache'.dir[f] in inodes')
    && (forall n | n in inodes && (c.linkSafe || n !in cache.dir.Values) :: inodes'[n] == inodes[n])
    && cache'.checkpoint == cache.checkpoint
    && (ClaimsSuccess(reply) && TrustedBase(c, inodes, cache, vm) ==>
          reply.checkpoint.value.vm == vm && Contents(inodes', cache'.dir) == c.disk(reply.checkpoint.value))
  }

  // ---------------------------------------------------------------- what an export does

  datatype BackupOutcome = Accepted | Rejected(reason: string, fallbackSafe: bool) | Ambiguous

  datatype ExportResult = Native | FullFallback | FailedClosed | Planned

  /** Nothing but this cache directory, the files it links, new inodes and new views may change. */
  ghost predicate Framed(c: Config, s: CbtState, s': CbtState, key: string) {
    && s.inodes.Keys <= s'.inodes.Keys
    && (forall n | n in s.inodes && (c.linkSafe || !(key in s.caches && n in s.caches[key].dir.Values)) ::
          s'.inodes[n] == s.inodes[n])
    && s.caches - {key} == s'.caches - {key}
    && s.views <= s'.views
  }

  /** A backup was accepted, for the checkpoint of a reply that passed every gate, and exposed as a view. */
  ghost predicate NativeEffect(c: Config, s: CbtState, s': CbtState, vm: Vm, reply: Reply) {
    var key := CacheKey(vm);
    && |s'.views| == |s.views| + 1 && key in s'.caches
    && var view, cache := s'.views[|s.views|], s'.caches[key];
    && view.vm == vm
    && Proven(c, reply) && reply.checkpoint == Some(view.checkpoint)
    && cache.checkpoint == Some(view.checkpoint) && cache.layout
    && (forall f | f in cache.dir :: cache.dir[f] in s'.inodes)
    && (forall f | f in view.dir :: view.dir[f] in s'.inodes)
    && Contents(s'.inodes, view.dir) == Contents(s'.inodes, cache.dir)
    && (TrustedBase(c, s.inodes, if key in s.caches then s.caches[key] else Cache(map[], false, None), vm) ==>
          view.checkpoint.vm == vm && Contents(s'.inodes, cache.dir) == c.disk(view.checkpoint))
  }

  /**
    `entered` says whether the helper's backup was invoked; `residue` whether deleting the
    cache afterwards failed silently, which the code ignores.
   */
  ghost predicate ExportEffect(
    c: Config, s: CbtState, s': CbtState, vm: Vm, dryRun: bool, r: ExportResult, entered: bool, residue: bool,
    reply: Reply)
  {
    var key := CacheKey(vm);
    && Framed(c, s, s', key)
    && (r == Native ==> entered && !dryRun && NativeEffect(c, s, s', vm, reply))
    && (r != Native ==> s'.views == s.views)
    && (!entered ==> s' == s)
    && (entered && r != Native && !residue ==> key !in s'.caches)
    && (dryRun ==> !entered && r != FullFallback)
    && (r == FullFallback ==> !c.strict && c.fallbackConfigured && (entered ==> FailedSafely(reply)))
    && (key in s'.caches && s'.caches[key].checkpoint != StoredCheckpoint(s, key) ==>
          Proven(c, reply) && s'.caches[key].checkpoint == reply.checkpoint)
  }

  function StoredCheckpoint(s: CbtState, key: string): Option<Checkpoint> {
    if key in s.caches then s.caches[key].checkpoint else None
  }

  // ---------------------------------------------------------------- the adapter

  class IncrementalAdapter {
    const c: Config
    var inodes: map<Inode, Bytes>
    var next: nat
    var caches: map<string, Cache>
    var views: seq<View>

    ghost function State(): CbtState
      reads this
    {
      CbtState(inodes, next, caches, views)
    }

    /** Inode numbers from `next` on are free, and directories name existing inodes. */
    ghost predicate Valid()
      reads this
    {
      && (forall n | n in inodes :: n < next)
      && (forall key | key in caches :: forall f | f in caches[key].dir :: caches[key].dir[f] in inodes)
      && (forall i | 0 <= i < |views| :: forall f | f in views[i].dir :: views[i].dir[f] in inodes)
    }

    constructor (c: Config)
      ensures this.c == c && State() == CbtState(map[], 0, map[], []) && Valid()
    {
      this.c := c;
      inodes, next, caches, views := map[], 0, map[], [];
    }

    /** Runs the helper on a cache: anything its contract permits, or a crash that did nothing. */
    method RunHelper(vm: Vm, cache: Cache) returns (reply: Reply, after: Cache)
      requires Valid() && forall f | f in cache.dir :: cache.dir[f] in inodes
      modifies this`inodes, this`next
      ensures Valid() && HelperContract(c, vm, old(inodes), cache, inodes, after, reply)
    {
      var files: map<Inode, Bytes>, answer: Reply, tree: Cache, last: int := *, *, *, *;
      if HelperContract(c, vm, inodes, cache, files, tree, answer) && last >= 0 && forall n | n in files :: n < last {
        inodes, next := files, last;
        return answer, tree;
      }
      return Crashed, cache;
    }

    /**
      The gates between the helper's answer and an advanced checkpoint; `written` says whether the
      files written past them were.
     */
    method Backup(
      vm: Vm, available: bool, unavailableReason: string, cache: Cache)
      returns (r: BackupOutcome, after: Cache, ghost reply: Reply, ghost written: bool)
      requires Valid() && forall f | f in cache.dir :: cache.dir[f] in inodes
      modifies this`inodes, this`next
      ensures Valid()
      ensures forall f | f in after.dir :: after.dir[f] in inodes
      ensures inodes.Keys >= old(inodes).Keys
      ensures forall n | n in old(inodes) && (c.linkSafe || n !in cache.dir.Values) :: inodes[n] == old(inodes)[n]
      ensures r == Accepted <==> available && Proven(c, reply) && after.layout && written
      ensures r == Accepted ==> after.checkpoint == reply.checkpoint
      ensures after.checkpoint != cache.checkpoint ==>
                available && Proven(c, reply) && after.layout && after.checkpoint == reply.checkpoint
      ensures r.Rejected? && r.fallbackSafe <==> available && ClaimsSafeFailure(reply)
      ensures r.Rejected? && r.fallbackSafe ==>
                r.reason == if reply.reason != "" then reply.reason else "provider_error"
      ensures r == Accepted && TrustedBase(c, old(inodes), cache, vm) ==>
                after.checkpoint.value.vm == vm && Contents(inodes, after.dir) == c.disk(after.checkpoint.value)
    {
      reply, written := Crashed, false;
      if !available {
        return Rejected(unavailableReason, false), cache, reply, written;
      }
      var answer: Reply;
      answer, after := RunHelper(vm, cache);
      reply := answer;
      if answer.Crashed? {
        return Ambiguous, after, reply, written;
      }
      if !answer.exitZero || !answer.success {
        var reason := if answer.reason != "" then answer.reason else "provider_error";
        return Rejected(reason, answer.fallbackSafe), after, reply, written;
      }
      if c.applicationStrict && c.quiesce && !answer.attested {
        return Rejected("application_consistency_unproven", false), after, reply, written;
      }
      if !after.layout {
        return Rejected("missing_layout", false), after, reply, written;
      }
      if answer.checkpoint.None? {
        return Rejected("missing_checkpoint", false), after, reply, written;
      }
      after := after.(checkpoint := answer.checkpoint);
      var saved: bool := *;
      written := saved;
      r := if saved then Accepted else Ambiguous;
    }

    /** Exposes a cache as a snapshot view: hard links where the file system allows, copies elsewhere. */
    method SnapshotView(cache: Cache) returns (ok: bool, dir: Directory)
      requires Valid() && forall f | f in cache.dir :: cache.dir[f] in inodes
      modifies this`inodes, this`next
      ensures Valid() && inodes.Keys >= old(inodes).Keys
      ensures forall n | n in old(inodes) :: inodes[n] == old(inodes)[n]
      ensures ok ==>
                && dir.Keys == cache.dir.Keys
                && forall f | f in dir :: dir[f] in inodes && inodes[dir[f]] == inodes[cache.dir[f]]
    {
      dir := map[];
      var todo := cache.dir.Keys;
      while todo != {}
        invariant todo <= cache.dir.Keys && dir.Keys == cache.dir.Keys - todo
        invariant Valid() && inodes.Keys >= old(inodes).Keys
        invariant forall n | n in old(inodes) :: inodes[n] == old(inodes)[n]
        invariant forall f | f in dir :: dir[f] in inodes && inodes[dir[f]] == inodes[cache.dir[f]]
        decreases todo
      {
        var f :| f in todo;
        var linked: bool, copied: bool := *, *;
        if linked {
          dir := dir[f := cache.dir[f]];
        } else if copied {
          inodes := inodes[next := inodes[cache.dir[f]]];
          dir := dir[f := next];
          next := next + 1;
        } else {
          return false, dir;
        }
        todo := todo - {f};
      }
      ok := true;
    }
  
    /** Deletes a cache; a deletion that fails silently leaves the uncertain files behind. */
    method Invalidate(key: string, uncertain: Cache) returns (residue: bool)
      requires Valid() && forall f | f in uncertain.dir :: uncertain.dir[f] in inodes
      modifies this`caches
      ensures Valid()
      ensures caches == if residue then old(caches)[key := uncertain] else old(caches) - {key}
    {
      residue := *;
      caches := if residue then caches[key := uncertain] else caches - {key};
    }

    /** The hot-clone export that may stand in for a native backup; it touches neither cache nor views. */
    method FullExport(capabilityStage: bool, reason: string, fallbackSafe: bool)
      returns (r: ExportResult, ghost exported: bool)
      ensures r == if FallbackAllowed(c, reason, fallbackSafe, capabilityStage) && exported then FullFallback
                   else FailedClosed
    {
      var done: bool := *;
      exported := done;
      r := if FallbackAllowed(c, reason, fallbackSafe, capabilityStage) && done then FullFallback else FailedClosed;
    }

    /** Backs up into a cache and links or copies it into a view directory; `kept` says whether all files were. */
    method BackUpAndView(vm: Vm, stillAvailable: bool, reason: string, cache: Cache)
      returns (outcome: BackupOutcome, after: Cache, dir: Directory, ghost reply: Reply, ghost kept: bool)
      requires Valid() && forall f | f in cache.dir :: cache.dir[f] in inodes
      modifies this`inodes, this`next
      ensures Valid() && inodes.Keys >= old(inodes).Keys
      ensures forall n | n in old(inodes) && (c.linkSafe || n !in cache.dir.Values) :: inodes[n] == old(inodes)[n]
      ensures forall f | f in after.dir :: after.dir[f] in inodes
      ensures outcome == Accepted <==> stillAvailable && Proven(c, reply) && after.layout && kept
      ensures after.checkpoint != cache.checkpoint ==> Proven(c, reply) && after.checkpoint == reply.checkpoint
      ensures outcome.Rejected? && outcome.fallbackSafe <==> stillAvailable && ClaimsSafeFailure(reply)
      ensures outcome.Rejected? && outcome.fallbackSafe ==>
                outcome.reason == if reply.reason != "" then reply.reason else "provider_error"
      ensures outcome == Accepted ==>
                && after.checkpoint == reply.checkpoint
                && (forall f | f in dir :: dir[f] in inodes)
                && Contents(inodes, dir) == Contents(inodes, after.dir)
      ensures outcome == Accepted && TrustedBase(c, old(inodes), cache, vm) ==>
                after.checkpoint.value.vm == vm && Contents(inodes, after.dir) == c.disk(after.checkpoint.value)
    {
      dir := map[];
      outcome, after, reply, kept := Backup(vm, stillAvailable, reason, cache);
      if outcome != Accepted { return; }
      ghost var backed := inodes;
      var viewed;
      viewed, dir := SnapshotView(after);
      assert Contents(inodes, after.dir) == Contents(backed, after.dir);
      kept := viewed;
      if !viewed {
        outcome := Ambiguous;
      }
    }

    /** The try block: back up, then expose the view; `after` is the cache as it was left. */
    method TryNative(vm: Vm, stillAvailable: bool, reason: string)
      returns (outcome: BackupOutcome, after: Cache, ghost reply: Reply, ghost kept: bool)
      requires Valid()
      modifies this
      ensures Valid() && forall f | f in after.dir :: after.dir[f] in inodes
      ensures Framed(c, old(State()), State(), CacheKey(vm))
      ensures outcome == Accepted <==> stillAvailable && Proven(c, reply) && after.layout && kept
      ensures outcome == Accepted ==> NativeEffect(c, old(State()), State(), vm, reply)
      ensures outcome != Accepted ==> caches == old(caches) && views == old(views)
      ensures after.checkpoint != StoredCheckpoint(old(State()), CacheKey(vm)) ==>
                Proven(c, reply) && after.checkpoint == reply.checkpoint
      ensures outcome.Rejected? && outcome.fallbackSafe <==> stillAvailable && ClaimsSafeFailure(reply)
      ensures outcome.Rejected? && outcome.fallbackSafe ==>
                outcome.reason == if reply.reason != "" then reply.reason else "provider_error"
      ensures outcome == Accepted ==> caches == old(caches)[CacheKey(vm) := after]
    {
      var key := CacheKey(vm);
      var cache := if key in caches then caches[key] else Cache(map[], false, None);
      var dir;
      outcome, after, dir, reply, kept := BackUpAndView(vm, stillAvailable, reason, cache);
      if outcome == Accepted {
        caches := caches[key := after];
        views := views + [View(vm, dir, after.checkpoint.value)];
      }
    }

    /** A failed native backup: the cache goes, and only a rejection may lead to a full export. */
    method FallBack(vm: Vm, outcome: BackupOutcome, after: Cache)
      returns (r: ExportResult, ghost residue: bool, ghost exported: bool)
      requires Valid() && forall f | f in after.dir :: after.dir[f] in inodes
      requires outcome != Accepted
      modifies this`caches
      ensures Valid()
      ensures caches == if residue then old(caches)[CacheKey(vm) := after] else old(caches) - {CacheKey(vm)}
      ensures r == if outcome.Rejected? && FallbackAllowed(c, outcome.reason, outcome.fallbackSafe, false) && exported
                   then FullFallback else FailedClosed
    {
      residue := Invalidate(CacheKey(vm), after);
      exported := false;
      if outcome.Rejected? {
        r, exported := FullExport(false, outcome.reason, outcome.fallbackSafe);
      } else {
        r := FailedClosed;
      }
    }

    /** An export that has entered the provider's backup. */
    method ExportNative(vm: Vm, stillAvailable: bool, reason: string)
      returns (r: ExportResult, ghost residue: bool, ghost reply: Reply, ghost kept: bool, ghost exported: bool)
      requires Valid()
      modifies this
      ensures Valid()
      ensures ExportEffect(c, old(State()), State(), vm, false, r, true, residue, reply)
      ensures r == Native <==> stillAvailable && Proven(c, reply) && kept
      ensures r == FullFallback <==>
                exported && !c.strict && c.fallbackConfigured && stillAvailable && FailedSafely(reply)
      ensures r != Planned
    {
      var outcome, after;
      outcome, after, reply, kept := TryNative(vm, stillAvailable, reason);
      kept := kept && after.layout;
      residue, exported := false, false;
      if outcome == Accepted {
        r := Native;
      } else {
        r, residue, exported := FallBack(vm, outcome, after);
      }
    }

    /**
      One export. The capability probe runs first, and again inside the backup; `available`
      and `stillAvailable` are its two answers, `reply` is the helper's, `kept` says whether the files
      of a native backup and its view were written, `exported` whether a full export succeeded.
     */
    method Export(vm: Vm, dryRun: bool, available: bool, stillAvailable: bool, reason: string)
      returns (r: ExportResult, ghost entered: bool, ghost residue: bool, ghost reply: Reply, ghost kept: bool,
        ghost exported: bool)
      requires Valid()
      modifies this
      ensures Valid()
      ensures ExportEffect(c, old(State()), State(), vm, dryRun, r, entered, residue, reply)
      ensures entered <==> available && !dryRun
      ensures r == Native <==> entered && stillAvailable && Proven(c, reply) && kept
      ensures r == FullFallback <==>
                && exported && !dryRun && !c.strict && c.fallbackConfigured
                && if available then stillAvailable && FailedSafely(reply)
                   else reason in {"helper_missing", "missing_required_capability"}
      ensures dryRun ==>
                (r == Planned <==> available || (!c.strict && c.fallbackConfigured
                                                 && reason in {"helper_missing", "missing_required_capability"}))
    {
      entered, residue, reply, kept, exported := false, false, Crashed, false, false;
      if !available {
        if dryRun {
          r := if FallbackAllowed(c, reason, true, true) then Planned else FailedClosed;
          return;
        }
        r, exported := FullExport(true, reason, true);
        return;
      }
      if dryRun {
        r := Planned;
        return;
      }
      entered := true;
      r, residue, reply, kept, exported := ExportNative(vm, stillAvailable, reason);
    }
  }
}
