/**
  Importing a converted VM into Proxmox: a sequence of remote commands, any of which may fail or
  raise, with rollback of the new VM and removal of every uploaded temporary disk.
 */
module ProxmoxImport {
  import opened Common

  type VmId = nat
  type Image = seq<bv8>

  /** A volume's name carries the id of the VM it belongs to, whether or not that VM exists. */
  datatype Volume = Volume(owner: VmId, number: nat)

  datatype Nic = Nic(mac: Option<string>, bridge: string)

  /** A VM's configuration as `qm config` shows it; every VM here is powered off. */
  datatype VmConfig = VmConfig(
    name: string, nets: map<nat, Nic>, virtio: map<nat, Volume>, unused: map<nat, Volume>,
    boot: seq<nat>, ovmf: bool, efiDisk: bool)

  datatype SourceNic = SourceNic(mac: Option<string>, network: string)

  datatype Bundle = Bundle(disks: seq<Image>, nics: seq<SourceNic>, uefi: bool)

  /** Temporary disks on the remote host are named by VM id and disk index. */
  datatype TempFile = TempFile(vmid: VmId, index: nat)

  // ---------------------------------------------------------------- network mapping

  predicate ValidName(s: string) {
    1 <= |s| <= 64 && forall i | 0 <= i < |s| ::
      ('A' <= s[i] <= 'Z') || ('a' <= s[i] <= 'z') || ('0' <= s[i] <= '9') || s[i] in "_.:-"
  }

  datatype Mapping = Mapping(
    byNetwork: map<string, string>, byIndex: map<nat, string>, fallback: string, required: bool)

  function Lookup<K>(m: map<K, string>, key: K): string {
    if key in m then m[key] else ""
  }

  /** An empty name counts as no mapping; the first of network, index, wildcard and default that is not empty wins. */
  function BridgeFor(m: Mapping, nic: SourceNic, index: nat): Option<string> {
    var network := if nic.network == "" then "default" else nic.network;
    var byName, byIndex, wildcard := Lookup(m.byNetwork, network), Lookup(m.byIndex, index), Lookup(m.byNetwork, "*");
    var chosen :=
      if byName != "" then byName else if byIndex != "" then byIndex else if wildcard != "" then wildcard
        else m.fallback;
    if chosen == "" && m.required then None
    else
      var bridge := if chosen == "" then "vmbr0" else chosen;
      if ValidName(bridge) then Some(bridge) else None
  }

  /** The names that may apply to a NIC, in the order in which they are tried. */
  ghost function Candidates(m: Mapping, nic: SourceNic, index: nat): seq<string> {
    var network := if nic.network == "" then "default" else nic.network;
    [Lookup(m.byNetwork, network), Lookup(m.byIndex, index), Lookup(m.byNetwork, "*"), m.fallback]
  }

  /** The name is the first candidate that is not empty, or `vmbr0` where there is none and none is required. */
  ghost predicate FirstChoice(m: Mapping, nic: SourceNic, index: nat, bridge: string) {
    var names := Candidates(m, nic, index);
    || (exists k :: 0 <= k < 4 && names[k] == bridge != "" && forall j | 0 <= j < k :: names[j] == "")
    || (bridge == "vmbr0" && !m.required && forall j | 0 <= j < 4 :: names[j] == "")
  }

  /** A valid name has 1 to 64 characters: letters, digits, and four others. */
  lemma ValidNameExactly(s: string)
    ensures ValidName(s) <==> 1 <= |s| <= 64 && forall c | c in s ::
              ('A' <= c <= 'Z') || ('a' <= c <= 'z') || ('0' <= c <= '9') || c in {'_', '.', ':', '-'}
  {
    if ValidName(s) {
      forall c | c in s
        ensures ('A' <= c <= 'Z') || ('a' <= c <= 'z') || ('0' <= c <= '9') || c in {'_', '.', ':', '-'}
      {
        var i :| 0 <= i < |s| && s[i] == c;
      }
    }
    assert forall i | 0 <= i < |s| :: s[i] in s;
  }

  /** A NIC is mapped exactly to its first choice, and only if that is a valid name. */
  lemma BridgeIsFirstChoice(m: Mapping, nic: SourceNic, index: nat, bridge: string)
    ensures BridgeFor(m, nic, index) == Some(bridge) <==> FirstChoice(m, nic, index, bridge) && ValidName(bridge)
  {
    var names := Candidates(m, nic, index);
    if names[0] != "" {
    } else if names[1] != "" {
    } else if names[2] != "" {
    } else if names[3] != "" {
    }
  }

  method MappedBridges(m: Mapping, nics: seq<SourceNic>) returns (bridges: Option<seq<string>>)
    ensures bridges.Some? <==> forall i | 0 <= i < |nics| :: BridgeFor(m, nics[i], i).Some?
    ensures bridges.Some? ==>
              && |bridges.value| == |nics|
              && forall i | 0 <= i < |nics| :: BridgeFor(m, nics[i], i) == Some(bridges.value[i])
  {
    var result, i := [], 0;
    while i < |nics|
      invariant i <= |nics| && |result| == i
      invariant forall k | 0 <= k < i :: BridgeFor(m, nics[k], k) == Some(result[k])
    {
      var bridge := BridgeFor(m, nics[i], i);
      if bridge.None? { return None; }
      result := result + [bridge.value];
      i := i + 1;
    }
    bridges := Some(result);
  }

  /** The unused entry with the highest number. */
  method UnusedVolume(unused: map<nat, Volume>) returns (r: Option<(nat, Volume)>)
    ensures r.None? <==> unused == map[]
    ensures r.Some? ==>
              r.value.0 in unused && unused[r.value.0] == r.value.1 && forall n | n in unused :: n <= r.value.0
  {
    r := None;
    var todo := unused.Keys;
    while todo != {}
      invariant todo <= unused.Keys
      invariant r.None? ==> todo == unused.Keys
      invariant r.Some? ==>
                  && r.value.0 in unused && unused[r.value.0] == r.value.1
                  && forall n | n in unused && n !in todo :: n <= r.value.0
      decreases todo
    {
      var n :| n in todo;
      if r.None? || n > r.value.0 {
        r := Some((n, unused[n]));
      }
      todo := todo - {n};
    }
    if r.None? {
      assert unused.Keys == {};
    }
  }

  // ---------------------------------------------------------------- what a finished VM is

  function Nets(bundle: Bundle, bridges: seq<string>): map<nat, Nic>
    requires |bridges| == |bundle.nics|
  {
    map i: nat | i < |bundle.nics| :: Nic(bundle.nics[i].mac, bridges[i])
  }

  function Count(n: nat): seq<nat> {
    seq(n, i requires 0 <= i < n => i)
  }

  /** The first `n` disks are attached in order, on volumes of the VM's own, and nothing is left unattached. */
  ghost predicate DisksAttached(bundle: Bundle, id: VmId, vm: VmConfig, volumes: map<Volume, Image>, n: nat)
    requires n <= |bundle.disks|
  {
    && vm.unused == map[]
    && (forall i :: i in vm.virtio <==> 0 <= i < n)
    && forall i | 0 <= i < n ::
         vm.virtio[i] in volumes && volumes[vm.virtio[i]] == bundle.disks[i] && vm.virtio[i].owner == id
  }

  ghost predicate Complete(
    bundle: Bundle, bridges: seq<string>, name: string, id: VmId, vm: VmConfig, volumes: map<Volume, Image>)
    requires |bridges| == |bundle.nics|
  {
    && vm.name == name
    && (forall i :: i in vm.nets <==> 0 <= i < |bundle.nics|)
    && (forall i | 0 <= i < |bundle.nics| :: vm.nets[i] == Nic(bundle.nics[i].mac, bridges[i]))
    && vm.ovmf == bundle.uefi && vm.efiDisk == bundle.uefi
    && DisksAttached(bundle, id, vm, volumes, |bundle.disks|)
    && |vm.boot| == |bundle.disks| && forall i | 0 <= i < |bundle.disks| :: vm.boot[i] == i
  }

  /** The checks made on the configuration read back at the end. */
  predicate Validates(bundle: Bundle, config: VmConfig) {
    && (forall i | 0 <= i < |bundle.disks| :: i in config.virtio)
    && (forall i | 0 <= i < |bundle.nics| :: i in config.nets)
    && (bundle.uefi ==> config.ovmf)
  }

  // ---------------------------------------------------------------- what an import does

  datatype HostState = HostState(vms: map<VmId, VmConfig>, files: map<TempFile, Image>, volumes: map<Volume, Image>)

  datatype Request = Request(
    bundle: Bundle, name: string, vmid: VmId, storage: string, efiStorage: string, mapping: Mapping, dryRun: bool)

  ghost predicate MapsTo(r: Request, bridges: seq<string>) {
    && |bridges| == |r.bundle.nics|
    && forall i | 0 <= i < |bridges| :: BridgeFor(r.mapping, r.bundle.nics[i], i) == Some(bridges[i])
  }

  /** The volumes that belong to other VMs. */
  function OfOthers(volumes: map<Volume, Image>, vmid: VmId): map<Volume, Image> {
    map v | v in volumes && v.owner != vmid :: volumes[v]
  }

  ghost predicate ImportEffect(
    r: Request, s: HostState, s': HostState, ok: bool, rolledBack: bool, uploaded: nat, bridges: seq<string>)
  {
    // A rollback deletes every volume of the VM id, older ones too; a finished import adds only such volumes.
    && (rolledBack ==> !ok && r.vmid !in s.vms && s'.volumes == OfOthers(s.volumes, r.vmid))
    && (!rolledBack ==>
          if ok && !r.dryRun then
            && OfOthers(s'.volumes, r.vmid) == OfOthers(s.volumes, r.vmid)
            && forall v | v in s.volumes :: v in s'.volumes && s'.volumes[v] == s.volumes[v]
          else s'.volumes == s.volumes)
    // Whatever happens, foreign temporary files are as before.
    && (forall f: TempFile | f.vmid != r.vmid || f.index >= uploaded ::
          (f in s'.files <==> f in s.files) && (f in s'.files ==> s'.files[f] == s.files[f]))
    // No uploaded temporary disk remains.
    && (forall f: TempFile | f.vmid == r.vmid && f.index < uploaded :: f !in s'.files)
    // The new VM is absent, or new and complete; the other VMs are as before.
    && (if ok && !r.dryRun then
          && r.vmid !in s.vms && r.vmid in s'.vms && s'.vms == s.vms[r.vmid := s'.vms[r.vmid]]
          && MapsTo(r, bridges) && Complete(r.bundle, bridges, r.name, r.vmid, s'.vms[r.vmid], s'.volumes)
        else s'.vms == s.vms)
    // Bad storage names and unmappable NICs are refused.
    && (ok ==> ValidName(r.storage) && (r.bundle.uefi ==> ValidName(r.efiStorage)) && MapsTo(r, bridges))
  }

  // ---------------------------------------------------------------- the remote host

  ghost predicate SameExcept(vmid: VmId, a: map<VmId, VmConfig>, b: map<VmId, VmConfig>) {
    forall id | id != vmid :: (id in a <==> id in b) && (id in a ==> a[id] == b[id])
  }

  /** Two configurations that differ in one new VM alone. */
  lemma OneNewVm(vmid: VmId, a: map<VmId, VmConfig>, b: map<VmId, VmConfig>)
    requires SameExcept(vmid, a, b) && vmid !in b
    ensures a - {vmid} == b
    ensures vmid in a ==> a == b[vmid := a[vmid]]
  {
  }

  /** Attaching a new volume with disk `i`'s image as the next one. */
  lemma OneMoreAttached(
    bundle: Bundle, id: VmId, vm: VmConfig, vm': VmConfig, volumes: map<Volume, Image>, volumes': map<Volume, Image>,
    i: nat, volume: Volume)
    requires i < |bundle.disks| && DisksAttached(bundle, id, vm, volumes, i)
    requires forall v | v in volumes :: v in volumes' && volumes'[v] == volumes[v]
    requires volume in volumes' && volumes'[volume] == bundle.disks[i] && volume.owner == id
    requires vm' == vm.(virtio := vm.virtio[i := volume])
    ensures DisksAttached(bundle, id, vm', volumes', i + 1)
  {
  }

  class PveHost {
    var vms: map<VmId, VmConfig>
    var files: map<TempFile, Image>
    var volumes: map<Volume, Image>
    var nextVolume: nat

    ghost predicate Valid()
      reads this
    {
      forall v | v in volumes :: v.number < nextVolume
    }

    constructor ()
      ensures Valid()
    {
      vms, files, volumes, nextVolume := map[], map[], map[], 0;
    }

    /** Everything on the host except one VM's configuration and new volumes of its own. */
    ghost predicate OthersKept(vmid: VmId, vms0: map<VmId, VmConfig>, volumes0: map<Volume, Image>)
      reads this
    {
      && SameExcept(vmid, vms, vms0)
      && OfOthers(volumes, vmid) == OfOthers(volumes0, vmid)
      && forall v | v in volumes0 :: v in volumes && volumes[v] == volumes0[v]
    }

    /** Only the first `count` temporary disks of this VM id may differ. */
    ghost predicate FilesKept(vmid: VmId, count: nat, files0: map<TempFile, Image>)
      reads this
    {
      forall f: TempFile | f.vmid != vmid || f.index >= count ::
        (f in files <==> f in files0) && (f in files ==> files[f] == files0[f])
    }

    /** A configuration command on the new VM; when it fails it may leave any configuration behind. */
    method Set(vmid: VmId, config: VmConfig) returns (ok: bool)
      requires vmid in vms
      modifies this`vms
      ensures vmid in vms && SameExcept(vmid, vms, old(vms))
      ensures ok ==> vms[vmid] == config
    {
      ok := *;
      var broken: VmConfig := *;
      vms := vms[vmid := if ok then config else broken];
    }

    /** `qm create`: refuses an existing id and leaves nothing behind when it fails. */
    method Create(vmid: VmId, config: VmConfig) returns (ok: bool)
      modifies this`vms
      ensures ok ==> vmid !in old(vms)
      ensures vms == if ok then old(vms)[vmid := config] else old(vms)
    {
      var accepted: bool := *;
      ok := accepted && vmid !in vms;
      if ok {
        vms := vms[vmid := config];
      }
    }

    /** `scp`: a failed upload may leave a partial file. */
    method Upload(file: TempFile, image: Image) returns (ok: bool)
      modifies this`files
      ensures forall f | f != file :: (f in files <==> f in old(files)) && (f in files ==> files[f] == old(files)[f])
      ensures ok ==> file in files && files[file] == image
    {
      ok := *;
      var part: Image, touched: bool := *, *;
      if ok {
        files := files[file := image];
      } else if touched {
        files := files[file := part];
      }
    }

    /** `qm importdisk`: a new volume with the file's image appears under some free unused key. */
    method ImportDisk(vmid: VmId, file: TempFile) returns (ok: bool, ghost volume: Volume)
      requires Valid() && vmid in vms && file in files
      modifies this`vms, this`volumes, this`nextVolume
      ensures Valid() && vmid in vms && SameExcept(vmid, vms, old(vms))
      ensures forall v | v in old(volumes) :: v in volumes && volumes[v] == old(volumes)[v]
      ensures OfOthers(volumes, vmid) == OfOthers(old(volumes), vmid)
      ensures ok ==> volume !in old(volumes) && volume in volumes && volumes[volume] == files[file]
      ensures volume.owner == vmid
      ensures ok ==> exists k: nat | k !in old(vms)[vmid].unused ::
                vms[vmid] == old(vms)[vmid].(unused := old(vms)[vmid].unused[k := volume])
    {
      var succeeded: bool, k: int, broken: VmConfig := *, *, *;
      volume := Volume(vmid, nextVolume);
      volumes := volumes[Volume(vmid, nextVolume) := files[file]];
      nextVolume := nextVolume + 1;
      ok := succeeded && k >= 0 && k !in vms[vmid].unused;
      if ok {
        vms := vms[vmid := vms[vmid].(unused := vms[vmid].unused[k := Volume(vmid, nextVolume - 1)])];
      } else {
        vms := vms[vmid := broken];
      }
    }

    /** Moves the imported volume from its unused key, read off the configuration, to bus position `i`. */
    method Attach(vmid: VmId, i: nat) returns (ok: bool)
      requires vmid in vms
      modifies this`vms
      ensures vmid in vms && SameExcept(vmid, vms, old(vms))
      ensures ok ==> exists k: nat | k in old(vms)[vmid].unused ::
                && (forall n | n in old(vms)[vmid].unused :: n <= k)
                && vms[vmid] == old(vms)[vmid].(unused := old(vms)[vmid].unused - {k},
                                                virtio := old(vms)[vmid].virtio[i := old(vms)[vmid].unused[k]])
    {
      var readable: bool := *;
      if !readable { return false; }
      var config := vms[vmid];
      var found := UnusedVolume(config.unused);
      if found.None? { return false; }
      ok := Set(vmid, config.(unused := config.unused - {found.value.0}));
      if !ok { return; }
      ok := Set(vmid, vms[vmid].(virtio := vms[vmid].virtio[i := found.value.1]));
    }

    /** Uploads, imports and attaches one disk. */
    method ImportAndAttach(bundle: Bundle, vmid: VmId, i: nat) returns (ok: bool)
      requires Valid() && vmid in vms && i < |bundle.disks| && DisksAttached(bundle, vmid, vms[vmid], volumes, i)
      modifies this`vms, this`files, this`volumes, this`nextVolume
      ensures Valid() && vmid in vms
      ensures OthersKept(vmid, old(vms), old(volumes))
      ensures forall f | f != TempFile(vmid, i) ::
                (f in files <==> f in old(files)) && (f in files ==> files[f] == old(files)[f])
      ensures ok ==> DisksAttached(bundle, vmid, vms[vmid], volumes, i + 1)
      ensures ok ==> vms[vmid] == old(vms)[vmid].(virtio := vms[vmid].virtio)
    {
      ghost var before, kept := vms[vmid], volumes;
      var remote := TempFile(vmid, i);
      ok := Upload(remote, bundle.disks[i]);
      if !ok { return; }
      ghost var volume;
      ok, volume := ImportDisk(vmid, remote);
      if !ok { return; }
      ghost var imported := vms[vmid];
      ok := Attach(vmid, i);
      if ok {
        assert vms[vmid] == imported.(unused := map[], virtio := imported.virtio[i := volume]);
        OneMoreAttached(bundle, vmid, before, vms[vmid], kept, volumes, i, volume);
      }
    }

    /** Imports the disks in order; `uploaded` counts the temporary disks that may exist remotely. */
    method ImportDisks(bundle: Bundle, vmid: VmId) returns (ok: bool, uploaded: nat)
      requires Valid() && vmid in vms && DisksAttached(bundle, vmid, vms[vmid], volumes, 0)
      modifies this`vms, this`files, this`volumes, this`nextVolume
      ensures Valid() && vmid in vms && uploaded <= |bundle.disks|
      ensures OthersKept(vmid, old(vms), old(volumes))
      ensures FilesKept(vmid, uploaded, old(files))
      ensures ok ==> DisksAttached(bundle, vmid, vms[vmid], volumes, |bundle.disks|)
      ensures ok ==> vms[vmid] == old(vms)[vmid].(virtio := vms[vmid].virtio)
    {
      uploaded := 0;
      while uploaded < |bundle.disks|
        invariant Valid() && vmid in vms && uploaded <= |bundle.disks|
        invariant OthersKept(vmid, old(vms), old(volumes))
        invariant FilesKept(vmid, uploaded, old(files))
        invariant DisksAttached(bundle, vmid, vms[vmid], volumes, uploaded)
        invariant vms[vmid] == old(vms)[vmid].(virtio := vms[vmid].virtio)
      {
        ok := ImportAndAttach(bundle, vmid, uploaded);
        uploaded := uploaded + 1;
        if !ok { return; }
      }
      ok := true;
    }

    /** From the created VM to the validated one. */
    method Populate(bundle: Bundle, vmid: VmId) returns (ok: bool, uploaded: nat)
      requires Valid() && vmid in vms && DisksAttached(bundle, vmid, vms[vmid], volumes, 0)
      modifies this`vms, this`files, this`volumes, this`nextVolume
      ensures Valid() && vmid in vms && uploaded <= |bundle.disks|
      ensures OthersKept(vmid, old(vms), old(volumes))
      ensures FilesKept(vmid, uploaded, old(files))
      ensures ok ==> DisksAttached(bundle, vmid, vms[vmid], volumes, |bundle.disks|)
      ensures ok ==>
                vms[vmid] == old(vms)[vmid].(
                  virtio := vms[vmid].virtio, boot := Count(|bundle.disks|),
                  efiDisk := bundle.uefi || old(vms)[vmid].efiDisk)
      ensures ok ==> Validates(bundle, vms[vmid])
    {
      uploaded := 0;
      if bundle.uefi {
        ok := Set(vmid, vms[vmid].(efiDisk := true));
        if !ok { return; }
      }
      ok, uploaded := ImportDisks(bundle, vmid);
      if !ok { return; }
      ok := Set(vmid, vms[vmid].(boot := Count(|bundle.disks|)));
      if !ok { return; }
      var readable: bool := *;
      ok := readable && Validates(bundle, vms[vmid]);
    }

    /**
      `qm destroy` with unreferenced disks: the VM and every volume that belongs to its id. This and
      the `rm -f` on the way out are assumed to work.
     */
    method Destroy(vmid: VmId)
      requires Valid()
      modifies this`vms, this`volumes
      ensures Valid()
      ensures vms == old(vms) - {vmid} && volumes == OfOthers(old(volumes), vmid)
    {
      vms, volumes := vms - {vmid}, OfOthers(volumes, vmid);
    }

    method RemoveTemporary(vmid: VmId, uploaded: nat)
      modifies this`files
      ensures forall f :: f in files <==> f in old(files) && !(f.vmid == vmid && f.index < uploaded)
      ensures forall f | f in files :: files[f] == old(files)[f]
    {
      files := map f | f in files && !(f.vmid == vmid && f.index < uploaded) :: files[f];
    }

    /** The try block with its rollback and cleanup, once the checks before it have passed. */
    method CreateAndPopulate(
      bundle: Bundle, name: string, vmid: VmId, bridges: seq<string>)
      returns (ok: bool, uploaded: nat, ghost rolledBack: bool)
      requires Valid() && |bridges| == |bundle.nics|
      modifies this
      ensures Valid()
      ensures rolledBack ==> !ok && vmid !in old(vms) && volumes == OfOthers(old(volumes), vmid)
      ensures !ok && !rolledBack ==> volumes == old(volumes)
      ensures ok ==> OthersKept(vmid, old(vms), old(volumes))
      ensures FilesKept(vmid, uploaded, old(files))
      ensures forall f: TempFile | f.vmid == vmid && f.index < uploaded :: f !in files
      ensures !ok ==> vms == old(vms)
      ensures ok ==> vmid !in old(vms) && vmid in vms && vms == old(vms)[vmid := vms[vmid]]
      ensures ok ==> Complete(bundle, bridges, name, vmid, vms[vmid], volumes)
    {
      uploaded, rolledBack := 0, false;
      ok := Create(vmid, VmConfig(name, Nets(bundle, bridges), map[], map[], [], bundle.uefi, false));
      if !ok { return; }
      ok, uploaded := Populate(bundle, vmid);
      OneNewVm(vmid, vms, old(vms));
      if !ok {
        Destroy(vmid);
        rolledBack := true;
      }
      RemoveTemporary(vmid, uploaded);
    }

    /** The whole import. `vmid` was chosen by the operator or by the cluster and may be taken. */
    method RestoreProxmox(
      bundle: Bundle, name: string, vmid: VmId, storage: string, efiStorage: string, mapping: Mapping, dryRun: bool)
      returns (ok: bool, ghost rolledBack: bool, ghost uploaded: nat, ghost bridges: seq<string>, ghost attempted: bool)
      requires Valid()
      modifies this
      ensures Valid()
      ensures ImportEffect(Request(bundle, name, vmid, storage, efiStorage, mapping, dryRun), old(State()), State(),
              ok, rolledBack, uploaded, bridges)
      ensures !attempted ==> State() == old(State())
      ensures (&& !dryRun && ValidName(storage) && (bundle.uefi ==> ValidName(efiStorage)) && vmid !in old(vms)
               && forall i | 0 <= i < |bundle.nics| :: BridgeFor(mapping, bundle.nics[i], i).Some?) ==> attempted
      ensures dryRun ==>
                (ok <==> && ValidName(storage) && (bundle.uefi ==> ValidName(efiStorage))
                         && forall i | 0 <= i < |bundle.nics| :: BridgeFor(mapping, bundle.nics[i], i).Some?)
    {
      rolledBack, uploaded, bridges, attempted := false, 0, [], false;
      if !ValidName(storage) || (bundle.uefi && !ValidName(efiStorage)) { return false, false, 0, [], false; }
      var mapped := MappedBridges(mapping, bundle.nics);
      if mapped.None? { return false, false, 0, [], false; }
      bridges := mapped.value;
      if dryRun { return true, false, 0, bridges, false; }
      // The existence probe can miss an existing VM when the host does not answer.
      var answered: bool := *;
      if answered && vmid in vms { return false, false, 0, bridges, false; }
      attempted := true;
      ok, uploaded, rolledBack := CreateAndPopulate(bundle, name, vmid, mapped.value);
    }

    ghost function State(): HostState
      reads this
    {
      HostState(vms, files, volumes)
    }
  }

  // ---------------------------------------------------------------- runs of imports

  datatype Import = Import(request: Request, ok: bool, rolledBack: bool, uploaded: nat, bridges: seq<string>)

  ghost predicate Next(s: HostState, a: Import, s': HostState) {
    ImportEffect(a.request, s, s', a.ok, a.rolledBack, a.uploaded, a.bridges)
  }

  ghost predicate IsRun(states: seq<HostState>, imports: seq<Import>) {
    && |states| == |imports| + 1
    && forall i | 0 <= i < |imports| :: Next(states[i], imports[i], states[i + 1])
  }

  /** An import loses a volume exactly when it is rolled back and the volume belongs to the id it chose. */
  lemma VolumeIsLostExactly(s: HostState, a: Import, s': HostState, v: Volume)
    requires Next(s, a, s') && v in s.volumes
    ensures v !in s'.volumes <==> a.rolledBack && v.owner == a.request.vmid
    ensures v in s'.volumes ==> s'.volumes[v] == s.volumes[v]
    ensures v.owner in s.vms ==> v in s'.volumes
  {
    assert v.owner != a.request.vmid ==> v in OfOthers(s.volumes, a.request.vmid);
  }

  /** An import leaves a VM that was there, and the volumes that belong to it, alone. */
  lemma ImportKeepsVm(s: HostState, a: Import, s': HostState, id: VmId)
    requires Next(s, a, s') && id in s.vms
    ensures id in s'.vms && s'.vms[id] == s.vms[id]
    ensures forall v | v in s.volumes && v.owner == id :: v in s'.volumes && s'.volumes[v] == s.volumes[v]
    ensures forall r | FinishedAs(r, s, id) :: FinishedAs(r, s', id)
  {
    forall v | v in s.volumes && v.owner == id ensures v in s'.volumes && s'.volumes[v] == s.volumes[v] {
      VolumeIsLostExactly(s, a, s', v);
    }
  }

  /** The VM was made whole by import `i` of the run. */
  ghost predicate MadeBy(states: seq<HostState>, imports: seq<Import>, i: nat, s: HostState, id: VmId)
    requires id in s.vms && i < |imports| && i < |states|
  {
    var a := imports[i];
    a.ok && !a.request.dryRun && a.request.vmid == id && id !in states[i].vms && FinishedAs(a.request, s, id)
  }

  /**
    Over every run of imports with any step failing: each VM on the host was there at the
    start, unchanged since, or is the complete result of one successful request, with every disk,
    NIC and the boot order in place.
   */
  lemma {:induction false} EveryVmIsOriginalOrComplete(states: seq<HostState>, imports: seq<Import>, j: nat, id: VmId)
    requires IsRun(states, imports) && j < |states| && id in states[j].vms
    ensures (id in states[0].vms && states[j].vms[id] == states[0].vms[id]) ||
            exists i :: 0 <= i < j && MadeBy(states, imports, i, states[j], id)
  {
    if j > 0 {
      assert Next(states[j - 1], imports[j - 1], states[j]);
      if id !in states[j - 1].vms {
        assert MadeBy(states, imports, j - 1, states[j], id);
      } else {
        EveryVmIsOriginalOrComplete(states, imports, j - 1, id);
        ImportKeepsVm(states[j - 1], imports[j - 1], states[j], id);
        if !(id in states[0].vms && states[j].vms[id] == states[0].vms[id]) {
          var i :| 0 <= i < j - 1 && MadeBy(states, imports, i, states[j - 1], id);
          assert MadeBy(states, imports, i, states[j], id);
        }
      }
    }
  }

  ghost predicate FinishedAs(r: Request, s: HostState, id: VmId)
    requires id in s.vms
  {
    exists bridges: seq<string> :: MapsTo(r, bridges) && Complete(r.bundle, bridges, r.name, id, s.vms[id], s.volumes)
  }
}
