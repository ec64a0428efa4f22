/** Applying a storage DRS recommendation to the configuration spec of a VM
    being created: the VM-level action places the VMX file, each disk entry
    rewrites the backing file name of the spec's disks with that key. */
module ConfigReconcile {
  import opened SdrsTypes
  import opened VmWorkflow

  // ----- Vocabulary -------------------------------------------------------

  /** True when some device change of `devs` is a virtual disk with this key. */
  predicate HasDiskWithKey(devs: seq<DeviceConfigSpec>, key: int)
  {
    exists m :: 0 <= m < |devs| && IsDiskWithKey(devs[m].device, key)
  }

  /** Points a disk's flat backing at the root of datastore `name`. The disks
      the methods below touch always have a flat backing (their precondition);
      any other device change is returned as it is. */
  function MarkDiskFile(dc: DeviceConfigSpec, name: string): DeviceConfigSpec
  {
    if dc.device.Disk? && dc.device.disk.backing.FlatVer2? then
      dc.(device := Disk(dc.device.disk.(backing := dc.device.disk.backing.(fileName := VmxPath(name)))))
    else dc
  }

  /** What an update may not change: operations, device kind, key, backing kind. */
  function Shape(dc: DeviceConfigSpec): (Operation, FileOperation, bool, int, bool)
  {
    (dc.operation, dc.fileOperation, dc.device.Disk?,
     if dc.device.Disk? then dc.device.disk.key else dc.device.key,
     dc.device.Disk? && dc.device.disk.backing.FlatVer2?)
  }

  predicate SameShapes(a: seq<DeviceConfigSpec>, b: seq<DeviceConfigSpec>)
  {
    |a| == |b| && forall j :: 0 <= j < |a| ==> Shape(a[j]) == Shape(b[j])
  }

  /** Every disk whose key is in `ids` has a flat backing (the source asserts
      the backing type of every disk it rewrites). */
  predicate FlatFor(devs: seq<DeviceConfigSpec>, ids: set<int>)
  {
    forall j :: 0 <= j < |devs| && devs[j].device.Disk? && devs[j].device.disk.key in ids ==>
      devs[j].device.disk.backing.FlatVer2?
  }

  // ----- Reference semantics ----------------------------------------------

  /** One disk entry: every disk with the entry's key gets the datastore's
      `[name]` as backing file name. The datastore is looked up only once a
      disk matches, so an entry without a matching disk never fails. */
  function ConfigDiskEntry(devs: seq<DeviceConfigSpec>, e: RecommendedDisk, dir: DatastoreDirectory)
    : (r: Result<seq<DeviceConfigSpec>>)
    ensures r.Err? <==> HasDiskWithKey(devs, e.diskId) && e.datastore.value !in dir
    ensures r.Err? ==> r.error == DiskDatastoreNotFound(e.datastore.value)
    ensures r.Ok? ==> SameShapes(r.value, devs)
    ensures r.Ok? ==> forall j :: 0 <= j < |devs| && !IsDiskWithKey(devs[j].device, e.diskId) ==> r.value[j] == devs[j]
    ensures r.Ok? ==> forall j :: 0 <= j < |devs| && IsDiskWithKey(devs[j].device, e.diskId) ==>
              e.datastore.value in dir && r.value[j] == MarkDiskFile(devs[j], dir[e.datastore.value].name)
  {
    if HasDiskWithKey(devs, e.diskId) && e.datastore.value !in dir then Err(DiskDatastoreNotFound(e.datastore.value))
    else
      Ok(seq(|devs|, j requires 0 <= j < |devs| =>
        if IsDiskWithKey(devs[j].device, e.diskId) && e.datastore.value in dir
        then MarkDiskFile(devs[j], dir[e.datastore.value].name) else devs[j]))
  }

  /** The disk entries of one action, in order, stopping at the first error. */
  function ConfigEntries(devs: seq<DeviceConfigSpec>, entries: seq<RecommendedDisk>, dir: DatastoreDirectory)
    : (r: Returned<seq<DeviceConfigSpec>>)
    ensures SameShapes(r.value, devs)
    decreases |entries|
  {
    if entries == [] then Returned(devs, None)
    else
      match ConfigDiskEntry(devs, entries[0], dir)
      case Err(e) => Returned(devs, Some(e))
      case Ok(next) => ConfigEntries(next, entries[1..], dir)
  }

  /** The state the reconciler works on: the spec value and its device changes. */
  datatype ConfigState = ConfigState(spec: ConfigSpec, devices: seq<DeviceConfigSpec>)

  function ConfigAction(st: ConfigState, a: ClusterAction, dir: DatastoreDirectory): (r: Returned<ConfigState>)
    ensures SameShapes(r.value.devices, st.devices)
  {
    match a
    case OtherAction(_) => Returned(st, None)
    case StoragePlacementAction(dest, disks) =>
      if |disks| < 1 then
        var p := PopulateVmxDatastore(st.spec, dest.value, dir);
        Returned(st.(spec := p.value), p.err)
      else
        var r := ConfigEntries(st.devices, disks, dir);
        Returned(st.(devices := r.value), r.err)
  }

  /** All actions of the chosen recommendation, in order, stopping at the first error. */
  function ConfigActions(st: ConfigState, actions: seq<ClusterAction>, dir: DatastoreDirectory): (r: Returned<ConfigState>)
    ensures SameShapes(r.value.devices, st.devices)
    decreases |actions|
  {
    if actions == [] then Returned(st, None)
    else
      var r := ConfigAction(st, actions[0], dir);
      if r.err.Some? then r else ConfigActions(r.value, actions[1..], dir)
  }

  // ----- Properties -------------------------------------------------------

  lemma FlatForShapes(a: seq<DeviceConfigSpec>, b: seq<DeviceConfigSpec>, ids: set<int>)
    requires SameShapes(a, b) && FlatFor(b, ids)
    ensures FlatFor(a, ids)
  {
    forall j | 0 <= j < |a| && a[j].device.Disk? && a[j].device.disk.key in ids
      ensures a[j].device.disk.backing.FlatVer2?
    {
      assert Shape(a[j]) == Shape(b[j]);
    }
  }

  /** Placing a disk twice leaves the second placement. */
  lemma MarkDiskFileTwice(dc: DeviceConfigSpec, a: string, b: string)
    ensures MarkDiskFile(MarkDiskFile(dc, a), b) == MarkDiskFile(dc, b)
  {
  }

  /** The effect of a sequence of disk entries on one device change: a disk
      named by some entry carries the datastore of the last such entry, every
      other device change is as it was (also when an entry failed). */
  lemma {:induction false} ConfigEntriesEffect(devs: seq<DeviceConfigSpec>, entries: seq<RecommendedDisk>, dir: DatastoreDirectory, j: int)
    requires 0 <= j < |devs|
    ensures var r := ConfigEntries(devs, entries, dir);
            var last := if devs[j].device.Disk? then LastFor(entries, devs[j].device.disk.key) else None;
            && (last.None? ==> r.value[j] == devs[j])
            && (r.err.None? && last.Some? ==> last.value.value in dir && r.value[j] == MarkDiskFile(devs[j], dir[last.value.value].name))
    decreases |entries|
  {
    if entries != [] {
      var e := entries[0];
      match ConfigDiskEntry(devs, e, dir)
      case Err(_) => {
        var last := if devs[j].device.Disk? then LastFor(entries, devs[j].device.disk.key) else None;
        assert ConfigEntries(devs, entries, dir).err.Some?;
      }
      case Ok(next) => {
        ConfigEntriesEffect(next, entries[1..], dir, j);
        assert Shape(next[j]) == Shape(devs[j]);
        if devs[j].device.Disk? {
          var k := devs[j].device.disk.key;
          assert next[j].device.Disk? && next[j].device.disk.key == k;
          var later := LastFor(entries[1..], k);
          if later.Some? && later.value.value in dir {
            var name := dir[later.value.value].name;
            if IsDiskWithKey(devs[j].device, e.diskId) {
              MarkDiskFileTwice(devs[j], dir[e.datastore.value].name, name);
            }
          }
        }
      }
    }
  }

  /** Disk entries fail exactly when an entry names a disk of the spec by a
      datastore id the directory cannot resolve. */
  lemma {:induction false} ConfigEntriesFail(devs: seq<DeviceConfigSpec>, entries: seq<RecommendedDisk>, dir: DatastoreDirectory)
    ensures ConfigEntries(devs, entries, dir).err.Some? <==>
            exists e :: e in entries && HasDiskWithKey(devs, e.diskId) && e.datastore.value !in dir
    ensures ConfigEntries(devs, entries, dir).err.Some? ==>
            ConfigEntries(devs, entries, dir).err.value.DiskDatastoreNotFound?
    decreases |entries|
  {
    if entries != [] {
      var e := entries[0];
      match ConfigDiskEntry(devs, e, dir)
      case Err(_) =>
      case Ok(next) => {
        ConfigEntriesFail(next, entries[1..], dir);
        forall k ensures HasDiskWithKey(next, k) <==> HasDiskWithKey(devs, k) {
          if HasDiskWithKey(next, k) {
            var m :| 0 <= m < |next| && IsDiskWithKey(next[m].device, k);
            assert Shape(next[m]) == Shape(devs[m]);
          }
          if HasDiskWithKey(devs, k) {
            var m :| 0 <= m < |devs| && IsDiskWithKey(devs[m].device, k);
            assert Shape(next[m]) == Shape(devs[m]);
          }
        }
        assert forall x :: x in entries <==> x == e || x in entries[1..];
      }
    }
  }

  /** Only the per-disk entries and VM-level actions matter: actions of any
      other kind are skipped. */
  function PlacementActions(actions: seq<ClusterAction>): seq<ClusterAction>
  {
    if actions == [] then []
    else (if actions[0].StoragePlacementAction? then [actions[0]] else []) + PlacementActions(actions[1..])
  }

  lemma {:induction false} ConfigActionsIgnoreOtherActions(st: ConfigState, actions: seq<ClusterAction>, dir: DatastoreDirectory)
    ensures ConfigActions(st, actions, dir) == ConfigActions(st, PlacementActions(actions), dir)
    decreases |actions|
  {
    if actions != [] {
      var r := ConfigAction(st, actions[0], dir);
      if r.err.None? {
        ConfigActionsIgnoreOtherActions(r.value, actions[1..], dir);
      }
      if actions[0].StoragePlacementAction? {
        var p := [actions[0]] + PlacementActions(actions[1..]);
        assert p[0] == actions[0] && p[1..] == PlacementActions(actions[1..]);
      } else {
        assert PlacementActions(actions) == PlacementActions(actions[1..]);
      }
    }
  }

  /** On success the VMX path names the datastore of the last VM-level
      action, or is untouched when there is none; every other field of the
      spec is untouched whatever happens. */
  lemma {:induction false} ConfigActionsVmxPath(st: ConfigState, actions: seq<ClusterAction>, dir: DatastoreDirectory)
    ensures var r := ConfigActions(st, actions, dir);
            var last := LastVmDestination(actions);
            && r.value.spec.(files := st.spec.files) == st.spec
            && (r.err.None? && last.None? ==> r.value.spec.files == st.spec.files)
            && (r.err.None? && last.Some? ==>
                  last.value.value in dir && r.value.spec.files == Some(FileInfo(VmxPath(dir[last.value.value].name))))
    decreases |actions|
  {
    if actions != [] {
      var r := ConfigAction(st, actions[0], dir);
      if r.err.None? {
        ConfigActionsVmxPath(r.value, actions[1..], dir);
      }
    }
  }

  /** On success the device changes are those of applying every disk entry of
      every placement action in one sequence. */
  lemma {:induction false} ConfigActionsDevices(st: ConfigState, actions: seq<ClusterAction>, dir: DatastoreDirectory)
    ensures var r := ConfigActions(st, actions, dir);
            r.err.None? ==> ConfigEntries(st.devices, DiskEntries(actions), dir) == Returned(r.value.devices, None)
    decreases |actions|
  {
    if actions != [] {
      var a := actions[0];
      var r := ConfigAction(st, a, dir);
      if r.err.None? {
        ConfigActionsDevices(r.value, actions[1..], dir);
        var first := if a.StoragePlacementAction? then a.relocateDisks else [];
        ConfigEntriesAppend(st.devices, first, DiskEntries(actions[1..]), dir);
      }
    }
  }

  /** Running two entry lists one after the other is running their concatenation. */
  lemma {:induction false} ConfigEntriesAppend(devs: seq<DeviceConfigSpec>, a: seq<RecommendedDisk>, b: seq<RecommendedDisk>, dir: DatastoreDirectory)
    ensures var ra := ConfigEntries(devs, a, dir);
            ra.err.None? ==> ConfigEntries(devs, a + b, dir) == ConfigEntries(ra.value, b, dir)
    decreases |a|
  {
    if a != [] {
      assert (a + b)[0] == a[0] && (a + b)[1..] == a[1..] + b;
      match ConfigDiskEntry(devs, a[0], dir)
      case Err(_) =>
      case Ok(next) => ConfigEntriesAppend(next, a[1..], b, dir);
    }
    else {
      assert a + b == b;
    }
  }

  /** Whether a disk with a given key exists is not changed by an update. */
  lemma HasDiskWithKeyShapes(a: seq<DeviceConfigSpec>, b: seq<DeviceConfigSpec>, key: int)
    requires SameShapes(a, b)
    ensures HasDiskWithKey(a, key) <==> HasDiskWithKey(b, key)
  {
    if HasDiskWithKey(a, key) {
      var m :| 0 <= m < |a| && IsDiskWithKey(a[m].device, key);
      assert Shape(a[m]) == Shape(b[m]);
    }
    if HasDiskWithKey(b, key) {
      var m :| 0 <= m < |b| && IsDiskWithKey(b[m].device, key);
      assert Shape(a[m]) == Shape(b[m]);
    }
  }

  /** True when applying action `a` to a spec with device changes `devs`
      needs a datastore the directory does not know. */
  predicate ActionFails(devs: seq<DeviceConfigSpec>, a: ClusterAction, dir: DatastoreDirectory)
  {
    a.StoragePlacementAction? &&
    if |a.relocateDisks| < 1 then a.destination.value !in dir
    else exists e :: e in a.relocateDisks && HasDiskWithKey(devs, e.diskId) && e.datastore.value !in dir
  }

  /** The apply fails exactly when some action needs an unknown datastore:
      a VM-level destination, or the datastore of a disk entry that names a
      disk of the spec. An unknown datastore for an unmatched disk id is never
      looked up. */
  lemma {:induction false} ConfigActionsFail(st: ConfigState, actions: seq<ClusterAction>, dir: DatastoreDirectory)
    ensures ConfigActions(st, actions, dir).err.Some? <==> exists a :: a in actions && ActionFails(st.devices, a, dir)
    decreases |actions|
  {
    if actions != [] {
      var a := actions[0];
      var r := ConfigAction(st, a, dir);
      if a.StoragePlacementAction? && |a.relocateDisks| >= 1 {
        ConfigEntriesFail(st.devices, a.relocateDisks, dir);
      }
      assert r.err.Some? <==> ActionFails(st.devices, a, dir);
      if r.err.None? {
        ConfigActionsFail(r.value, actions[1..], dir);
        forall x | x in actions[1..] ensures ActionFails(r.value.devices, x, dir) <==> ActionFails(st.devices, x, dir) {
          forall k { HasDiskWithKeyShapes(r.value.devices, st.devices, k); }
        }
      }
      assert forall x :: x in actions <==> x == a || x in actions[1..];
    }
  }

  /** The entry that wins for a key in a concatenation is the second list's,
      if it has one. */
  lemma {:induction false} LastForAppend(a: seq<RecommendedDisk>, b: seq<RecommendedDisk>, key: int)
    ensures LastFor(a + b, key) == if LastFor(b, key).Some? then LastFor(b, key) else LastFor(a, key)
    decreases |a|
  {
    if a == [] {
      assert a + b == b;
    } else {
      assert (a + b)[0] == a[0] && (a + b)[1..] == a[1..] + b;
      LastForAppend(a[1..], b, key);
    }
  }

  /** A device change that no disk entry names is never touched, even when
      the apply fails part way. */
  lemma {:induction false} ConfigActionsUntouched(st: ConfigState, actions: seq<ClusterAction>, dir: DatastoreDirectory, j: int)
    requires 0 <= j < |st.devices|
    requires !st.devices[j].device.Disk? || LastFor(DiskEntries(actions), st.devices[j].device.disk.key).None?
    ensures ConfigActions(st, actions, dir).value.devices[j] == st.devices[j]
    decreases |actions|
  {
    if actions != [] {
      var a := actions[0];
      var first := if a.StoragePlacementAction? then a.relocateDisks else [];
      if st.devices[j].device.Disk? {
        LastForAppend(first, DiskEntries(actions[1..]), st.devices[j].device.disk.key);
      }
      if a.StoragePlacementAction? && |a.relocateDisks| >= 1 {
        ConfigEntriesEffect(st.devices, a.relocateDisks, dir, j);
      }
      var r := ConfigAction(st, a, dir);
      if r.err.None? {
        ConfigActionsUntouched(r.value, actions[1..], dir, j);
      }
    }
  }

  /** On success, a disk named by the disk entries carries the `[name]` of the
      datastore of the last entry for its key, and nothing else. */
  lemma ConfigActionsPlaced(st: ConfigState, actions: seq<ClusterAction>, dir: DatastoreDirectory, j: int)
    requires 0 <= j < |st.devices| && st.devices[j].device.Disk?
    requires ConfigActions(st, actions, dir).err.None?
    requires LastFor(DiskEntries(actions), st.devices[j].device.disk.key).Some?
    ensures var ds := LastFor(DiskEntries(actions), st.devices[j].device.disk.key).value;
            ds.value in dir && ConfigActions(st, actions, dir).value.devices[j] == MarkDiskFile(st.devices[j], dir[ds.value].name)
  {
    ConfigActionsDevices(st, actions, dir);
    ConfigEntriesEffect(st.devices, DiskEntries(actions), dir, j);
  }

  // ----- The reconciler ---------------------------------------------------

  /** One disk entry, in place: scans the device changes and rewrites the
      backing file name of every disk with the entry's key. */
  method ApplyConfigDiskEntry(deviceChange: array<DeviceConfigSpec>, e: RecommendedDisk, dir: DatastoreDirectory)
    returns (err: Option<Error>)
    requires FlatFor(deviceChange[..], {e.diskId})
    modifies deviceChange
    ensures var r := ConfigDiskEntry(old(deviceChange[..]), e, dir);
            && (r.Ok? ==> err.None? && deviceChange[..] == r.value)
            && (r.Err? ==> err == Some(r.error) && deviceChange[..] == old(deviceChange[..]))
  {
    ghost var before := deviceChange[..];
    var k := 0;
    while k < deviceChange.Length
      invariant 0 <= k <= deviceChange.Length
      invariant (exists m :: 0 <= m < k && IsDiskWithKey(before[m].device, e.diskId)) ==> e.datastore.value in dir
      invariant forall m :: 0 <= m < k ==>
                  deviceChange[m] == (if IsDiskWithKey(before[m].device, e.diskId) && e.datastore.value in dir
                                      then MarkDiskFile(before[m], dir[e.datastore.value].name) else before[m])
      invariant forall m :: k <= m < deviceChange.Length ==> deviceChange[m] == before[m]
    {
      var dc := deviceChange[k];
      if dc.device.Disk? && dc.device.disk.key == e.diskId {
        if e.datastore.value !in dir {
          assert deviceChange[..] == before;
          return Some(DiskDatastoreNotFound(e.datastore.value));
        }
        var ds := dir[e.datastore.value];
        var disk := dc.device.disk;
        deviceChange[k] := dc.(device := Disk(disk.(backing := disk.backing.(fileName := VmxPath(ds.name)))));
      }
      k := k + 1;
    }
    err := None;
    var r := ConfigDiskEntry(before, e, dir);
    if r.Ok? {
      assert deviceChange[..] == r.value;
    }
  }

  /** Applies the first recommendation to `spec`: the VM-level action sets the
      VMX path, each disk entry rewrites the matching disks in place. Actions
      of other kinds are skipped; the first failed lookup ends the apply, with
      the changes made so far kept. */
  method ApplySdrsRecommendationsToConfigSpec(recommendations: seq<ClusterRecommendation>, spec: ConfigSpec, dir: DatastoreDirectory)
    returns (out: ConfigSpec, err: Option<Error>)
    requires |recommendations| > 0
    requires FlatFor(spec.deviceChange[..], RecommendedIds(recommendations[0].action))
    modifies spec.deviceChange
    ensures var r := ConfigActions(ConfigState(spec, old(spec.deviceChange[..])), recommendations[0].action, dir);
            out == r.value.spec && spec.deviceChange[..] == r.value.devices && err == r.err
  {
    var actions := recommendations[0].action;
    var dc := spec.deviceChange;
    ghost var ids := RecommendedIds(actions);
    ghost var goal := ConfigActions(ConfigState(spec, dc[..]), actions, dir);
    out := spec;
    var i := 0;
    while i < |actions|
      invariant 0 <= i <= |actions|
      invariant out.deviceChange == dc
      invariant FlatFor(dc[..], ids)
      invariant ConfigActions(ConfigState(out, dc[..]), actions[i..], dir) == goal
      decreases |actions| - i
    {
      var action := actions[i];
      assert actions[i..][0] == action && actions[i..][1..] == actions[i + 1..];
      if action.StoragePlacementAction? {
        var disks := action.relocateDisks;
        if |disks| < 1 {
          var p := PopulateVmxDatastore(out, action.destination.value, dir);
          out := p.value;
          if p.err.Some? {
            return out, p.err;
          }
        } else {
          ghost var start := dc[..];
          var j := 0;
          while j < |disks|
            invariant 0 <= j <= |disks|
            invariant FlatFor(dc[..], ids)
            invariant ConfigEntries(dc[..], disks[j..], dir) == ConfigEntries(start, disks, dir)
            decreases |disks| - j
          {
            assert disks[j..][0] == disks[j] && disks[j..][1..] == disks[j + 1..];
            assert action in actions && disks[j] in disks;
            ghost var pre := dc[..];
            var e := ApplyConfigDiskEntry(dc, disks[j], dir);
            if e.Some? {
              return out, e;
            }
            FlatForShapes(dc[..], pre, ids);
            j := j + 1;
          }
        }
      }
      i := i + 1;
    }
    err := None;
  }
}
