/** Building the storage placement request sent to the scheduler when a VM
    is created on a datastore cluster: one pod placement entry per disk
    that the configuration spec adds with a newly created file. */
module PlacementRequest {
  import opened SdrsTypes

  /** True of a device change the filter keeps: the requested operation and
      file operation, and a virtual disk device. */
  predicate Selected(dc: DeviceConfigSpec, op: Operation, fop: FileOperation)
  {
    dc.operation == op && dc.fileOperation == fop && dc.device.Disk?
  }

  /** The disks of the selected device changes, in device-change order. */
  function FilteredDisks(dcs: seq<DeviceConfigSpec>, op: Operation, fop: FileOperation): seq<VirtualDisk>
    decreases |dcs|
  {
    if dcs == [] then []
    else
      var last := dcs[|dcs| - 1];
      FilteredDisks(dcs[..|dcs| - 1], op, fop) + (if Selected(last, op, fop) then [last.device.disk] else [])
  }

  /** The disks the create placement asks about: added with a created file. */
  function AddCreateDisks(dcs: seq<DeviceConfigSpec>): seq<VirtualDisk>
  {
    FilteredDisks(dcs, OpAdd, FileOpCreate)
  }

  /** The pod placement entry requested for one new disk. */
  function DiskPodConfig(d: VirtualDisk, pod: MoRef): VmPodConfigForPlacement
  {
    VmPodConfigForPlacement(pod, [PodDiskLocator(d.key, d.backing)])
  }

  /** One pod placement entry per disk, in order. */
  function NewDiskPodConfigs(disks: seq<VirtualDisk>, pod: MoRef): seq<VmPodConfigForPlacement>
  {
    seq(|disks|, j requires 0 <= j < |disks| => DiskPodConfig(disks[j], pod))
  }

  /** Filtering distributes over concatenation: it keeps the input order. */
  lemma {:induction false} FilteredDisksAppend(a: seq<DeviceConfigSpec>, b: seq<DeviceConfigSpec>, op: Operation, fop: FileOperation)
    ensures FilteredDisks(a + b, op, fop) == FilteredDisks(a, op, fop) + FilteredDisks(b, op, fop)
    decreases |b|
  {
    if b == [] {
      assert a + b == a;
    } else {
      var b' := b[..|b| - 1];
      assert (a + b)[..|a + b| - 1] == a + b';
      assert (a + b)[|a + b| - 1] == b[|b| - 1];
      FilteredDisksAppend(a, b', op, fop);
    }
  }

  /** A disk is in the filter's result exactly when some selected entry holds it. */
  lemma {:induction false} FilteredDisksMembership(dcs: seq<DeviceConfigSpec>, op: Operation, fop: FileOperation, d: VirtualDisk)
    ensures d in FilteredDisks(dcs, op, fop) <==>
            exists j :: 0 <= j < |dcs| && Selected(dcs[j], op, fop) && dcs[j].device.disk == d
    decreases |dcs|
  {
    if dcs != [] {
      var init := dcs[..|dcs| - 1];
      FilteredDisksMembership(init, op, fop, d);
      if exists j :: 0 <= j < |init| && Selected(init[j], op, fop) && init[j].device.disk == d {
        var j :| 0 <= j < |init| && Selected(init[j], op, fop) && init[j].device.disk == d;
        assert dcs[j] == init[j];
      }
      if exists j :: 0 <= j < |dcs| && Selected(dcs[j], op, fop) && dcs[j].device.disk == d {
        var j :| 0 <= j < |dcs| && Selected(dcs[j], op, fop) && dcs[j].device.disk == d;
        if j < |init| { assert init[j] == dcs[j]; }
      }
    }
  }

  /** Nothing is kept when no entry is selected, and the result is never longer than the input. */
  lemma {:induction false} FilteredDisksEmpty(dcs: seq<DeviceConfigSpec>, op: Operation, fop: FileOperation)
    ensures |FilteredDisks(dcs, op, fop)| <= |dcs|
    ensures FilteredDisks(dcs, op, fop) == [] <==> forall j :: 0 <= j < |dcs| ==> !Selected(dcs[j], op, fop)
    decreases |dcs|
  {
    if dcs != [] {
      var init := dcs[..|dcs| - 1];
      FilteredDisksEmpty(init, op, fop);
      assert forall j :: 0 <= j < |init| ==> init[j] == dcs[j];
    }
  }

  /** The filter loop: keeps the disks of the entries with the requested operations. */
  method StoragePodDiskFilter(deviceChange: array<DeviceConfigSpec>, op: Operation, fop: FileOperation)
    returns (disks: seq<VirtualDisk>)
    ensures disks == FilteredDisks(deviceChange[..], op, fop)
  {
    disks := [];
    var i := 0;
    while i < deviceChange.Length
      invariant 0 <= i <= deviceChange.Length
      invariant disks == FilteredDisks(deviceChange[..i], op, fop)
    {
      var dc := deviceChange[i];
      assert deviceChange[..i + 1][..i] == deviceChange[..i];
      if dc.operation == op && dc.fileOperation == fop && dc.device.Disk? {
        disks := disks + [dc.device.disk];
      }
      i := i + 1;
    }
    assert deviceChange[..i] == deviceChange[..];
  }

  /** Appends one pod placement entry per added-and-created disk of `spec`
      to `configs`, in device-change order. */
  method VmPodConfigForPlacementAppendNewDisks(configs: seq<VmPodConfigForPlacement>, spec: ConfigSpec, pod: MoRef)
    returns (r: seq<VmPodConfigForPlacement>)
    ensures var disks := AddCreateDisks(spec.deviceChange[..]);
            && |r| == |configs| + |disks|
            && r[..|configs|] == configs
            && forall j :: 0 <= j < |disks| ==>
                 r[|configs| + j].storagePod == pod
                 && r[|configs| + j].disk == [PodDiskLocator(disks[j].key, disks[j].backing)]
    ensures r == configs + NewDiskPodConfigs(AddCreateDisks(spec.deviceChange[..]), pod)
  {
    var disks := StoragePodDiskFilter(spec.deviceChange, OpAdd, FileOpCreate);
    r := configs;
    var i := 0;
    while i < |disks|
      invariant 0 <= i <= |disks|
      invariant r == configs + NewDiskPodConfigs(disks[..i], pod)
    {
      var disk := disks[i];
      var config := VmPodConfigForPlacement(pod, [PodDiskLocator(disk.key, disk.backing)]);
      assert NewDiskPodConfigs(disks[..i + 1], pod) == NewDiskPodConfigs(disks[..i], pod) + [config];
      r := r + [config];
      i := i + 1;
    }
    assert disks[..i] == disks;
  }

  /** The pod placement entries of a create request: the new disks' entries alone. */
  method VmPodConfigForPlacementForCreate(spec: ConfigSpec, pod: MoRef) returns (r: seq<VmPodConfigForPlacement>)
    ensures r == NewDiskPodConfigs(AddCreateDisks(spec.deviceChange[..]), pod)
  {
    r := VmPodConfigForPlacementAppendNewDisks([], spec, pod);
  }

  /** The pod selection spec: the target datastore cluster and the new disks' entries. */
  function StorageDrsPodSelectionSpecForCreate(spec: ConfigSpec, pod: MoRef): (r: StorageDrsPodSelectionSpec)
    reads spec.deviceChange
    ensures r.storagePod == pod
    ensures r.initialVmConfig == NewDiskPodConfigs(AddCreateDisks(spec.deviceChange[..]), pod)
  {
    StorageDrsPodSelectionSpec(pod, NewDiskPodConfigs(AddCreateDisks(spec.deviceChange[..]), pod))
  }

  /** The placement request of the create workflow. */
  function StoragePlacementSpecForCreate(spec: ConfigSpec, pool: MoRef, pod: MoRef): (r: StoragePlacementSpec)
    reads spec.deviceChange
    ensures r.placementType == PlacementTypeCreate && r.resourcePool == pool && r.configSpec == spec
    ensures r.podSelectionSpec.storagePod == pod
    ensures var disks := AddCreateDisks(spec.deviceChange[..]);
            |r.podSelectionSpec.initialVmConfig| == |disks|
            && forall j :: 0 <= j < |disks| ==> r.podSelectionSpec.initialVmConfig[j] == DiskPodConfig(disks[j], pod)
  {
    StoragePlacementSpec(PlacementTypeCreate, pool, spec, StorageDrsPodSelectionSpecForCreate(spec, pod))
  }

  /** The request names exactly the added-and-created disks: a disk key is
      requested iff some add/create disk entry of the spec has that key, and
      the list is empty iff the spec adds no such disk. */
  lemma PlacementRequestNamesNewDisks(spec: ConfigSpec, pool: MoRef, pod: MoRef, key: int)
    ensures var cfgs := StoragePlacementSpecForCreate(spec, pool, pod).podSelectionSpec.initialVmConfig;
            var dcs := spec.deviceChange[..];
            && ((exists j :: 0 <= j < |cfgs| && cfgs[j].disk[0].diskId == key) <==>
                (exists k :: 0 <= k < |dcs| && Selected(dcs[k], OpAdd, FileOpCreate) && dcs[k].device.disk.key == key))
            && (cfgs == [] <==> forall k :: 0 <= k < |dcs| ==> !Selected(dcs[k], OpAdd, FileOpCreate))
  {
    var cfgs := StoragePlacementSpecForCreate(spec, pool, pod).podSelectionSpec.initialVmConfig;
    var dcs := spec.deviceChange[..];
    var disks := AddCreateDisks(dcs);
    FilteredDisksEmpty(dcs, OpAdd, FileOpCreate);
    if exists j :: 0 <= j < |cfgs| && cfgs[j].disk[0].diskId == key {
      var j :| 0 <= j < |cfgs| && cfgs[j].disk[0].diskId == key;
      assert disks[j] in disks;
      FilteredDisksMembership(dcs, OpAdd, FileOpCreate, disks[j]);
    }
    if exists k :: 0 <= k < |dcs| && Selected(dcs[k], OpAdd, FileOpCreate) && dcs[k].device.disk.key == key {
      var k :| 0 <= k < |dcs| && Selected(dcs[k], OpAdd, FileOpCreate) && dcs[k].device.disk.key == key;
      FilteredDisksMembership(dcs, OpAdd, FileOpCreate, dcs[k].device.disk);
      var j :| 0 <= j < |disks| && disks[j] == dcs[k].device.disk;
      assert cfgs[j].disk[0].diskId == key;
    }
  }
}
