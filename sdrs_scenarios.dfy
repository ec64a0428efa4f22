/** Worked scenarios of the two reconcilers on concrete specs. */
module SdrsScenarios {
  import opened SdrsTypes
  import opened VmWorkflow
  import opened ConfigReconcile
  import opened CloneReconcile

  const DsA: MoRef := MoRef("Datastore", "datastore-a")
  const DsB: MoRef := MoRef("Datastore", "datastore-b")
  const DsC: MoRef := MoRef("Datastore", "datastore-c")

  function Directory(): DatastoreDirectory
  {
    map["datastore-a" := Datastore("A", "[A] "), "datastore-b" := Datastore("B", "[B] "), "datastore-c" := Datastore("C", "[C] ")]
  }

  /** Clone: the probed disks are 2000 and 2001, the source VM has one disk,
      3000. The recommendation places 2000 and 2001 on A and the VM on B.
      The locator of 3000 moves to A; 2001 has no source counterpart
      (position 1 is past the one source disk) and is skipped; the clone's
      location datastore is B. */
  lemma CloneScenarioSkipsDiskWithoutSource()
    ensures var specDisks := [VirtualDisk(2000, OtherBacking("probe")), VirtualDisk(2001, OtherBacking("probe"))];
            var sourceDisks := [VirtualDisk(3000, OtherBacking("source"))];
            var loc := DiskLocator(3000, DsC, FlatVer2("", None, "persistent"));
            var actions := [StoragePlacementAction(DsA, [RecommendedDisk(2000, DsA), RecommendedDisk(2001, DsA)]),
                            StoragePlacementAction(DsB, [])];
            forall spec: CloneSpec ::
              var r := CloneActions(CloneState(spec, [loc]), specDisks, sourceDisks, actions, Directory());
              && r.err.None?
              && r.value.locators == [DiskLocator(3000, DsC, FlatVer2("[A] ", Some(DsA), "persistent"))]
              && r.value.spec.location.datastore == Some(DsB)
  {
    var specDisks := [VirtualDisk(2000, OtherBacking("probe")), VirtualDisk(2001, OtherBacking("probe"))];
    var sourceDisks := [VirtualDisk(3000, OtherBacking("source"))];
    var loc := DiskLocator(3000, DsC, FlatVer2("", None, "persistent"));
    var e0, e1 := RecommendedDisk(2000, DsA), RecommendedDisk(2001, DsA);
    assert IsCloneTarget(specDisks, sourceDisks, 2000, 3000) by {
      assert specDisks[0].key == 2000 && sourceDisks[0].key == 3000;
    }
    var placed := DiskLocator(3000, DsC, FlatVer2("[A] ", Some(DsA), "persistent"));
    var dir := Directory();
    assert "datastore-a" in dir && dir["datastore-a"].rootPath == "[A] ";
    var r0 := CloneDiskEntry([loc], specDisks, sourceDisks, e0, dir);
    assert r0.Ok? && |r0.value| == 1 && r0.value[0] == PlaceLocator(loc, DsA, dir["datastore-a"]) == placed;
    assert r0.value == [r0.value[0]];
    assert r0 == Ok([placed]);
    CloneDiskEntrySkipsNewDisks([placed], specDisks, sourceDisks, e1, dir);
    assert CloneEntries([loc], specDisks, sourceDisks, [e0, e1], dir) == Returned([placed], None) by {
      assert [e0, e1][1..] == [e1];
      assert CloneEntries([placed], specDisks, sourceDisks, [e1], dir) == Returned([placed], None);
    }
    var diskAction, vmAction := StoragePlacementAction(DsA, [e0, e1]), StoragePlacementAction(DsB, []);
    assert [diskAction, vmAction][1..] == [vmAction];
    forall spec: CloneSpec
      ensures var r := CloneActions(CloneState(spec, [loc]), specDisks, sourceDisks, [diskAction, vmAction], dir);
              r.err.None? && r.value.locators == [placed] && r.value.spec.location.datastore == Some(DsB)
    {
      var st1 := CloneState(spec, [placed]);
      assert CloneAction(CloneState(spec, [loc]), specDisks, sourceDisks, diskAction, dir) == Returned(st1, None);
      assert CloneActions(st1, specDisks, sourceDisks, [vmAction], dir).value.spec.location.datastore == Some(DsB);
    }
  }

  /** Create: disk 5 is recommended on C and the VM too; the disk's backing
      file name and the VMX path both become `[C]`. */
  lemma CreateScenarioPlacesDiskAndVmx(dc: array<DeviceConfigSpec>)
    ensures var dev := DeviceConfigSpec(OpAdd, FileOpCreate, Disk(VirtualDisk(5, FlatVer2("", None, "persistent"))));
            var spec := ConfigSpec("vm", 2, 2048, None, dc);
            var actions := [StoragePlacementAction(DsC, []), StoragePlacementAction(DsC, [RecommendedDisk(5, DsC)])];
            var r := ConfigActions(ConfigState(spec, [dev]), actions, Directory());
            && r.err.None?
            && r.value.spec.files == Some(FileInfo("[C]"))
            && r.value.devices == [DeviceConfigSpec(OpAdd, FileOpCreate, Disk(VirtualDisk(5, FlatVer2("[C]", None, "persistent"))))]
  {
    var dev := DeviceConfigSpec(OpAdd, FileOpCreate, Disk(VirtualDisk(5, FlatVer2("", None, "persistent"))));
    var placed := DeviceConfigSpec(OpAdd, FileOpCreate, Disk(VirtualDisk(5, FlatVer2("[C]", None, "persistent"))));
    var spec := ConfigSpec("vm", 2, 2048, None, dc);
    var vmAction, diskAction := StoragePlacementAction(DsC, []), StoragePlacementAction(DsC, [RecommendedDisk(5, DsC)]);
    var dir := Directory();
    assert "datastore-c" in dir && dir["datastore-c"].name == "C";
    assert VmxPath("C") == "[C]";
    var st1 := ConfigState(spec.(files := Some(FileInfo("[C]"))), [dev]);
    assert ConfigAction(ConfigState(spec, [dev]), vmAction, dir) == Returned(st1, None);
    assert HasDiskWithKey([dev], 5) by { assert IsDiskWithKey([dev][0].device, 5); }
    var r0 := ConfigDiskEntry([dev], RecommendedDisk(5, DsC), dir);
    assert r0.Ok? && |r0.value| == 1 && r0.value[0] == MarkDiskFile(dev, "C") == placed;
    assert r0.value == [r0.value[0]];
    assert r0 == Ok([placed]);
    assert ConfigEntries([dev], [RecommendedDisk(5, DsC)], dir) == Returned([placed], None);
    assert ConfigActions(st1, [diskAction], dir) == Returned(st1.(devices := [placed]), None);
    assert [vmAction, diskAction][1..] == [diskAction];
  }
}
