/** The backing datastore the clone path records when a `for ... range`
    variable is one variable shared by every iteration of its loop, as in Go
    before release 1.22. Each placed backing keeps a pointer to the
    datastore field of the loop variable over the action's disk entries.
    When the loop stops, that variable holds the entry it stopped at: the
    action's last entry, or the entry whose datastore failed to resolve. So
    every backing the action placed reports that entry's datastore, while
    its file name was formatted from the entry that actually matched. */
module CloneFindings {
  import opened SdrsTypes
  import opened CloneReconcile
  import opened SdrsScenarios

  /** The outcome of one action's entry loop under a shared loop variable:
      the locators as the reference semantics leaves them, the positions
      whose backing holds a pointer to the loop variable, the entry the
      variable holds when the loop stops, and the error. */
  datatype AliasRun = AliasRun(locators: seq<DiskLocator>, moved: set<int>, held: RecommendedDisk, err: Option<Error>)

  /** The positions of `locs` that entry `e` places. */
  function MovedBy(locs: seq<DiskLocator>, specDisks: seq<VirtualDisk>, sourceDisks: seq<VirtualDisk>, e: RecommendedDisk): set<int>
  {
    set m | 0 <= m < |locs| && IsCloneTarget(specDisks, sourceDisks, e.diskId, locs[m].diskId)
  }

  /** The entry loop with its loop variable made explicit: `held` is the
      entry the variable holds, `moved` the positions already pointing at it. */
  function AliasedEntries(locs: seq<DiskLocator>, specDisks: seq<VirtualDisk>, sourceDisks: seq<VirtualDisk>,
                          entries: seq<RecommendedDisk>, dir: DatastoreDirectory, moved: set<int>, held: RecommendedDisk)
    : (run: AliasRun)
    ensures var ref := CloneEntries(locs, specDisks, sourceDisks, entries, dir);
            run.locators == ref.value && run.err == ref.err
    ensures run.err.None? ==> run.held == if entries == [] then held else entries[|entries| - 1]
    ensures run.err.Some? ==> run.held in entries && run.err == Some(DiskDatastoreNotFound(run.held.datastore.value))
    ensures moved <= run.moved
    ensures forall m :: m in run.moved && m !in moved ==>
              0 <= m < |locs| && LastCloneFor(entries, specDisks, sourceDisks, locs[m].diskId).Some?
    ensures run.err.None? ==> forall m :: 0 <= m < |locs| && LastCloneFor(entries, specDisks, sourceDisks, locs[m].diskId).Some? ==>
              m in run.moved
    decreases |entries|
  {
    if entries == [] then AliasRun(locs, moved, held, None)
    else
      var e := entries[0];
      match CloneDiskEntry(locs, specDisks, sourceDisks, e, dir)
      case Err(err) => AliasRun(locs, moved, e, Some(err))
      case Ok(next) =>
        assert forall m :: 0 <= m < |locs| ==> next[m].diskId == locs[m].diskId;
        AliasedEntries(next, specDisks, sourceDisks, entries[1..], dir, moved + MovedBy(locs, specDisks, sourceDisks, e), e)
  }

  /** One placement action's disk entries as the source writes them under
      shared loop variables. The locators and the error are those of the
      reference semantics, except that every backing the action placed
      points at the datastore of the entry the loop stopped at: on success
      the action's last entry, on failure the entry whose datastore did not
      resolve. */
  function CloneActionEntriesAsWritten(locs: seq<DiskLocator>, specDisks: seq<VirtualDisk>, sourceDisks: seq<VirtualDisk>,
                                       entries: seq<RecommendedDisk>, dir: DatastoreDirectory): (r: Returned<seq<DiskLocator>>)
    requires entries != []
    ensures |r.value| == |locs|
    ensures r.err == CloneEntries(locs, specDisks, sourceDisks, entries, dir).err
    ensures forall m :: 0 <= m < |locs| && LastCloneFor(entries, specDisks, sourceDisks, locs[m].diskId).None? ==>
              r.value[m] == locs[m]
    ensures r.err.None? ==>
              forall m :: 0 <= m < |locs| && LastCloneFor(entries, specDisks, sourceDisks, locs[m].diskId).Some? && locs[m].backing.FlatVer2? ==>
                r.value[m].backing ==
                CloneEntries(locs, specDisks, sourceDisks, entries, dir).value[m].backing.(datastore := Some(entries[|entries| - 1].datastore))
    ensures r.err.Some? ==>
              forall m :: 0 <= m < |locs| && r.value[m] != CloneEntries(locs, specDisks, sourceDisks, entries, dir).value[m] ==>
                r.value[m].backing.FlatVer2? && r.value[m].backing.datastore.Some? &&
                r.err == Some(DiskDatastoreNotFound(r.value[m].backing.datastore.value.value))
  {
    var run := AliasedEntries(locs, specDisks, sourceDisks, entries, dir, {}, entries[0]);
    CloneEntriesUntouched(locs, specDisks, sourceDisks, entries, dir);
    Returned(seq(|locs|, m requires 0 <= m < |locs| =>
      if m in run.moved && run.locators[m].backing.FlatVer2?
      then run.locators[m].(backing := run.locators[m].backing.(datastore := Some(run.held.datastore)))
      else run.locators[m]), run.err)
  }

  /** Every locator that no entry moves is left as it was. */
  lemma CloneEntriesUntouched(locs: seq<DiskLocator>, specDisks: seq<VirtualDisk>, sourceDisks: seq<VirtualDisk>,
                              entries: seq<RecommendedDisk>, dir: DatastoreDirectory)
    ensures var r := CloneEntries(locs, specDisks, sourceDisks, entries, dir);
            forall m :: 0 <= m < |locs| && LastCloneFor(entries, specDisks, sourceDisks, locs[m].diskId).None? ==> r.value[m] == locs[m]
  {
    forall m | 0 <= m < |locs| && LastCloneFor(entries, specDisks, sourceDisks, locs[m].diskId).None?
      ensures CloneEntries(locs, specDisks, sourceDisks, entries, dir).value[m] == locs[m]
    {
      CloneEntriesEffect(locs, specDisks, sourceDisks, entries, dir, m);
    }
  }

  /** What the reconciler is meant to keep: a placed backing's file name is
      the root path of the very datastore its datastore reference names. */
  predicate BackingConsistent(loc: DiskLocator, dir: DatastoreDirectory)
  {
    loc.backing.FlatVer2? && loc.backing.datastore.Some? && loc.backing.datastore.value.value in dir &&
    loc.backing.fileName == dir[loc.backing.datastore.value.value].rootPath
  }

  /** The reference semantics keeps it: on success every locator a disk entry
      moved has a consistent backing. */
  lemma CloneActionsBackingConsistent(st: CloneState, specDisks: seq<VirtualDisk>, sourceDisks: seq<VirtualDisk>,
                                      actions: seq<ClusterAction>, dir: DatastoreDirectory, m: int)
    requires 0 <= m < |st.locators| && st.locators[m].backing.FlatVer2?
    requires CloneActions(st, specDisks, sourceDisks, actions, dir).err.None?
    requires LastCloneFor(DiskEntries(actions), specDisks, sourceDisks, st.locators[m].diskId).Some?
    ensures BackingConsistent(CloneActions(st, specDisks, sourceDisks, actions, dir).value.locators[m], dir)
  {
    CloneActionsPlaced(st, specDisks, sourceDisks, actions, dir, m);
  }

  /** Two probed disks 2000 and 2001 correspond to source disks 3000 and
      3001; one action places 2000 on A and 2001 on B. As written, the
      locator of 3000 gets file name `[A] ` but datastore reference B; the
      reference semantics gives it A. */
  lemma CloneSharedLoopVariableCounterexample()
    ensures var specDisks := [VirtualDisk(2000, OtherBacking("probe")), VirtualDisk(2001, OtherBacking("probe"))];
            var sourceDisks := [VirtualDisk(3000, OtherBacking("source")), VirtualDisk(3001, OtherBacking("source"))];
            var locs := [DiskLocator(3000, DsC, FlatVer2("", None, "persistent")),
                         DiskLocator(3001, DsC, FlatVer2("", None, "persistent"))];
            var entries := [RecommendedDisk(2000, DsA), RecommendedDisk(2001, DsB)];
            var asWritten := CloneActionEntriesAsWritten(locs, specDisks, sourceDisks, entries, Directory());
            var intended := CloneEntries(locs, specDisks, sourceDisks, entries, Directory());
            && asWritten.value[0].backing == FlatVer2("[A] ", Some(DsB), "persistent")
            && !BackingConsistent(asWritten.value[0], Directory())
            && intended.value[0].backing == FlatVer2("[A] ", Some(DsA), "persistent")
            && BackingConsistent(intended.value[0], Directory())
  {
    var specDisks := [VirtualDisk(2000, OtherBacking("probe")), VirtualDisk(2001, OtherBacking("probe"))];
    var sourceDisks := [VirtualDisk(3000, OtherBacking("source")), VirtualDisk(3001, OtherBacking("source"))];
    var l0 := DiskLocator(3000, DsC, FlatVer2("", None, "persistent"));
    var l1 := DiskLocator(3001, DsC, FlatVer2("", None, "persistent"));
    var e0, e1 := RecommendedDisk(2000, DsA), RecommendedDisk(2001, DsB);
    var dir := Directory();
    assert dir[DsA.value].rootPath == "[A] " && dir[DsB.value].rootPath == "[B] ";
    assert IsCloneTarget(specDisks, sourceDisks, 2000, 3000) by {
      assert specDisks[0].key == 2000 && sourceDisks[0].key == 3000;
    }
    assert !IsCloneTarget(specDisks, sourceDisks, 2000, 3001);
    assert IsCloneTarget(specDisks, sourceDisks, 2001, 3001) by {
      assert specDisks[1].key == 2001 && sourceDisks[1].key == 3001;
    }
    assert !IsCloneTarget(specDisks, sourceDisks, 2001, 3000);
    var p0 := l0.(backing := FlatVer2("[A] ", Some(DsA), "persistent"));
    var p1 := l1.(backing := FlatVer2("[B] ", Some(DsB), "persistent"));
    var r0 := CloneDiskEntry([l0, l1], specDisks, sourceDisks, e0, dir);
    assert r0.Ok? && |r0.value| == 2 && r0.value[0] == p0 && r0.value[1] == l1;
    assert r0.value == [p0, l1];
    var r1 := CloneDiskEntry([p0, l1], specDisks, sourceDisks, e1, dir);
    assert r1.Ok? && |r1.value| == 2 && r1.value[0] == p0 && r1.value[1] == p1;
    assert r1.value == [p0, p1];
    assert [e0, e1][1..] == [e1] && [e1][1..] == [];
    assert CloneEntries([p0, p1], specDisks, sourceDisks, [], dir) == Returned([p0, p1], None);
    assert CloneEntries([p0, l1], specDisks, sourceDisks, [e1], dir) == Returned([p0, p1], None);
    assert CloneEntries([l0, l1], specDisks, sourceDisks, [e0, e1], dir) == Returned([p0, p1], None);
    assert LastCloneFor([e0, e1], specDisks, sourceDisks, 3000) == Some(DsA) by {
      assert LastCloneFor([e1], specDisks, sourceDisks, 3000) == None;
    }
  }

  /** The same action whose second entry names a datastore the directory
      does not know: the loop stops at that entry, so as written the locator
      of 3000, already placed on A, reports the unknown datastore; the
      reference semantics leaves it on A. */
  lemma CloneSharedLoopVariableFailureCounterexample()
    ensures var specDisks := [VirtualDisk(2000, OtherBacking("probe")), VirtualDisk(2001, OtherBacking("probe"))];
            var sourceDisks := [VirtualDisk(3000, OtherBacking("source")), VirtualDisk(3001, OtherBacking("source"))];
            var locs := [DiskLocator(3000, DsC, FlatVer2("", None, "persistent")),
                         DiskLocator(3001, DsC, FlatVer2("", None, "persistent"))];
            var unknown := MoRef("Datastore", "datastore-z");
            var entries := [RecommendedDisk(2000, DsA), RecommendedDisk(2001, unknown)];
            var asWritten := CloneActionEntriesAsWritten(locs, specDisks, sourceDisks, entries, Directory());
            var intended := CloneEntries(locs, specDisks, sourceDisks, entries, Directory());
            && asWritten.err == Some(DiskDatastoreNotFound("datastore-z"))
            && asWritten.value[0].backing == FlatVer2("[A] ", Some(unknown), "persistent")
            && intended.err == asWritten.err
            && intended.value[0].backing == FlatVer2("[A] ", Some(DsA), "persistent")
  {
    var specDisks := [VirtualDisk(2000, OtherBacking("probe")), VirtualDisk(2001, OtherBacking("probe"))];
    var sourceDisks := [VirtualDisk(3000, OtherBacking("source")), VirtualDisk(3001, OtherBacking("source"))];
    var l0 := DiskLocator(3000, DsC, FlatVer2("", None, "persistent"));
    var l1 := DiskLocator(3001, DsC, FlatVer2("", None, "persistent"));
    var unknown := MoRef("Datastore", "datastore-z");
    var e0, e1 := RecommendedDisk(2000, DsA), RecommendedDisk(2001, unknown);
    var dir := Directory();
    assert dir[DsA.value].rootPath == "[A] " && unknown.value !in dir;
    assert IsCloneTarget(specDisks, sourceDisks, 2000, 3000) by {
      assert specDisks[0].key == 2000 && sourceDisks[0].key == 3000;
    }
    assert !IsCloneTarget(specDisks, sourceDisks, 2000, 3001);
    assert IsCloneTarget(specDisks, sourceDisks, 2001, 3001) by {
      assert specDisks[1].key == 2001 && sourceDisks[1].key == 3001;
    }
    var p0 := l0.(backing := FlatVer2("[A] ", Some(DsA), "persistent"));
    var r0 := CloneDiskEntry([l0, l1], specDisks, sourceDisks, e0, dir);
    assert r0.Ok? && |r0.value| == 2 && r0.value[0] == p0 && r0.value[1] == l1;
    assert r0.value == [p0, l1];
    assert HasCloneTarget([p0, l1], specDisks, sourceDisks, 2001) by {
      assert IsCloneTarget(specDisks, sourceDisks, 2001, [p0, l1][1].diskId);
    }
    assert CloneDiskEntry([p0, l1], specDisks, sourceDisks, e1, dir) == Err(DiskDatastoreNotFound("datastore-z"));
    assert [e0, e1][1..] == [e1];
    assert CloneEntries([p0, l1], specDisks, sourceDisks, [e1], dir) == Returned([p0, l1], Some(DiskDatastoreNotFound("datastore-z")));
    assert CloneEntries([l0, l1], specDisks, sourceDisks, [e0, e1], dir) == Returned([p0, l1], Some(DiskDatastoreNotFound("datastore-z")));
    var run := AliasedEntries([l0, l1], specDisks, sourceDisks, [e0, e1], dir, {}, e0);
    var run1 := AliasedEntries([p0, l1], specDisks, sourceDisks, [e1], dir, MovedBy([l0, l1], specDisks, sourceDisks, e0), e0);
    assert 0 in MovedBy([l0, l1], specDisks, sourceDisks, e0);
    assert r0 == Ok([p0, l1]) && [e0, e1][0] == e0;
    assert {} + MovedBy([l0, l1], specDisks, sourceDisks, e0) == MovedBy([l0, l1], specDisks, sourceDisks, e0);
    assert run == run1;
    assert run1 == AliasRun([p0, l1], MovedBy([l0, l1], specDisks, sourceDisks, e0), e1, Some(DiskDatastoreNotFound("datastore-z")));
  }
}
