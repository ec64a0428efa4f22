/** Applying a storage DRS recommendation, computed for the final VM
    configuration, to the clone spec of that VM. The recommendation's disk
    ids are keys of the probed configuration's disks; they are carried over
    to the source VM's disks, whose keys the clone's disk locators use, by
    position in the two sorted disk lists. */
module CloneReconcile {
  import opened SdrsTypes

  // ----- Positional correlation -------------------------------------------

  /** Some position below `n` holds a probed disk with key `id` and a source
      disk with key `locKey`. */
  predicate CloneTargetBelow(n: int, specDisks: seq<VirtualDisk>, sourceDisks: seq<VirtualDisk>, id: int, locKey: int)
  {
    exists i :: 0 <= i < n && i < |specDisks| && i < |sourceDisks| && specDisks[i].key == id && sourceDisks[i].key == locKey
  }

  /** The locators with key `locKey` are the ones the probed disk `id` moves. */
  predicate IsCloneTarget(specDisks: seq<VirtualDisk>, sourceDisks: seq<VirtualDisk>, id: int, locKey: int)
  {
    CloneTargetBelow(|specDisks|, specDisks, sourceDisks, id, locKey)
  }

  predicate HasCloneTarget(locs: seq<DiskLocator>, specDisks: seq<VirtualDisk>, sourceDisks: seq<VirtualDisk>, id: int)
  {
    exists m :: 0 <= m < |locs| && IsCloneTarget(specDisks, sourceDisks, id, locs[m].diskId)
  }

  lemma CloneTargetBelowStep(n: int, specDisks: seq<VirtualDisk>, sourceDisks: seq<VirtualDisk>, id: int, locKey: int)
    requires 0 <= n
    ensures CloneTargetBelow(n + 1, specDisks, sourceDisks, id, locKey) <==>
            CloneTargetBelow(n, specDisks, sourceDisks, id, locKey) ||
            (n < |specDisks| && n < |sourceDisks| && specDisks[n].key == id && sourceDisks[n].key == locKey)
  {
    if CloneTargetBelow(n + 1, specDisks, sourceDisks, id, locKey) {
      var i :| 0 <= i < n + 1 && i < |specDisks| && i < |sourceDisks| && specDisks[i].key == id && sourceDisks[i].key == locKey;
      if i < n { assert CloneTargetBelow(n, specDisks, sourceDisks, id, locKey); }
    }
  }

  /** Points a locator's flat backing at datastore `ds` (its `Path("")` and
      reference). The locator's own datastore field is left as it is: the
      source assigns it on a copy of the locator. Any other backing kind is
      returned as it is (the methods' preconditions rule it out). */
  function PlaceLocator(loc: DiskLocator, ref: MoRef, ds: Datastore): DiskLocator
  {
    if loc.backing.FlatVer2? then loc.(backing := loc.backing.(fileName := ds.rootPath, datastore := Some(ref)))
    else loc
  }

  /** What an update may not change: the locator's key, its own datastore and its backing kind. */
  predicate SameLocatorShapes(a: seq<DiskLocator>, b: seq<DiskLocator>)
  {
    |a| == |b| &&
    forall m :: 0 <= m < |a| ==>
      a[m].diskId == b[m].diskId && a[m].datastore == b[m].datastore && a[m].backing.FlatVer2? == b[m].backing.FlatVer2?
  }

  /** Every locator that a recommended disk id moves has a flat backing (the
      source asserts the backing type of every locator it rewrites). */
  predicate CloneFlatFor(locs: seq<DiskLocator>, specDisks: seq<VirtualDisk>, sourceDisks: seq<VirtualDisk>, ids: set<int>)
  {
    forall m, id :: 0 <= m < |locs| && id in ids && IsCloneTarget(specDisks, sourceDisks, id, locs[m].diskId) ==>
      locs[m].backing.FlatVer2?
  }

  // ----- Reference semantics ----------------------------------------------

  /** One disk entry: every locator whose key is that of a source disk at a
      position where the probed disks hold the entry's disk is placed on the
      entry's datastore. Positions past the end of the source disks are
      skipped. The datastore is looked up only when a locator matches. */
  function CloneDiskEntry(locs: seq<DiskLocator>, specDisks: seq<VirtualDisk>, sourceDisks: seq<VirtualDisk>,
                          e: RecommendedDisk, dir: DatastoreDirectory): (r: Result<seq<DiskLocator>>)
    ensures r.Err? <==> HasCloneTarget(locs, specDisks, sourceDisks, e.diskId) && e.datastore.value !in dir
    ensures r.Err? ==> r.error == DiskDatastoreNotFound(e.datastore.value)
    ensures r.Ok? ==> SameLocatorShapes(r.value, locs)
    ensures r.Ok? ==> forall m :: 0 <= m < |locs| && !IsCloneTarget(specDisks, sourceDisks, e.diskId, locs[m].diskId) ==>
              r.value[m] == locs[m]
    ensures r.Ok? ==> forall m :: 0 <= m < |locs| && IsCloneTarget(specDisks, sourceDisks, e.diskId, locs[m].diskId) ==>
              e.datastore.value in dir && r.value[m] == PlaceLocator(locs[m], e.datastore, dir[e.datastore.value])
  {
    if HasCloneTarget(locs, specDisks, sourceDisks, e.diskId) && e.datastore.value !in dir then
      Err(DiskDatastoreNotFound(e.datastore.value))
    else
      Ok(seq(|locs|, m requires 0 <= m < |locs| =>
        if IsCloneTarget(specDisks, sourceDisks, e.diskId, locs[m].diskId) && e.datastore.value in dir
        then PlaceLocator(locs[m], e.datastore, dir[e.datastore.value]) else locs[m]))
  }

  /** The disk entries of one action, in order, stopping at the first error. */
  function CloneEntries(locs: seq<DiskLocator>, specDisks: seq<VirtualDisk>, sourceDisks: seq<VirtualDisk>,
                        entries: seq<RecommendedDisk>, dir: DatastoreDirectory): (r: Returned<seq<DiskLocator>>)
    ensures SameLocatorShapes(r.value, locs)
    decreases |entries|
  {
    if entries == [] then Returned(locs, None)
    else
      match CloneDiskEntry(locs, specDisks, sourceDisks, entries[0], dir)
      case Err(e) => Returned(locs, Some(e))
      case Ok(next) => CloneEntries(next, specDisks, sourceDisks, entries[1..], dir)
  }

  /** The state the reconciler works on: the clone spec value and its disk locators. */
  datatype CloneState = CloneState(spec: CloneSpec, locators: seq<DiskLocator>)

  function CloneAction(st: CloneState, specDisks: seq<VirtualDisk>, sourceDisks: seq<VirtualDisk>,
                       a: ClusterAction, dir: DatastoreDirectory): (r: Returned<CloneState>)
    ensures SameLocatorShapes(r.value.locators, st.locators)
  {
    match a
    case OtherAction(_) => Returned(st, None)
    case StoragePlacementAction(dest, disks) =>
      if |disks| < 1 then
        Returned(st.(spec := st.spec.(location := st.spec.location.(datastore := Some(dest)))), None)
      else
        var r := CloneEntries(st.locators, specDisks, sourceDisks, disks, dir);
        Returned(st.(locators := r.value), r.err)
  }

  function CloneActions(st: CloneState, specDisks: seq<VirtualDisk>, sourceDisks: seq<VirtualDisk>,
                        actions: seq<ClusterAction>, dir: DatastoreDirectory): (r: Returned<CloneState>)
    ensures SameLocatorShapes(r.value.locators, st.locators)
    decreases |actions|
  {
    if actions == [] then Returned(st, None)
    else
      var r := CloneAction(st, specDisks, sourceDisks, actions[0], dir);
      if r.err.Some? then r else CloneActions(r.value, specDisks, sourceDisks, actions[1..], dir)
  }

  /** The datastore of the last entry that moves locators with key `locKey`. */
  function LastCloneFor(entries: seq<RecommendedDisk>, specDisks: seq<VirtualDisk>, sourceDisks: seq<VirtualDisk>, locKey: int)
    : Option<MoRef>
  {
    if entries == [] then None
    else
      var later := LastCloneFor(entries[1..], specDisks, sourceDisks, locKey);
      if later.Some? then later
      else if IsCloneTarget(specDisks, sourceDisks, entries[0].diskId, locKey) then Some(entries[0].datastore)
      else None
  }

  // ----- Properties -------------------------------------------------------

  /** The skip rule: an entry whose probed disk sits only at positions past
      the end of the source disks changes nothing and cannot fail. */
  lemma CloneDiskEntrySkipsNewDisks(locs: seq<DiskLocator>, specDisks: seq<VirtualDisk>, sourceDisks: seq<VirtualDisk>,
                                    e: RecommendedDisk, dir: DatastoreDirectory)
    requires forall i :: 0 <= i < |specDisks| && specDisks[i].key == e.diskId ==> i >= |sourceDisks|
    ensures CloneDiskEntry(locs, specDisks, sourceDisks, e, dir) == Ok(locs)
  {
    var r := CloneDiskEntry(locs, specDisks, sourceDisks, e, dir);
    forall m | 0 <= m < |locs| ensures !IsCloneTarget(specDisks, sourceDisks, e.diskId, locs[m].diskId) {
    }
    assert !HasCloneTarget(locs, specDisks, sourceDisks, e.diskId);
    assert r.value == locs;
  }

  /** With the probed and source disks in one-to-one positional
      correspondence (distinct keys on both sides), the probed disk at
      position i moves exactly the locators of the source disk at position i. */
  lemma CloneTargetPositional(specDisks: seq<VirtualDisk>, sourceDisks: seq<VirtualDisk>, i: int, locKey: int)
    requires 0 <= i < |specDisks| && i < |sourceDisks|
    requires forall p, q :: 0 <= p < q < |specDisks| ==> specDisks[p].key != specDisks[q].key
    ensures IsCloneTarget(specDisks, sourceDisks, specDisks[i].key, locKey) <==> locKey == sourceDisks[i].key
  {
    if IsCloneTarget(specDisks, sourceDisks, specDisks[i].key, locKey) {
      var p :| 0 <= p < |specDisks| && p < |sourceDisks| && specDisks[p].key == specDisks[i].key && sourceDisks[p].key == locKey;
      assert p == i;
    }
  }

  lemma PlaceLocatorTwice(loc: DiskLocator, a: MoRef, da: Datastore, b: MoRef, db: Datastore)
    ensures PlaceLocator(PlaceLocator(loc, a, da), b, db) == PlaceLocator(loc, b, db)
  {
  }

  /** The effect of a sequence of disk entries on one locator: a locator that
      some entry moves carries the datastore of the last such entry, every
      other locator is as it was (also when an entry failed). */
  lemma {:induction false} CloneEntriesEffect(locs: seq<DiskLocator>, specDisks: seq<VirtualDisk>, sourceDisks: seq<VirtualDisk>,
                                              entries: seq<RecommendedDisk>, dir: DatastoreDirectory, m: int)
    requires 0 <= m < |locs|
    ensures var r := CloneEntries(locs, specDisks, sourceDisks, entries, dir);
            var last := LastCloneFor(entries, specDisks, sourceDisks, locs[m].diskId);
            && (last.None? ==> r.value[m] == locs[m])
            && (r.err.None? && last.Some? ==>
                  last.value.value in dir && r.value[m] == PlaceLocator(locs[m], last.value, dir[last.value.value]))
    decreases |entries|
  {
    if entries != [] {
      var e := entries[0];
      match CloneDiskEntry(locs, specDisks, sourceDisks, e, dir)
      case Err(_) =>
      case Ok(next) => {
        CloneEntriesEffect(next, specDisks, sourceDisks, entries[1..], dir, m);
        var later := LastCloneFor(entries[1..], specDisks, sourceDisks, locs[m].diskId);
        if later.Some? && later.value.value in dir && IsCloneTarget(specDisks, sourceDisks, e.diskId, locs[m].diskId) {
          PlaceLocatorTwice(locs[m], e.datastore, dir[e.datastore.value], later.value, dir[later.value.value]);
        }
      }
    }
  }

  /** Disk entries fail exactly when an entry moves some locator and names a
      datastore the directory cannot resolve. */
  lemma {:induction false} CloneEntriesFail(locs: seq<DiskLocator>, specDisks: seq<VirtualDisk>, sourceDisks: seq<VirtualDisk>,
                                            entries: seq<RecommendedDisk>, dir: DatastoreDirectory)
    ensures var r := CloneEntries(locs, specDisks, sourceDisks, entries, dir);
            && (r.err.Some? <==> exists e :: e in entries && HasCloneTarget(locs, specDisks, sourceDisks, e.diskId) && e.datastore.value !in dir)
            && (r.err.Some? ==> r.err.value.DiskDatastoreNotFound?)
    decreases |entries|
  {
    if entries != [] {
      var e := entries[0];
      match CloneDiskEntry(locs, specDisks, sourceDisks, e, dir)
      case Err(_) =>
      case Ok(next) => {
        CloneEntriesFail(next, specDisks, sourceDisks, entries[1..], dir);
        forall id ensures HasCloneTarget(next, specDisks, sourceDisks, id) <==> HasCloneTarget(locs, specDisks, sourceDisks, id) {
          if HasCloneTarget(next, specDisks, sourceDisks, id) {
            var p :| 0 <= p < |next| && IsCloneTarget(specDisks, sourceDisks, id, next[p].diskId);
            assert next[p].diskId == locs[p].diskId;
          }
          if HasCloneTarget(locs, specDisks, sourceDisks, id) {
            var p :| 0 <= p < |locs| && IsCloneTarget(specDisks, sourceDisks, id, locs[p].diskId);
            assert next[p].diskId == locs[p].diskId;
          }
        }
        assert forall x :: x in entries <==> x == e || x in entries[1..];
      }
    }
  }

  /** Running two entry lists one after the other is running their concatenation. */
  lemma {:induction false} CloneEntriesAppend(locs: seq<DiskLocator>, specDisks: seq<VirtualDisk>, sourceDisks: seq<VirtualDisk>,
                                              a: seq<RecommendedDisk>, b: seq<RecommendedDisk>, dir: DatastoreDirectory)
    ensures var ra := CloneEntries(locs, specDisks, sourceDisks, a, dir);
            ra.err.None? ==> CloneEntries(locs, specDisks, sourceDisks, a + b, dir) == CloneEntries(ra.value, specDisks, sourceDisks, b, dir)
    decreases |a|
  {
    if a != [] {
      assert (a + b)[0] == a[0] && (a + b)[1..] == a[1..] + b;
      match CloneDiskEntry(locs, specDisks, sourceDisks, a[0], dir)
      case Err(_) =>
      case Ok(next) => CloneEntriesAppend(next, specDisks, sourceDisks, a[1..], b, dir);
    } else {
      assert a + b == b;
    }
  }

  lemma {:induction false} LastCloneForAppend(a: seq<RecommendedDisk>, b: seq<RecommendedDisk>,
                                              specDisks: seq<VirtualDisk>, sourceDisks: seq<VirtualDisk>, locKey: int)
    ensures LastCloneFor(a + b, specDisks, sourceDisks, locKey) ==
            if LastCloneFor(b, specDisks, sourceDisks, locKey).Some? then LastCloneFor(b, specDisks, sourceDisks, locKey)
            else LastCloneFor(a, specDisks, sourceDisks, locKey)
    decreases |a|
  {
    if a == [] {
      assert a + b == b;
    } else {
      assert (a + b)[0] == a[0] && (a + b)[1..] == a[1..] + b;
      LastCloneForAppend(a[1..], b, specDisks, sourceDisks, locKey);
    }
  }

  /** On success the locators are those of applying every disk entry of every
      placement action in one sequence. */
  lemma {:induction false} CloneActionsLocators(st: CloneState, specDisks: seq<VirtualDisk>, sourceDisks: seq<VirtualDisk>,
                                                actions: seq<ClusterAction>, dir: DatastoreDirectory)
    ensures var r := CloneActions(st, specDisks, sourceDisks, actions, dir);
            r.err.None? ==> CloneEntries(st.locators, specDisks, sourceDisks, DiskEntries(actions), dir) == Returned(r.value.locators, None)
    decreases |actions|
  {
    if actions != [] {
      var a := actions[0];
      var r := CloneAction(st, specDisks, sourceDisks, a, dir);
      if r.err.None? {
        CloneActionsLocators(r.value, specDisks, sourceDisks, actions[1..], dir);
        var first := if a.StoragePlacementAction? then a.relocateDisks else [];
        CloneEntriesAppend(st.locators, specDisks, sourceDisks, first, DiskEntries(actions[1..]), dir);
      }
    }
  }

  /** On success, a locator that the disk entries move carries the datastore
      of the last entry that moves it: file name `Path("")` and backing
      datastore; a locator no entry moves is untouched even on failure. */
  lemma {:induction false} CloneActionsPlaced(st: CloneState, specDisks: seq<VirtualDisk>, sourceDisks: seq<VirtualDisk>,
                                              actions: seq<ClusterAction>, dir: DatastoreDirectory, m: int)
    requires 0 <= m < |st.locators|
    ensures var r := CloneActions(st, specDisks, sourceDisks, actions, dir);
            var last := LastCloneFor(DiskEntries(actions), specDisks, sourceDisks, st.locators[m].diskId);
            && (last.None? ==> r.value.locators[m] == st.locators[m])
            && (r.err.None? && last.Some? ==>
                  last.value.value in dir && r.value.locators[m] == PlaceLocator(st.locators[m], last.value, dir[last.value.value]))
    decreases |actions|
  {
    var r := CloneActions(st, specDisks, sourceDisks, actions, dir);
    if r.err.None? {
      CloneActionsLocators(st, specDisks, sourceDisks, actions, dir);
      CloneEntriesEffect(st.locators, specDisks, sourceDisks, DiskEntries(actions), dir, m);
    } else if actions != [] {
      var a := actions[0];
      var first := if a.StoragePlacementAction? then a.relocateDisks else [];
      LastCloneForAppend(first, DiskEntries(actions[1..]), specDisks, sourceDisks, st.locators[m].diskId);
      CloneEntriesEffect(st.locators, specDisks, sourceDisks, first, dir, m);
      var r1 := CloneAction(st, specDisks, sourceDisks, a, dir);
      if r1.err.None? {
        CloneActionsPlaced(r1.value, specDisks, sourceDisks, actions[1..], dir, m);
      }
    }
  }

  /** The VM-level action sets the clone's location datastore to its
      destination as given, with no lookup: on success the location datastore
      is the last VM-level destination, or untouched when there is none. No
      other field of the clone spec ever changes. */
  lemma {:induction false} CloneActionsLocation(st: CloneState, specDisks: seq<VirtualDisk>, sourceDisks: seq<VirtualDisk>,
                                                actions: seq<ClusterAction>, dir: DatastoreDirectory)
    ensures var r := CloneActions(st, specDisks, sourceDisks, actions, dir);
            var last := LastVmDestination(actions);
            && r.value.spec.(location := r.value.spec.location.(datastore := st.spec.location.datastore)) == st.spec
            && (r.err.None? ==> r.value.spec.location.datastore == if last.Some? then last else st.spec.location.datastore)
    decreases |actions|
  {
    if actions != [] {
      var r := CloneAction(st, specDisks, sourceDisks, actions[0], dir);
      if r.err.None? {
        CloneActionsLocation(r.value, specDisks, sourceDisks, actions[1..], dir);
      }
    }
  }

  /** The apply fails exactly when some disk entry moves a locator and names
      an unknown datastore; VM-level actions never fail in the clone path. */
  lemma {:induction false} CloneActionsFail(st: CloneState, specDisks: seq<VirtualDisk>, sourceDisks: seq<VirtualDisk>,
                                            actions: seq<ClusterAction>, dir: DatastoreDirectory)
    ensures CloneActions(st, specDisks, sourceDisks, actions, dir).err.Some? <==>
            exists a, e :: a in actions && a.StoragePlacementAction? && e in a.relocateDisks &&
                           HasCloneTarget(st.locators, specDisks, sourceDisks, e.diskId) && e.datastore.value !in dir
    decreases |actions|
  {
    if actions != [] {
      var a := actions[0];
      var r := CloneAction(st, specDisks, sourceDisks, a, dir);
      if a.StoragePlacementAction? {
        CloneEntriesFail(st.locators, specDisks, sourceDisks, a.relocateDisks, dir);
      }
      if r.err.None? {
        CloneActionsFail(r.value, specDisks, sourceDisks, actions[1..], dir);
        forall id ensures HasCloneTarget(r.value.locators, specDisks, sourceDisks, id) <==> HasCloneTarget(st.locators, specDisks, sourceDisks, id) {
          if HasCloneTarget(r.value.locators, specDisks, sourceDisks, id) {
            var p :| 0 <= p < |r.value.locators| && IsCloneTarget(specDisks, sourceDisks, id, r.value.locators[p].diskId);
            assert r.value.locators[p].diskId == st.locators[p].diskId;
          }
          if HasCloneTarget(st.locators, specDisks, sourceDisks, id) {
            var p :| 0 <= p < |st.locators| && IsCloneTarget(specDisks, sourceDisks, id, st.locators[p].diskId);
            assert r.value.locators[p].diskId == st.locators[p].diskId;
          }
        }
      }
      assert forall x :: x in actions <==> x == a || x in actions[1..];
    }
  }

  // ----- The reconciler ---------------------------------------------------

  /** One disk entry, in place: for each position of the probed disks holding
      the entry's disk, skips positions past the source disks and otherwise
      places every locator with the source disk's key. */
  method ApplyCloneDiskEntry(locators: array<DiskLocator>, specDisks: seq<VirtualDisk>, sourceDisks: seq<VirtualDisk>,
                             e: RecommendedDisk, dir: DatastoreDirectory) returns (err: Option<Error>)
    requires CloneFlatFor(locators[..], specDisks, sourceDisks, {e.diskId})
    modifies locators
    ensures var r := CloneDiskEntry(old(locators[..]), specDisks, sourceDisks, e, dir);
            && (r.Ok? ==> err.None? && locators[..] == r.value)
            && (r.Err? ==> err == Some(r.error) && locators[..] == old(locators[..]))
  {
    ghost var before := locators[..];
    var i := 0;
    while i < |specDisks|
      invariant 0 <= i <= |specDisks|
      invariant forall m :: 0 <= m < locators.Length && CloneTargetBelow(i, specDisks, sourceDisks, e.diskId, before[m].diskId) ==>
                  e.datastore.value in dir
      invariant forall m :: 0 <= m < locators.Length ==>
                  locators[m] == (if CloneTargetBelow(i, specDisks, sourceDisks, e.diskId, before[m].diskId) && e.datastore.value in dir
                                  then PlaceLocator(before[m], e.datastore, dir[e.datastore.value]) else before[m])
    {
      forall m | 0 <= m < locators.Length { CloneTargetBelowStep(i, specDisks, sourceDisks, e.diskId, before[m].diskId); }
      var specDisk := specDisks[i];
      if specDisk.key == e.diskId {
        if i >= |sourceDisks| {
          i := i + 1;
          continue;
        }
        var sourceDisk := sourceDisks[i];
        var k := 0;
        while k < locators.Length
          invariant 0 <= k <= locators.Length
          invariant forall m :: 0 <= m < k && CloneTargetBelow(i + 1, specDisks, sourceDisks, e.diskId, before[m].diskId) ==>
                      e.datastore.value in dir
          invariant forall m :: 0 <= m < k ==>
                      locators[m] == (if CloneTargetBelow(i + 1, specDisks, sourceDisks, e.diskId, before[m].diskId) && e.datastore.value in dir
                                      then PlaceLocator(before[m], e.datastore, dir[e.datastore.value]) else before[m])
          invariant forall m :: k <= m < locators.Length ==>
                      locators[m] == (if CloneTargetBelow(i, specDisks, sourceDisks, e.diskId, before[m].diskId) && e.datastore.value in dir
                                      then PlaceLocator(before[m], e.datastore, dir[e.datastore.value]) else before[m])
        {
          if locators[k].diskId == sourceDisk.key {
            if e.datastore.value !in dir {
              assert locators[..] == before;
              return Some(DiskDatastoreNotFound(e.datastore.value));
            }
            var ds := dir[e.datastore.value];
            var dest := locators[k];
            locators[k] := dest.(backing := dest.backing.(fileName := ds.rootPath, datastore := Some(e.datastore)));
          }
          k := k + 1;
        }
      }
      i := i + 1;
    }
    err := None;
    var r := CloneDiskEntry(before, specDisks, sourceDisks, e, dir);
    assert r.Ok?;
    assert locators[..] == r.value;
  }

  /** Applies the first recommendation to the clone spec: the VM-level action
      sets the location datastore to its destination, each disk entry places
      the locators its probed disk corresponds to by position. Actions of
      other kinds are skipped; the first failed lookup ends the apply, with
      the changes made so far kept. */
  method ApplySdrsRecommendationsToCloneSpec(recommendations: seq<ClusterRecommendation>, cloneSpec: CloneSpec,
                                             sourceDisks: seq<VirtualDisk>, specDisks: seq<VirtualDisk>, dir: DatastoreDirectory)
    returns (out: CloneSpec, err: Option<Error>)
    requires |recommendations| > 0
    requires CloneFlatFor(cloneSpec.location.disk[..], specDisks, sourceDisks, RecommendedIds(recommendations[0].action))
    modifies cloneSpec.location.disk
    ensures var r := CloneActions(CloneState(cloneSpec, old(cloneSpec.location.disk[..])), specDisks, sourceDisks,
                                  recommendations[0].action, dir);
            out == r.value.spec && cloneSpec.location.disk[..] == r.value.locators && err == r.err
  {
    var actions := recommendations[0].action;
    var locs := cloneSpec.location.disk;
    ghost var ids := RecommendedIds(actions);
    ghost var goal := CloneActions(CloneState(cloneSpec, locs[..]), specDisks, sourceDisks, actions, dir);
    out := cloneSpec;
    var i := 0;
    while i < |actions|
      invariant 0 <= i <= |actions|
      invariant out.location.disk == locs
      invariant CloneFlatFor(locs[..], specDisks, sourceDisks, ids)
      invariant CloneActions(CloneState(out, locs[..]), specDisks, sourceDisks, actions[i..], dir) == goal
      decreases |actions| - i
    {
      var action := actions[i];
      assert actions[i..][0] == action && actions[i..][1..] == actions[i + 1..];
      if action.StoragePlacementAction? {
        var disks := action.relocateDisks;
        if |disks| < 1 {
          out := out.(location := out.location.(datastore := Some(action.destination)));
        } else {
          ghost var start := locs[..];
          var j := 0;
          while j < |disks|
            invariant 0 <= j <= |disks|
            invariant CloneFlatFor(locs[..], specDisks, sourceDisks, ids)
            invariant CloneEntries(locs[..], specDisks, sourceDisks, disks[j..], dir) ==
                      CloneEntries(start, specDisks, sourceDisks, disks, dir)
            decreases |disks| - j
          {
            assert disks[j..][0] == disks[j] && disks[j..][1..] == disks[j + 1..];
            assert action in actions && disks[j] in disks;
            assert disks[j].diskId in ids;
            assert CloneFlatFor(locs[..], specDisks, sourceDisks, {disks[j].diskId});
            ghost var pre := locs[..];
            var e := ApplyCloneDiskEntry(locs, specDisks, sourceDisks, disks[j], dir);
            if e.Some? {
              return out, e;
            }
            CloneFlatForShapes(locs[..], pre, specDisks, sourceDisks, ids);
            j := j + 1;
          }
        }
      }
      i := i + 1;
    }
    err := None;
  }

  lemma CloneFlatForShapes(a: seq<DiskLocator>, b: seq<DiskLocator>, specDisks: seq<VirtualDisk>, sourceDisks: seq<VirtualDisk>, ids: set<int>)
    requires SameLocatorShapes(a, b) && CloneFlatFor(b, specDisks, sourceDisks, ids)
    ensures CloneFlatFor(a, specDisks, sourceDisks, ids)
  {
    forall m, id | 0 <= m < |a| && id in ids && IsCloneTarget(specDisks, sourceDisks, id, a[m].diskId)
      ensures a[m].backing.FlatVer2?
    {
      assert b[m].diskId == a[m].diskId;
    }
  }
}
