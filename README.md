# Storage DRS placement for new and cloned virtual machines

This project models the storage DRS workflow of the vSphere Terraform provider.
When a virtual machine is created or cloned into a datastore cluster (a
storage pod), the provider does three things:

1. It builds a placement request. The request lists every new disk of the
   configuration: the device changes with operation `add` and file
   operation `create`.
2. It asks the storage resource manager for recommendations.
3. It applies the first recommendation.

The first recommendation is applied action by action:

- A VM-level action is a placement action with no disk entries.
  - On VM creation it points the VMX file at the destination datastore,
    giving the path `[name]`.
  - On clone it sets the clone's location datastore.
- A disk entry places disks.
  - On VM creation it rewrites the backing file name of every disk of the
    configuration spec that has the entry's key.
  - On clone the entry's key is a key of the probed final configuration. It
    is carried over to the source VM's disk at the same position of the two
    sorted disk lists. That source disk's clone locators are then pointed
    at the datastore: its `Path("")` becomes the file name, and the entry's
    reference becomes the backing datastore. Positions past the end of the
    source disks are skipped.
- Actions of any other kind are ignored.
- The first datastore that cannot be resolved ends the apply with an error.

## How the model is built

**Pure reference semantics.** Each reconciler has one. `ConfigReconcile.ConfigActions`
and `CloneReconcile.CloneActions` are folds over the actions of the chosen
recommendation. Each returns the new state together with an optional error,
like Go's `(value, error)` pair.

**In-place methods.** The reconcilers themselves are methods:
`ApplySdrsRecommendationsToConfigSpec` and `ApplySdrsRecommendationsToCloneSpec`, with
their per-entry loops. The Go structs are passed by value, but a spec's
device change list and a clone's disk locators reach the caller through
shared backing storage. So those two lists are `array`s inside value
datatypes. Each method's `ensures` ties its result and the final array
contents to the reference fold over the old contents.

**Environment as inputs.** The vCenter check is a flag. The datastore cluster
lookup is a map from id to pod reference. Datastore lookup is a
`DatastoreDirectory`, a map from datastore id to name and root path. The
storage resource manager is a function from placement request to reply.

**Disk ordering.** Sorting the disks by unit number (`SelectAndSortDisks`)
is not part of this model. The clone path takes the two sorted disk lists
as inputs.

**The locator's own datastore field.** The clone loop iterates over disk
locators by value. Its assignment of the locator's own `datastore` field
(`vsphere/internal/vmworkflow/virtual_machine_storage_drs_workflow.go:306`)
therefore changes only a copy and never reaches the clone spec. The
backing, which is reached through a pointer, does change. The model follows
the code: a placed locator keeps its `datastore` field, although the
assignment at line 306 shows the intent to set it.

**The backing's datastore reference.** Line 305 stores the address of the
datastore field of the loop variable over the action's disk entries. The
reconciler models that variable as fresh on every iteration, so each
backing refers to the datastore of the entry that placed it. With a
single variable shared by all iterations, as in Go before release 1.22,
the result differs; `CloneFindings` models that reading for one action
(see "## Findings").

## Model

| member | source | states |
|---|---|---|
| VmWorkflow.VmxPath | vsphere/internal/vmworkflow/virtual_machine_workflow.go:29-31 | the VMX path is the datastore name between square brackets, two characters longer |
| VmWorkflow.ParseVmxPath | vsphere/internal/vmworkflow/virtual_machine_workflow.go:29-31 | a path is readable back exactly when it is bracketed, and formatting the name read back gives the path again |
| VmWorkflow.VmxPathRoundTrip | vsphere/internal/vmworkflow/virtual_machine_workflow.go:29-31 | reading the name back out of `[name]` gives the name |
| VmWorkflow.VmxPathInjective | vsphere/internal/vmworkflow/virtual_machine_workflow.go:29-31 | different datastore names give different VMX paths |
| VmWorkflow.PopulateVmxDatastore | vsphere/internal/vmworkflow/virtual_machine_workflow.go:17-34 | fails exactly when the datastore id does not resolve, returning the spec unchanged with a VMX-datastore error; otherwise the file info is a fresh one whose VMX path is `[name]` of that datastore; name, CPUs, memory and device changes are kept |
| VmWorkflow.PopulateVmxDatastoreOnlyFiles | vsphere/internal/vmworkflow/virtual_machine_workflow.go:29-31 | the file info is the only field that can change |
| VmWorkflow.PopulateVmxDatastoreIdempotent | vsphere/internal/vmworkflow/virtual_machine_workflow.go:17-34 | populating a second time with the same id changes nothing |
| PlacementRequest.FilteredDisksAppend | vsphere/internal/vmworkflow/virtual_machine_storage_drs_workflow.go:138-153 | the filter distributes over concatenation, so order is kept |
| PlacementRequest.FilteredDisksMembership | vsphere/internal/vmworkflow/virtual_machine_storage_drs_workflow.go:139-151 | a disk is selected iff some device change carries it with the requested operation and file operation |
| PlacementRequest.FilteredDisksEmpty | vsphere/internal/vmworkflow/virtual_machine_storage_drs_workflow.go:138-153 | the selection is never longer than its input, and is empty iff no device change matches |
| PlacementRequest.StoragePodDiskFilter | vsphere/internal/vmworkflow/virtual_machine_storage_drs_workflow.go:133-154 | the loop returns the disks of the matching device changes, in order |
| PlacementRequest.VmPodConfigForPlacementAppendNewDisks | vsphere/internal/vmworkflow/virtual_machine_storage_drs_workflow.go:156-185 | the given configs are kept as a prefix, followed by one single-disk pod config per new (add/create) disk, with the disk's key and backing and the pod |
| PlacementRequest.VmPodConfigForPlacementForCreate | vsphere/internal/vmworkflow/virtual_machine_storage_drs_workflow.go:124-131 | the pod configs are exactly one per new disk, starting from none |
| PlacementRequest.StorageDrsPodSelectionSpecForCreate | vsphere/internal/vmworkflow/virtual_machine_storage_drs_workflow.go:108-122 | the selection names the pod and carries one initial pod config per new disk |
| PlacementRequest.StoragePlacementSpecForCreate | vsphere/internal/vmworkflow/virtual_machine_storage_drs_workflow.go:89-106 | the request has placement type `create`, the resource pool, the config spec and the pod selection for the new disks |
| PlacementRequest.PlacementRequestNamesNewDisks | vsphere/internal/vmworkflow/virtual_machine_storage_drs_workflow.go:89-185 | a disk key appears in the request iff the spec adds and creates a disk with that key; the request lists no disk iff there is none |
| ConfigReconcile.ConfigDiskEntry | vsphere/internal/vmworkflow/virtual_machine_storage_drs_workflow.go:212-229 | one entry fails iff some disk has its key and its datastore is unknown, with a disk-datastore error; otherwise exactly the disks with that key get `[name]` as file name, and the rest is unchanged |
| ConfigReconcile.ConfigEntries | vsphere/internal/vmworkflow/virtual_machine_storage_drs_workflow.go:212-229 | applying entries never changes an operation, device kind, key or backing kind |
| ConfigReconcile.ConfigAction | vsphere/internal/vmworkflow/virtual_machine_storage_drs_workflow.go:196-229 | one action keeps the shape of every device change |
| ConfigReconcile.ConfigActions | vsphere/internal/vmworkflow/virtual_machine_storage_drs_workflow.go:196-232 | all actions keep the shape of every device change |
| ConfigReconcile.FlatForShapes | vsphere/internal/vmworkflow/virtual_machine_storage_drs_workflow.go:226 | the flat-backing requirement survives any shape-preserving update, so the type assertion stays satisfied across entries |
| ConfigReconcile.MarkDiskFileTwice | vsphere/internal/vmworkflow/virtual_machine_storage_drs_workflow.go:226 | placing a disk twice leaves only the second placement |
| ConfigReconcile.ConfigEntriesEffect | vsphere/internal/vmworkflow/virtual_machine_storage_drs_workflow.go:212-229 | after a sequence of entries, a disk carries the datastore of the last entry for its key (the last one wins); an unnamed device change is untouched even on failure |
| ConfigReconcile.ConfigEntriesFail | vsphere/internal/vmworkflow/virtual_machine_storage_drs_workflow.go:219-225 | entries fail iff one of them names an existing disk with an unknown datastore, and the error is then a disk-datastore error |
| ConfigReconcile.ConfigActionsIgnoreOtherActions | vsphere/internal/vmworkflow/virtual_machine_storage_drs_workflow.go:196-200 | dropping the actions that are not storage placement actions does not change the outcome |
| ConfigReconcile.ConfigActionsVmxPath | vsphere/internal/vmworkflow/virtual_machine_storage_drs_workflow.go:201-211 | on success the VMX path names the last VM-level destination, or is untouched without one; no other spec field changes |
| ConfigReconcile.ConfigActionsDevices | vsphere/internal/vmworkflow/virtual_machine_storage_drs_workflow.go:196-230 | on success the devices are those of applying all disk entries of all actions as one sequence |
| ConfigReconcile.ConfigEntriesAppend | vsphere/internal/vmworkflow/virtual_machine_storage_drs_workflow.go:212-229 | running two entry lists in turn equals running their concatenation |
| ConfigReconcile.HasDiskWithKeyShapes | vsphere/internal/vmworkflow/virtual_machine_storage_drs_workflow.go:213-219 | whether a disk with a key exists is not changed by an update |
| ConfigReconcile.ConfigActionsFail | vsphere/internal/vmworkflow/virtual_machine_storage_drs_workflow.go:196-231 | the apply fails iff some VM-level destination or some disk entry naming an existing disk refers to an unknown datastore |
| ConfigReconcile.LastForAppend | vsphere/internal/vmworkflow/virtual_machine_storage_drs_workflow.go:212-229 | the winning entry in a concatenation is the second list's when it has one |
| ConfigReconcile.ConfigActionsUntouched | vsphere/internal/vmworkflow/virtual_machine_storage_drs_workflow.go:212-229 | a device change no disk entry names is untouched, even when the apply fails part way |
| ConfigReconcile.ConfigActionsPlaced | vsphere/internal/vmworkflow/virtual_machine_storage_drs_workflow.go:219-226 | on success a named disk's file name is `[name]` of the datastore of the last entry for it, which resolves |
| ConfigReconcile.ApplyConfigDiskEntry | vsphere/internal/vmworkflow/virtual_machine_storage_drs_workflow.go:213-228 | the in-place scan produces the reference entry's devices, or leaves them unchanged and reports its error |
| ConfigReconcile.ApplySdrsRecommendationsToConfigSpec | vsphere/internal/vmworkflow/virtual_machine_storage_drs_workflow.go:187-232 | the returned spec, the device change array afterwards and the error are those of the reference fold over the first recommendation's actions |
| CloneReconcile.CloneTargetBelowStep | vsphere/internal/vmworkflow/virtual_machine_storage_drs_workflow.go:286-294 | extending the scanned positions by one adds exactly that position's correspondence |
| CloneReconcile.CloneDiskEntry | vsphere/internal/vmworkflow/virtual_machine_storage_drs_workflow.go:286-310 | one entry fails iff it moves some locator and its datastore is unknown; otherwise exactly the locators of the corresponding source disks are placed, and the rest is unchanged |
| CloneReconcile.CloneEntries | vsphere/internal/vmworkflow/virtual_machine_storage_drs_workflow.go:283-311 | applying entries never changes a locator's key, its own datastore or its backing kind |
| CloneReconcile.CloneAction | vsphere/internal/vmworkflow/virtual_machine_storage_drs_workflow.go:273-311 | one action keeps the shape of every locator |
| CloneReconcile.CloneActions | vsphere/internal/vmworkflow/virtual_machine_storage_drs_workflow.go:273-313 | all actions keep the shape of every locator |
| CloneReconcile.CloneDiskEntrySkipsNewDisks | vsphere/internal/vmworkflow/virtual_machine_storage_drs_workflow.go:291-293 | an entry for a probed disk past the end of the source disks changes nothing and cannot fail |
| CloneReconcile.CloneTargetPositional | vsphere/internal/vmworkflow/virtual_machine_storage_drs_workflow.go:286-297 | with distinct probed keys, the probed disk at position i moves exactly the locators of the source disk at position i |
| CloneReconcile.PlaceLocatorTwice | vsphere/internal/vmworkflow/virtual_machine_storage_drs_workflow.go:304-305 | placing a locator twice leaves only the second placement |
| CloneReconcile.CloneEntriesEffect | vsphere/internal/vmworkflow/virtual_machine_storage_drs_workflow.go:283-311 | a moved locator carries the datastore of the last entry that moves it; other locators are untouched even on failure |
| CloneReconcile.CloneEntriesFail | vsphere/internal/vmworkflow/virtual_machine_storage_drs_workflow.go:300-303 | entries fail iff one moves a locator and names an unknown datastore, with a disk-datastore error |
| CloneReconcile.CloneEntriesAppend | vsphere/internal/vmworkflow/virtual_machine_storage_drs_workflow.go:283-311 | running two entry lists in turn equals running their concatenation |
| CloneReconcile.LastCloneForAppend | vsphere/internal/vmworkflow/virtual_machine_storage_drs_workflow.go:283-311 | the winning entry for a locator in a concatenation is the second list's when it has one |
| CloneReconcile.CloneActionsLocators | vsphere/internal/vmworkflow/virtual_machine_storage_drs_workflow.go:273-311 | on success the locators are those of applying all disk entries of all actions as one sequence |
| CloneReconcile.CloneActionsPlaced | vsphere/internal/vmworkflow/virtual_machine_storage_drs_workflow.go:296-307 | on success a moved locator has `Path("")` of the last entry's datastore as file name and that reference as backing datastore; an unmoved locator is untouched even on failure |
| CloneReconcile.CloneActionsLocation | vsphere/internal/vmworkflow/virtual_machine_storage_drs_workflow.go:278-281 | on success the location datastore is the last VM-level destination, or untouched without one; no other clone spec field changes |
| CloneReconcile.CloneActionsFail | vsphere/internal/vmworkflow/virtual_machine_storage_drs_workflow.go:273-313 | the clone apply fails iff some disk entry moves a locator and names an unknown datastore; VM-level actions cannot fail |
| CloneReconcile.ApplyCloneDiskEntry | vsphere/internal/vmworkflow/virtual_machine_storage_drs_workflow.go:286-310 | the in-place nested scan produces the reference entry's locators, or leaves them unchanged and reports its error |
| CloneReconcile.ApplySdrsRecommendationsToCloneSpec | vsphere/internal/vmworkflow/virtual_machine_storage_drs_workflow.go:234-314 | the returned clone spec, the locator array afterwards and the error are those of the reference fold over the first recommendation's actions |
| CloneReconcile.CloneFlatForShapes | vsphere/internal/vmworkflow/virtual_machine_storage_drs_workflow.go:304-305 | the flat-backing requirement survives any shape-preserving update of the locators |
| SdrsWorkflow.RecommendDatastoresForCreate | vsphere/internal/vmworkflow/virtual_machine_storage_drs_workflow.go:319-342 | an unknown pod, a failed call and an empty answer are each their own error; a success holds the scheduler's recommendations, at least one |
| SdrsWorkflow.SdrsTransformVirtualMachineConfigSpecForCreate | vsphere/internal/vmworkflow/virtual_machine_storage_drs_workflow.go:27-51 | without vCenter, or when recommending fails, the spec and its devices are untouched and that error is returned; otherwise the outcome is the reference apply, with its error wrapped |
| SdrsWorkflow.SdrsTransformVirtualMachineCloneSpec | vsphere/internal/vmworkflow/virtual_machine_storage_drs_workflow.go:60-87 | recommends against the final config spec and applies to the clone spec: without vCenter, or when recommending fails, the clone spec is untouched; otherwise the reference clone apply, with its error wrapped |
| SdrsScenarios.CloneScenarioSkipsDiskWithoutSource | vsphere/internal/vmworkflow/virtual_machine_storage_drs_workflow.go:273-311 | probed disks 2000 and 2001 with the single source disk 3000: locator 3000 moves to A, 2001 is skipped, the location datastore becomes B |
| SdrsScenarios.CreateScenarioPlacesDiskAndVmx | vsphere/internal/vmworkflow/virtual_machine_storage_drs_workflow.go:196-229 | a VM-level action and a disk entry on datastore C give VMX path `[C]` and disk file name `[C]` |
| CloneFindings.AliasedEntries | vsphere/internal/vmworkflow/virtual_machine_storage_drs_workflow.go:283-307 | the entry loop with a shared loop variable leaves the reference locators and error; the variable then holds the last entry on success, or the entry whose datastore failed to resolve; the positions pointing at it are exactly those some entry moved on success, and only such positions otherwise |
| CloneFindings.CloneActionEntriesAsWritten | vsphere/internal/vmworkflow/virtual_machine_storage_drs_workflow.go:283-307 | as written, the error is the reference one and unmoved locators are untouched; on success every moved flat backing has the reference file name but the action's last entry's datastore; on failure every backing that differs from the reference points at the datastore that failed to resolve |
| CloneFindings.CloneEntriesUntouched | vsphere/internal/vmworkflow/virtual_machine_storage_drs_workflow.go:296-307 | a locator no entry moves is left as it was, whatever the outcome |
| CloneFindings.CloneActionsBackingConsistent | vsphere/internal/vmworkflow/virtual_machine_storage_drs_workflow.go:304-305 | in the reference semantics a placed backing's file name is the root path of the datastore its reference names |
| CloneFindings.CloneSharedLoopVariableCounterexample | vsphere/internal/vmworkflow/virtual_machine_storage_drs_workflow.go:283-306 | two entries on A and B: with a shared loop variable, locator 3000 gets file name `[A] ` but backing datastore B; the reference semantics gives A |
| CloneFindings.CloneSharedLoopVariableFailureCounterexample | vsphere/internal/vmworkflow/virtual_machine_storage_drs_workflow.go:296-305 | entries on A and on an unknown datastore: the apply fails in both readings, and as written locator 3000, already placed on A, reports the unknown datastore; the reference semantics leaves it on A |

## Left out

- Communication with vCenter: the connection check, the pod and datastore lookups and the scheduler call are inputs. The API timeout and the cancellation context are not modelled.
- Logging, `ResourceIDString` and the Terraform resource data (`datastore_cluster_id` is the `podId` parameter).
- Error message texts: each error site is its own constructor, and the wrapped causes are not modelled.
- `SelectAndSortDisks` is not part of this model: the clone path takes the two sorted disk lists as inputs.
- `Datastore.Path("")` and `Datastore.Name()` are values stored in the directory (`rootPath`, `name`), not computed.
- ConfigReconcile.ApplySdrsRecommendationsToConfigSpec: the unchecked type assertion to a flat version-2 backing, which panics in Go, is a precondition. It only covers the disks whose keys the recommendation names.
- CloneReconcile.ApplySdrsRecommendationsToCloneSpec: the unchecked type assertions on the backings of the locators moved by a recommended disk are a precondition. The assertion that every sorted disk is a virtual disk holds by construction.
- Device aliasing: two device change entries sharing one disk object is not modelled. Each entry is an independent value.
- The scheduler is a total function of the request value: it sees the array's identity and the pod configs built from the array's contents, not the array itself, and it cannot change the spec.
- CloneReconcile.ApplySdrsRecommendationsToCloneSpec: each placed backing takes its datastore reference from the entry that placed it, as with a fresh loop variable per iteration. The shared-variable behaviour of older Go toolchains is modelled only in `CloneFindings`, and only for the entries of one action.
- Cancellation or concurrent use of the specs is not modelled.

## Findings

| source | as written | input that shows it | evidently intended | confidence | as-written member | corrected member |
|---|---|---|---|---|---|---|
| vsphere/internal/vmworkflow/virtual_machine_storage_drs_workflow.go:305 | the backing datastore is `&disk.Datastore`, the address of the range variable; with Go before 1.22 that one variable is shared by all iterations, so once the loop stops every backing the action placed points at the datastore of the entry it stopped at: the action's last entry, or the entry whose lookup failed at line 302 | one action with entries 2000 on A and 2001 on B, corresponding to locators 3000 and 3001: locator 3000 gets file name `[A] ` and backing datastore B (CloneFindings.CloneSharedLoopVariableCounterexample); with 2001 on an unknown datastore instead, locator 3000 reports that datastore (CloneFindings.CloneSharedLoopVariableFailureCounterexample) | each backing points at the datastore of the entry that placed it, the one its file name was formatted from (CloneReconcile.CloneEntries) | not executed; medium, because it depends on the Go toolchain the provider is built with | CloneFindings.CloneActionEntriesAsWritten | CloneFindings.CloneActionsBackingConsistent |
