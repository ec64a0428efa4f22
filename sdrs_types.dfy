/** Data model shared by the storage DRS workflow: the parts of the vSphere
    API types that placement requests, recommendations and the VM
    configuration and clone specifications are built from. */
module SdrsTypes {

  datatype Option<+T> = None | Some(value: T)

  datatype Result<+T> = Ok(value: T) | Err(error: Error)

  /** A Go-style pair `(value, error)`: the value is returned on both paths. */
  datatype Returned<+T> = Returned(value: T, err: Option<Error>)

  /** The errors this workflow can return, one constructor per error site. */
  datatype Error =
    | NotVCenter                              // the client is not connected to vCenter
    | StoragePodNotFound(podId: string)       // the datastore cluster id does not resolve
    | RecommendRequestFailed(cause: string)   // the scheduler call failed or timed out
    | NoRecommendations                       // the scheduler answered with nothing
    | VmxDatastoreNotFound(datastoreId: string)
    | DiskDatastoreNotFound(datastoreId: string)
    | ApplyConfigFailed(inner: Error)         // wrapper added by the create entry point
    | ApplyCloneFailed(inner: Error)          // wrapper added by the clone entry point

  /** A managed object reference: its type name and its id. */
  datatype MoRef = MoRef(kind: string, value: string)

  /** A resolved datastore handle: its name and `Path("")`, the datastore's
      root path as formatted by the client library (not modelled further). */
  datatype Datastore = Datastore(name: string, rootPath: string)

  /** The datastore directory: id to handle; a missing id is a failed lookup. */
  type DatastoreDirectory = map<string, Datastore>

  datatype Operation = OpUnset | OpAdd | OpRemove | OpEdit

  datatype FileOperation = FileOpUnset | FileOpCreate | FileOpDestroy | FileOpReplace

  /** A disk backing; only the flat version-2 kind carries a file name. */
  datatype Backing =
    | FlatVer2(fileName: string, datastore: Option<MoRef>, diskMode: string)
    | OtherBacking(kind: string)

  datatype VirtualDisk = VirtualDisk(key: int, backing: Backing)

  datatype Device = Disk(disk: VirtualDisk) | NonDisk(key: int, kind: string)

  datatype DeviceConfigSpec =
    DeviceConfigSpec(operation: Operation, fileOperation: FileOperation, device: Device)

  datatype FileInfo = FileInfo(vmPathName: string)

  /** The VM configuration spec. The struct is passed by value, but its device
      change list is shared with the caller, so it is an array here. */
  datatype ConfigSpec = ConfigSpec(
    name: string,
    numCpus: int,
    memoryMb: int,
    files: Option<FileInfo>,
    deviceChange: array<DeviceConfigSpec>)

  /** A disk locator of a clone's relocate spec. */
  datatype DiskLocator = DiskLocator(diskId: int, datastore: MoRef, backing: Backing)

  datatype RelocateSpec = RelocateSpec(
    datastore: Option<MoRef>,
    pool: Option<MoRef>,
    disk: array<DiskLocator>)

  datatype CloneSpec = CloneSpec(template: bool, powerOn: bool, location: RelocateSpec)

  /** A disk entry of a recommended relocate spec. */
  datatype RecommendedDisk = RecommendedDisk(diskId: int, datastore: MoRef)

  /** A recommendation action: a storage placement action, or any other kind. */
  datatype ClusterAction =
    | StoragePlacementAction(destination: MoRef, relocateDisks: seq<RecommendedDisk>)
    | OtherAction(kind: string)

  datatype ClusterRecommendation = ClusterRecommendation(key: string, action: seq<ClusterAction>)

  datatype PodDiskLocator = PodDiskLocator(diskId: int, diskBackingInfo: Backing)

  datatype VmPodConfigForPlacement = VmPodConfigForPlacement(storagePod: MoRef, disk: seq<PodDiskLocator>)

  datatype StorageDrsPodSelectionSpec =
    StorageDrsPodSelectionSpec(storagePod: MoRef, initialVmConfig: seq<VmPodConfigForPlacement>)

  datatype StoragePlacementSpec = StoragePlacementSpec(
    placementType: string,
    resourcePool: MoRef,
    configSpec: ConfigSpec,
    podSelectionSpec: StorageDrsPodSelectionSpec)

  /** The outcome of one call to the storage resource manager. */
  datatype SchedulerReply = Replied(recommendations: seq<ClusterRecommendation>) | CallFailed(cause: string)

  /** The placement type the create workflow always asks for. */
  const PlacementTypeCreate: string := "create"

  /** True of a VM-level action: a placement action with no disk entries. */
  predicate IsVmLevelAction(a: ClusterAction)
  {
    a.StoragePlacementAction? && |a.relocateDisks| == 0
  }

  predicate IsDiskWithKey(d: Device, key: int)
  {
    d.Disk? && d.disk.key == key
  }

  /** The disk ids named by the disk entries of the placement actions. */
  function RecommendedIds(actions: seq<ClusterAction>): set<int>
  {
    set a, e | a in actions && a.StoragePlacementAction? && e in a.relocateDisks :: e.diskId
  }

  /** All disk entries of the placement actions, in order. */
  function DiskEntries(actions: seq<ClusterAction>): seq<RecommendedDisk>
  {
    if actions == [] then []
    else (if actions[0].StoragePlacementAction? then actions[0].relocateDisks else []) + DiskEntries(actions[1..])
  }

  /** The datastore of the last entry for disk `key`, the one that wins. */
  function LastFor(entries: seq<RecommendedDisk>, key: int): Option<MoRef>
  {
    if entries == [] then None
    else
      var later := LastFor(entries[1..], key);
      if later.Some? then later
      else if entries[0].diskId == key then Some(entries[0].datastore)
      else None
  }

  /** The destination of the last VM-level action. */
  function LastVmDestination(actions: seq<ClusterAction>): Option<MoRef>
  {
    if actions == [] then None
    else
      var later := LastVmDestination(actions[1..]);
      if later.Some? then later
      else if IsVmLevelAction(actions[0]) then Some(actions[0].destination)
      else None
  }
}
