/** The two storage DRS entry points, for VM creation and for cloning, and
    the recommendation step they share. The vCenter check, the datastore
    cluster lookup and the scheduler call are inputs: a flag, a directory
    and a function from request to reply. */
module SdrsWorkflow {
  import opened SdrsTypes
  import opened PlacementRequest
  import opened ConfigReconcile
  import opened CloneReconcile

  /** Resolves the datastore cluster, builds the create placement request and
      asks the scheduler. A scheduler answer with no recommendation is an
      error, so a success always holds at least one recommendation. */
  function RecommendDatastoresForCreate(podId: string, pods: map<string, MoRef>, spec: ConfigSpec, pool: MoRef,
                                        scheduler: StoragePlacementSpec -> SchedulerReply)
    : (r: Result<seq<ClusterRecommendation>>)
    reads spec.deviceChange
    ensures r.Ok? ==> |r.value| > 0
    ensures podId !in pods ==> r == Err(StoragePodNotFound(podId))
    ensures podId in pods ==>
              var reply := scheduler(StoragePlacementSpecForCreate(spec, pool, pods[podId]));
              && (reply.CallFailed? ==> r == Err(RecommendRequestFailed(reply.cause)))
              && (reply.Replied? && |reply.recommendations| == 0 ==> r == Err(NoRecommendations))
              && (reply.Replied? && |reply.recommendations| > 0 ==> r == Ok(reply.recommendations))
  {
    if podId !in pods then Err(StoragePodNotFound(podId))
    else
      var reply := scheduler(StoragePlacementSpecForCreate(spec, pool, pods[podId]));
      match reply
      case CallFailed(cause) => Err(RecommendRequestFailed(cause))
      case Replied(recs) => if |recs| < 1 then Err(NoRecommendations) else Ok(recs)
  }

  /** The error the entry points report for a failed apply: the apply's error, wrapped. */
  function WrapApply(err: Option<Error>, wrap: Error -> Error): Option<Error>
  {
    if err.Some? then Some(wrap(err.value)) else None
  }

  /** The create path: recommend against `spec` and apply the first
      recommendation to `spec` itself. When the vCenter check or the
      recommendation step fails, the spec comes back untouched. */
  method SdrsTransformVirtualMachineConfigSpecForCreate(
    isVCenter: bool, podId: string, pods: map<string, MoRef>, scheduler: StoragePlacementSpec -> SchedulerReply,
    spec: ConfigSpec, pool: MoRef, dir: DatastoreDirectory)
    returns (out: ConfigSpec, err: Option<Error>)
    requires var r := RecommendDatastoresForCreate(podId, pods, spec, pool, scheduler);
             isVCenter && r.Ok? ==> FlatFor(spec.deviceChange[..], RecommendedIds(r.value[0].action))
    modifies spec.deviceChange
    ensures !isVCenter ==> out == spec && err == Some(NotVCenter) && unchanged(spec.deviceChange)
    ensures var r := old(RecommendDatastoresForCreate(podId, pods, spec, pool, scheduler));
            && (isVCenter && r.Err? ==> out == spec && err == Some(r.error) && unchanged(spec.deviceChange))
            && (isVCenter && r.Ok? ==>
                  var a := ConfigActions(ConfigState(spec, old(spec.deviceChange[..])), r.value[0].action, dir);
                  out == a.value.spec && spec.deviceChange[..] == a.value.devices && err == WrapApply(a.err, e => ApplyConfigFailed(e)))
  {
    if !isVCenter {
      return spec, Some(NotVCenter);
    }
    var recommendations := RecommendDatastoresForCreate(podId, pods, spec, pool, scheduler);
    if recommendations.Err? {
      return spec, Some(recommendations.error);
    }
    var applyErr;
    out, applyErr := ApplySdrsRecommendationsToConfigSpec(recommendations.value, spec, dir);
    err := WrapApply(applyErr, e => ApplyConfigFailed(e));
  }

  /** The clone path: recommend against the final configuration `configSpec`
      and apply the first recommendation to `cloneSpec`, correlating disks by
      position in the sorted source and configuration disk lists. When the
      vCenter check or the recommendation step fails, the clone spec comes
      back untouched. */
  method SdrsTransformVirtualMachineCloneSpec(
    isVCenter: bool, podId: string, pods: map<string, MoRef>, scheduler: StoragePlacementSpec -> SchedulerReply,
    configSpec: ConfigSpec, cloneSpec: CloneSpec, pool: MoRef,
    sortedConfigDisks: seq<VirtualDisk>, sortedSourceDisks: seq<VirtualDisk>, dir: DatastoreDirectory)
    returns (out: CloneSpec, err: Option<Error>)
    requires var r := RecommendDatastoresForCreate(podId, pods, configSpec, pool, scheduler);
             isVCenter && r.Ok? ==>
               CloneFlatFor(cloneSpec.location.disk[..], sortedConfigDisks, sortedSourceDisks, RecommendedIds(r.value[0].action))
    modifies cloneSpec.location.disk
    ensures !isVCenter ==> out == cloneSpec && err == Some(NotVCenter) && unchanged(cloneSpec.location.disk)
    ensures var r := old(RecommendDatastoresForCreate(podId, pods, configSpec, pool, scheduler));
            && (isVCenter && r.Err? ==> out == cloneSpec && err == Some(r.error) && unchanged(cloneSpec.location.disk))
            && (isVCenter && r.Ok? ==>
                  var a := CloneActions(CloneState(cloneSpec, old(cloneSpec.location.disk[..])), sortedConfigDisks,
                                        sortedSourceDisks, r.value[0].action, dir);
                  out == a.value.spec && cloneSpec.location.disk[..] == a.value.locators && err == WrapApply(a.err, e => ApplyCloneFailed(e)))
  {
    if !isVCenter {
      return cloneSpec, Some(NotVCenter);
    }
    var recommendations := RecommendDatastoresForCreate(podId, pods, configSpec, pool, scheduler);
    if recommendations.Err? {
      return cloneSpec, Some(recommendations.error);
    }
    var applyErr;
    out, applyErr := ApplySdrsRecommendationsToCloneSpec(recommendations.value, cloneSpec, sortedSourceDisks, sortedConfigDisks, dir);
    err := WrapApply(applyErr, e => ApplyCloneFailed(e));
  }
}
