/** The VMX placement step of VM creation: pointing the configuration
    file of a new VM at a datastore. */
module VmWorkflow {
  import opened SdrsTypes

  /** The datastore path form `[name]` of a datastore's root. */
  function VmxPath(name: string): (p: string)
    ensures |p| == |name| + 2
    ensures p[0] == '[' && p[|p| - 1] == ']'
    ensures p[1..|p| - 1] == name
  {
    "[" + name + "]"
  }

  /** Reads the datastore name back out of a `[name]` path, the inverse of VmxPath. */
  function ParseVmxPath(p: string): (r: Option<string>)
    ensures r.Some? <==> |p| >= 2 && p[0] == '[' && p[|p| - 1] == ']'
    ensures r.Some? ==> VmxPath(r.value) == p
  {
    if |p| >= 2 && p[0] == '[' && p[|p| - 1] == ']' then
      assert p == [p[0]] + p[1..|p| - 1] + [p[|p| - 1]];
      Some(p[1..|p| - 1])
    else None
  }

  lemma VmxPathRoundTrip(name: string)
    ensures ParseVmxPath(VmxPath(name)) == Some(name)
  {
  }

  lemma VmxPathInjective(a: string, b: string)
    ensures VmxPath(a) == VmxPath(b) ==> a == b
  {
    if VmxPath(a) == VmxPath(b) {
      VmxPathRoundTrip(a);
      VmxPathRoundTrip(b);
    }
  }

  /** Resolves datastore `id` and, on success, replaces the spec's file info
      with a fresh one whose VMX path is the datastore's `[name]`. On a failed
      lookup the spec comes back unchanged together with the error. */
  function PopulateVmxDatastore(spec: ConfigSpec, id: string, dir: DatastoreDirectory): (r: Returned<ConfigSpec>)
    ensures r.err.None? <==> id in dir
    ensures r.err.Some? ==> r.err == Some(VmxDatastoreNotFound(id)) && r.value == spec
    ensures r.err.None? ==> r.value.files == Some(FileInfo(VmxPath(dir[id].name)))
    ensures r.value.name == spec.name && r.value.numCpus == spec.numCpus
    ensures r.value.memoryMb == spec.memoryMb && r.value.deviceChange == spec.deviceChange
  {
    if id !in dir then Returned(spec, Some(VmxDatastoreNotFound(id)))
    else Returned(spec.(files := Some(FileInfo(VmxPath(dir[id].name)))), None)
  }

  /** The only field PopulateVmxDatastore may change is `files`. */
  lemma PopulateVmxDatastoreOnlyFiles(spec: ConfigSpec, id: string, dir: DatastoreDirectory)
    ensures PopulateVmxDatastore(spec, id, dir).value.(files := spec.files) == spec
  {
  }

  /** Populating twice with the same id gives the same VMX path as once. */
  lemma PopulateVmxDatastoreIdempotent(spec: ConfigSpec, id: string, dir: DatastoreDirectory)
    ensures var once := PopulateVmxDatastore(spec, id, dir);
            PopulateVmxDatastore(once.value, id, dir) == once
  {
  }
}
