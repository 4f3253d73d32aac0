/** The parameter set handed to the rules template: one value per key, keys
    named as the template sees them. */
module Params {
  import opened Results

  /** An item of a list-valued parameter: a string (a name, a path or a
      "min:max" range), a `{min,max}` range object, or the reserved
      "field not set on the workload" sentinel, which is distinct from every
      string. */
  datatype Entry = Text(text: string) | Bounds(min: string, max: string) | NoValue

  datatype Value = Str(str: string) | Flag(flag: bool) | List(entries: seq<Entry>)

  datatype Shape = StrShape | FlagShape | ListShape

  datatype Key =
    | PolicyName
    | ImageList
    | AllowPrivileged
    | AllowHostPid
    | AllowHostIpc
    | AllowHostNetwork
    | HostNetworkPorts
    | AllowedVolumeTypes
    | AllowedFlexvolumeDrivers
    | AllowedHostPaths
    | MustRunFsGroups
    | MayRunFsGroups
    | MustRunAsUsers
    | MustRunAsUsersObjs
    | MustRunAsNonRoot
    | MustRunAsGroups
    | MustRunAsGroupsObjs
    | MayRunAsGroups
    | ReadOnlyRootFilesystem
    | MustRunSupplementalGroups
    | MayRunSupplementalGroups
    | AllowPrivilegeEscalation
    | AllowedCapabilities
    | AllowedProcMountTypes

  /** Every key, in the order the defaults table lists them. */
  const AllKeys: seq<Key> := [
    PolicyName, ImageList, AllowPrivileged, AllowHostPid, AllowHostIpc,
    AllowHostNetwork, HostNetworkPorts, AllowedVolumeTypes,
    AllowedFlexvolumeDrivers, AllowedHostPaths, MustRunFsGroups,
    MayRunFsGroups, MustRunAsUsers, MustRunAsUsersObjs, MustRunAsNonRoot,
    MustRunAsGroups, MustRunAsGroupsObjs, MayRunAsGroups,
    ReadOnlyRootFilesystem, MustRunSupplementalGroups,
    MayRunSupplementalGroups, AllowPrivilegeEscalation, AllowedCapabilities,
    AllowedProcMountTypes
  ]

  /** The name under which the template sees a key. */
  function Name(k: Key): string {
    match k
    case PolicyName => "policy_name"
    case ImageList => "image_list"
    case AllowPrivileged => "allow_privileged"
    case AllowHostPid => "allow_host_pid"
    case AllowHostIpc => "allow_host_ipc"
    case AllowHostNetwork => "allow_host_network"
    case HostNetworkPorts => "host_network_ports"
    case AllowedVolumeTypes => "allowed_volume_types"
    case AllowedFlexvolumeDrivers => "allowed_flexvolume_drivers"
    case AllowedHostPaths => "allowed_host_paths"
    case MustRunFsGroups => "must_run_fs_groups"
    case MayRunFsGroups => "may_run_fs_groups"
    case MustRunAsUsers => "must_run_as_users"
    case MustRunAsUsersObjs => "must_run_as_users_objs"
    case MustRunAsNonRoot => "must_run_as_non_root"
    case MustRunAsGroups => "must_run_as_groups"
    case MustRunAsGroupsObjs => "must_run_as_groups_objs"
    case MayRunAsGroups => "may_run_as_groups"
    case ReadOnlyRootFilesystem => "read_only_root_filesystem"
    case MustRunSupplementalGroups => "must_run_supplemental_groups"
    case MayRunSupplementalGroups => "may_run_supplemental_groups"
    case AllowPrivilegeEscalation => "allow_privilege_escalation"
    case AllowedCapabilities => "allowed_capabilities"
    case AllowedProcMountTypes => "allowed_proc_mount_types"
  }

  /** Position of a key in `AllKeys`: every key is listed. */
  function Index(k: Key): (i: nat)
    ensures i < |AllKeys| && AllKeys[i] == k
  {
    match k
    case PolicyName => 0
    case ImageList => 1
    case AllowPrivileged => 2
    case AllowHostPid => 3
    case AllowHostIpc => 4
    case AllowHostNetwork => 5
    case HostNetworkPorts => 6
    case AllowedVolumeTypes => 7
    case AllowedFlexvolumeDrivers => 8
    case AllowedHostPaths => 9
    case MustRunFsGroups => 10
    case MayRunFsGroups => 11
    case MustRunAsUsers => 12
    case MustRunAsUsersObjs => 13
    case MustRunAsNonRoot => 14
    case MustRunAsGroups => 15
    case MustRunAsGroupsObjs => 16
    case MayRunAsGroups => 17
    case ReadOnlyRootFilesystem => 18
    case MustRunSupplementalGroups => 19
    case MayRunSupplementalGroups => 20
    case AllowPrivilegeEscalation => 21
    case AllowedCapabilities => 22
    case AllowedProcMountTypes => 23
  }

  /** There are exactly 24 keys, each listed once. */
  lemma KeyCount()
    ensures |AllKeys| == 24
    ensures forall k: Key :: k in AllKeys
    ensures forall i, j :: 0 <= i < j < |AllKeys| ==> AllKeys[i] != AllKeys[j]
  {
    forall k: Key
      ensures k in AllKeys
    {
      assert AllKeys[Index(k)] == k;
    }
  }

  /** No two keys share a template name. */
  lemma NamesDistinct(k1: Key, k2: Key)
    requires k1 != k2
    ensures Name(k1) != Name(k2)
  {
  }

  /** The first key among `ks` named `name`. */
  function FindName(ks: seq<Key>, name: string): (r: Option<Key>)
    ensures r.Some? ==> r.value in ks && Name(r.value) == name
    ensures r.None? ==> forall i :: 0 <= i < |ks| ==> Name(ks[i]) != name
  {
    if ks == [] then None
    else if Name(ks[0]) == name then Some(ks[0])
    else FindName(ks[1..], name)
  }

  lemma NotListedMeansUnnamed(name: string)
    requires forall i :: 0 <= i < |AllKeys| ==> Name(AllKeys[i]) != name
    ensures forall k: Key :: Name(k) != name
  {
    forall k: Key
      ensures Name(k) != name
    {
      assert AllKeys[Index(k)] == k;
    }
  }

  /** Resolves a template variable name to its key. */
  function KeyOf(name: string): (r: Option<Key>)
    ensures r.Some? ==> Name(r.value) == name
    ensures r.None? ==> forall k: Key :: Name(k) != name
  {
    var r := FindName(AllKeys, name);
    assert r.None? ==> forall k: Key :: Name(k) != name by {
      if r.None? { NotListedMeansUnnamed(name); }
    }
    r
  }

  /** A key's name resolves back to that key. */
  lemma NameRoundTrip(k: Key)
    ensures KeyOf(Name(k)) == Some(k)
  {
    var r := KeyOf(Name(k));
    assert r.None? ==> Name(k) != Name(k);
    if r.value != k {
      NamesDistinct(r.value, k);
    }
  }

  function ShapeOf(k: Key): Shape {
    match k
    case PolicyName => StrShape
    case AllowPrivileged | AllowHostPid | AllowHostIpc | AllowHostNetwork
       | MustRunAsNonRoot | ReadOnlyRootFilesystem | AllowPrivilegeEscalation => FlagShape
    case _ => ListShape
  }

  predicate HasShape(v: Value, s: Shape) {
    match s
    case StrShape => v.Str?
    case FlagShape => v.Flag?
    case ListShape => v.List?
  }

  type Params = map<Key, Value>

  /** Every key is present. */
  predicate Total(p: Params) {
    forall k: Key :: k in p
  }

  /** Every key is present and holds a value of its shape. */
  predicate Complete(p: Params) {
    && Total(p)
    && (forall k :: k in p ==> HasShape(p[k], ShapeOf(k)))
  }

  /** Overwriting a key with a value of its shape keeps a parameter set
      complete. */
  lemma UpdateKeepsComplete(p: Params, k: Key, v: Value)
    requires Complete(p) && HasShape(v, ShapeOf(k))
    ensures Complete(p[k := v])
  {
  }

  /** The most permissive value of each key: every boolean allows, every
      list is empty, except that nothing demands a non-root user or a
      read-only root filesystem. */
  function DefaultValue(k: Key): (v: Value)
    ensures HasShape(v, ShapeOf(k))
  {
    match k
    case PolicyName => Str("unknown")
    case AllowPrivileged => Flag(true)
    case AllowHostPid => Flag(true)
    case AllowHostIpc => Flag(true)
    case AllowHostNetwork => Flag(true)
    case MustRunAsNonRoot => Flag(false)
    case ReadOnlyRootFilesystem => Flag(false)
    case AllowPrivilegeEscalation => Flag(true)
    case _ => List([])
  }

  /** The parameter set every parse starts from. */
  function Defaults(): (p: Params)
    ensures Complete(p)
    ensures p[PolicyName] == Str("unknown")
    ensures forall k :: ShapeOf(k) == ListShape ==> p[k] == List([])
    ensures forall k :: ShapeOf(k) == FlagShape ==>
              p[k] == Flag(k != MustRunAsNonRoot && k != ReadOnlyRootFilesystem)
  {
    KeyCount();
    map k | k in AllKeys :: DefaultValue(k)
  }

  /** A template variable's value, looked up by name. */
  function Lookup(p: Params, name: string): Option<Value> {
    match KeyOf(name)
    case Some(k) => if k in p then Some(p[k]) else None
    case None => None
  }

  /** A complete parameter set answers exactly the 24 key names. */
  lemma CompleteAnswersEveryName(p: Params, name: string)
    requires Complete(p)
    ensures Lookup(p, name).Some? <==> exists k: Key :: Name(k) == name
    ensures Lookup(p, name).Some? ==> HasShape(Lookup(p, name).value, ShapeOf(KeyOf(name).value))
  {
    if Lookup(p, name).None? {
      assert KeyOf(name).None?;
    }
  }
}
