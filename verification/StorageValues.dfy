/** What a storage scope means once pointers and maps are read off the heap, and what resolving a node
    and clearing "use all devices" mean on that (apis/rook.io/v1/storage.go). */
module StorageValues {
  import opened Wrappers

  type Config = map<string, string>

  datatype Device = Device(name: string, fullPath: string, config: Config)

  datatype Selection = Selection(
    useAllDevices: Option<bool>,
    deviceFilter: string,
    devicePathFilter: string,
    devices: seq<Device>,
    directories: seq<string>,
    volumeClaimTemplates: seq<string>)

  datatype NodeValue = NodeValue(name: string, selection: Selection, config: Option<Config>)

  datatype StorageValue = StorageValue(nodes: seq<NodeValue>, selection: Selection, config: Option<Config>)

  function Entries(config: Option<Config>): Config {
    if config.Some? then config.value else map[]
  }

  function UsesAll(s: Selection): bool {
    s.useAllDevices == Some(true)
  }

  ghost predicate AnyUsesAll(v: StorageValue) {
    UsesAll(v.selection) || exists k :: 0 <= k < |v.nodes| && UsesAll(v.nodes[k].selection)
  }

  // ---------- resolving ----------

  /** Node before cluster before default, with `unset` telling when a level has nothing to say. */
  function Prefer<T(==)>(node: T, cluster: T, unset: T): T {
    if node != unset then node else cluster
  }

  function Resolved(v: StorageValue, node: NodeValue): NodeValue {
    var n, c := node.selection, v.selection;
    NodeValue(
      node.name,
      Selection(
        Prefer(Prefer(n.useAllDevices, c.useAllDevices, None), Some(false), None),
        Prefer(n.deviceFilter, c.deviceFilter, ""),
        Prefer(n.devicePathFilter, c.devicePathFilter, ""),
        Prefer(n.devices, c.devices, []),
        n.directories,
        Prefer(n.volumeClaimTemplates, c.volumeClaimTemplates, [])),
      Some(Entries(v.config) + Entries(node.config)))
  }

  /** The first node of that name, if any, is the one ResolveNode works on. */
  ghost predicate IsFirstNamed(v: StorageValue, name: string, k: int) {
    0 <= k < |v.nodes| && v.nodes[k].name == name && forall j | 0 <= j < k :: v.nodes[j].name != name
  }

  ghost function ResolveNamed(v: StorageValue, name: string): (v': StorageValue)
    ensures |v'.nodes| == |v.nodes|
    ensures forall k | 0 <= k < |v.nodes| :: v'.nodes[k].name == v.nodes[k].name
  {
    v.(nodes := seq(|v.nodes|, k requires 0 <= k < |v.nodes| =>
      if IsFirstNamed(v, name, k) then Resolved(v, v.nodes[k]) else v.nodes[k]))
  }

  lemma ResolveNamedAt(v: StorageValue, name: string, k: int)
    requires IsFirstNamed(v, name, k)
    ensures ResolveNamed(v, name) == v.(nodes := v.nodes[k := Resolved(v, v.nodes[k])])
  {
    assert ResolveNamed(v, name).nodes == v.nodes[k := Resolved(v, v.nodes[k])];
  }

  /** Resolving each of the names in turn. */
  ghost function ResolveAll(v: StorageValue, names: seq<string>): StorageValue {
    if names == [] then v else ResolveNamed(ResolveAll(v, names[..|names|-1]), names[|names|-1])
  }

  function Cleared(v: StorageValue): StorageValue {
    StorageValue(
      seq(|v.nodes|, k requires 0 <= k < |v.nodes| =>
        v.nodes[k].(selection := v.nodes[k].selection.(useAllDevices := Some(false)))),
      v.selection.(useAllDevices := Some(false)),
      v.config)
  }

  // ---------- laws ----------

  lemma ResolvedIsFixed(v: StorageValue, node: NodeValue)
    ensures Resolved(v, Resolved(v, node)) == Resolved(v, node)
  {
    assert Entries(v.config) + (Entries(v.config) + Entries(node.config)) == Entries(v.config) + Entries(node.config);
  }

  lemma ResolveIsIdempotent(v: StorageValue, name: string)
    ensures ResolveNamed(ResolveNamed(v, name), name) == ResolveNamed(v, name)
  {
    var v' := ResolveNamed(v, name);
    forall k | 0 <= k < |v.nodes|
      ensures ResolveNamed(v', name).nodes[k] == v'.nodes[k]
    {
      ResolvedIsFixed(v, v.nodes[k]);
    }
    assert ResolveNamed(v', name).nodes == v'.nodes;
  }

  /** Node k after any sequence of resolutions: it depends on whether it was named, not on when. */
  ghost function FinalNode(v: StorageValue, names: seq<string>, k: nat): NodeValue
    requires k < |v.nodes|
  {
    var node := v.nodes[k];
    if node.name in names && IsFirstNamed(v, node.name, k) then Resolved(v, node) else node
  }

  lemma {:induction false} ResolveAllForm(v: StorageValue, names: seq<string>)
    ensures var v' := ResolveAll(v, names);
      && |v'.nodes| == |v.nodes| && v'.selection == v.selection && v'.config == v.config
      && forall k | 0 <= k < |v.nodes| :: v'.nodes[k] == FinalNode(v, names, k)
  {
    if names != [] {
      var init, last := names[..|names|-1], names[|names|-1];
      var u := ResolveAll(v, init);
      ResolveAllForm(v, init);
      assert forall k | 0 <= k < |v.nodes| :: u.nodes[k].name == FinalNode(v, init, k).name == v.nodes[k].name;
      forall k | 0 <= k < |v.nodes|
        ensures ResolveNamed(u, last).nodes[k] == FinalNode(v, names, k)
      {
        assert v.nodes[k].name in names <==> v.nodes[k].name in init || v.nodes[k].name == last;
        ResolvedIsFixed(v, v.nodes[k]);
        assert IsFirstNamed(u, last, k) <==> IsFirstNamed(v, last, k);
        assert Resolved(u, u.nodes[k]) == Resolved(v, FinalNode(v, init, k));
      }
    }
  }

  /** A level's setting if it has one, else what the next level gives. */
  ghost predicate FirstSet<T>(r: T, node: T, cluster: T, default: T, unset: T) {
    && (node != unset ==> r == node)
    && (node == unset && cluster != unset ==> r == cluster)
    && (node == unset && cluster == unset ==> r == default)
  }

  /** After any sequence of resolutions that names a node, each of its settings is its own, else the cluster's,
      else the default, key by key in the configuration. Only directories are never inherited. */
  lemma Precedence(v: StorageValue, names: seq<string>, k: nat, key: string)
    requires k < |v.nodes| && v.nodes[k].name in names && IsFirstNamed(v, v.nodes[k].name, k)
    ensures |ResolveAll(v, names).nodes| == |v.nodes|
    ensures var node, r := v.nodes[k], ResolveAll(v, names).nodes[k];
      var n, c, s := node.selection, v.selection, r.selection;
      && r.name == node.name
      && FirstSet(s.useAllDevices, n.useAllDevices, c.useAllDevices, Some(false), None)
      && FirstSet(s.deviceFilter, n.deviceFilter, c.deviceFilter, "", "")
      && FirstSet(s.devicePathFilter, n.devicePathFilter, c.devicePathFilter, "", "")
      && FirstSet(s.devices, n.devices, c.devices, [], [])
      && FirstSet(s.volumeClaimTemplates, n.volumeClaimTemplates, c.volumeClaimTemplates, [], [])
      && s.directories == n.directories
      && r.config.Some? && FirstSet(At(r.config, key), At(node.config, key), At(v.config, key), None, None)
  {
    ResolveAllForm(v, names);
  }

  /** The entry of a configuration for a key, if any. */
  function At(config: Option<Config>, key: string): Option<string> {
    if key in Entries(config) then Some(Entries(config)[key]) else None
  }

  /** Resolving the same nodes in two orders, with any repetitions, gives the same storage. */
  lemma ResolveOrderIrrelevant(v: StorageValue, names1: seq<string>, names2: seq<string>)
    requires forall name :: name in names1 <==> name in names2
    ensures ResolveAll(v, names1) == ResolveAll(v, names2)
  {
    ResolveAllForm(v, names1);
    ResolveAllForm(v, names2);
    assert ResolveAll(v, names1).nodes == ResolveAll(v, names2).nodes;
  }

  lemma {:induction false} ResolveKeepsAnyUsesAll(v: StorageValue, names: seq<string>)
    ensures AnyUsesAll(ResolveAll(v, names)) <==> AnyUsesAll(v)
  {
    ResolveAllForm(v, names);
    var v' := ResolveAll(v, names);
    if k :| 0 <= k < |v.nodes| && UsesAll(v.nodes[k].selection) {
      assert UsesAll(v'.nodes[k].selection);
    }
    if k :| 0 <= k < |v.nodes| && UsesAll(v'.nodes[k].selection) {
      assert UsesAll(v.nodes[k].selection) || UsesAll(v.selection);
    }
  }

  /** Once cleared, no later resolution brings "use all devices" back. */
  lemma {:induction false} ClearedStaysCleared(v: StorageValue, names: seq<string>)
    ensures !AnyUsesAll(ResolveAll(Cleared(v), names))
  {
    ResolveKeepsAnyUsesAll(Cleared(v), names);
  }
}
