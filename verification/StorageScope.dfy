/** The storage scope as it lives on the heap: nodes updated in place, boolean cells that may be shared
    by any number of selections, and configuration maps filled in place (apis/rook.io/v1/storage.go). */
module StorageScope {
  import opened Wrappers
  import opened StorageValues

  /** The target of a `*bool`. */
  class BoolCell {
    var value: bool

    constructor (value: bool)
      ensures this.value == value
    {
      this.value := value;
    }
  }

  class ConfigMap {
    var entries: Config

    constructor ()
      ensures entries == map[]
    {
      entries := map[];
    }
  }

  ghost function CellValue(cell: BoolCell?): Option<bool>
    reads cell
  {
    if cell == null then None else Some(cell.value)
  }

  ghost function MapValue(m: ConfigMap?): Option<Config>
    reads m
  {
    if m == null then None else Some(m.entries)
  }

  /** One element of the scope's node slice. */
  class Node {
    var name: string
    var useAllDevices: BoolCell?
    var deviceFilter: string
    var devicePathFilter: string
    var devices: seq<Device>
    var directories: seq<string>
    var volumeClaimTemplates: seq<string>
    var config: ConfigMap?

    ghost function Value(): NodeValue
      reads this, useAllDevices, config
    {
      NodeValue(
        name,
        Selection(CellValue(useAllDevices), deviceFilter, devicePathFilter, devices, directories, volumeClaimTemplates),
        MapValue(config))
    }

    method GetUseAllDevices() returns (r: bool)
      ensures r == UsesAll(Value().selection)
    {
      r := useAllDevices != null && useAllDevices.value;
    }
  }

  method ResolveString(setting: string, parent: string, defaultVal: string) returns (r: string)
    ensures r == Prefer(Prefer(setting, parent, ""), defaultVal, "")
  {
    r := setting;
    if r == "" {
      if parent != "" {
        r := parent;
      } else {
        r := defaultVal;
      }
    }
  }

  class StorageScopeSpec {
    var nodes: seq<Node>
    var useAllDevices: BoolCell?
    var deviceFilter: string
    var devicePathFilter: string
    var devices: seq<Device>
    var directories: seq<string>
    var volumeClaimTemplates: seq<string>
    var config: ConfigMap?

    /** No two nodes are one object, and no configuration map is shared. Cells may be. */
    ghost predicate Unaliased()
      reads this, nodes
    {
      && (forall i, j | 0 <= i < j < |nodes| :: nodes[i] != nodes[j])
      && (forall i, j | 0 <= i < j < |nodes| :: nodes[i].config == null || nodes[i].config != nodes[j].config)
      && (forall i | 0 <= i < |nodes| :: nodes[i].config == null || nodes[i].config != config)
    }

    ghost function Cells(): set<object>
      reads this, nodes
    {
      (set n | n in nodes && n.useAllDevices != null :: n.useAllDevices)
      + if useAllDevices == null then {} else {useAllDevices}
    }

    ghost function Maps(): set<object>
      reads this, nodes
    {
      (set n | n in nodes && n.config != null :: n.config) + if config == null then {} else {config}
    }

    ghost function Value(): StorageValue
      reads this, nodes, Cells(), Maps()
    {
      StorageValue(
        seq(|nodes|, k requires 0 <= k < |nodes| reads this, nodes, Cells(), Maps() => nodes[k].Value()),
        Selection(CellValue(useAllDevices), deviceFilter, devicePathFilter, devices, directories, volumeClaimTemplates),
        MapValue(config))
    }

    method AnyUseAllDevices() returns (r: bool)
      ensures r <==> AnyUsesAll(Value())
      ensures r <==>
        || (useAllDevices != null && useAllDevices.value)
        || exists n :: n in nodes && n.useAllDevices != null && n.useAllDevices.value
    {
      if useAllDevices != null && useAllDevices.value {
        return true;
      }
      for k := 0 to |nodes|
        invariant !UsesAll(Value().selection)
        invariant forall j | 0 <= j < k :: !UsesAll(nodes[j].Value().selection)
      {
        var b := nodes[k].GetUseAllDevices();
        if b {
          assert UsesAll(Value().nodes[k].selection);
          return true;
        }
      }
      return false;
    }

    /** One fresh cell, shared by the scope and all its nodes; no existing cell is written. */
    method ClearUseAllDevices()
      modifies this`useAllDevices, nodes`useAllDevices
      ensures old(Unaliased()) ==> Unaliased()
      ensures Value() == Cleared(old(Value()))
      ensures nodes == old(nodes)
      ensures useAllDevices != null && fresh(useAllDevices) && forall n | n in nodes :: n.useAllDevices == useAllDevices
    {
      var clear := new BoolCell(false);
      useAllDevices := clear;
      for i := 0 to |nodes|
        invariant nodes == old(nodes) && useAllDevices == clear && !clear.value
        invariant forall k | 0 <= k < i :: nodes[k].useAllDevices == clear
      {
        nodes[i].useAllDevices := clear;
      }
      assert Value().nodes == Cleared(old(Value())).nodes;
    }

    method Find(nodeName: string) returns (node: Node?, ghost k: int)
      ensures node == null ==> forall j | 0 <= j < |nodes| :: nodes[j].name != nodeName
      ensures node != null ==> IsFirstNamed(Value(), nodeName, k) && node == nodes[k]
    {
      for i := 0 to |nodes|
        invariant forall j | 0 <= j < i :: nodes[j].name != nodeName
      {
        if nodes[i].name == nodeName {
          return nodes[i], i;
        }
      }
      return null, -1;
    }

    method ResolveNodeSelection(node: Node)
      modifies node
      ensures node.name == old(node.name) && node.config == old(node.config)
        && node.directories == old(node.directories)
      ensures node.useAllDevices != null
        && (old(node.useAllDevices) != null ==> node.useAllDevices == old(node.useAllDevices))
      ensures CellValue(node.useAllDevices) ==
        Prefer(Prefer(old(CellValue(node.useAllDevices)), CellValue(useAllDevices), None), Some(false), None)
      ensures node.deviceFilter == Prefer(old(node.deviceFilter), deviceFilter, "")
      ensures node.devicePathFilter == Prefer(old(node.devicePathFilter), devicePathFilter, "")
      ensures node.devices == Prefer(old(node.devices), devices, [])
      ensures node.volumeClaimTemplates == Prefer(old(node.volumeClaimTemplates), volumeClaimTemplates, [])
    {
      if node.useAllDevices == null {
        if useAllDevices != null {
          node.useAllDevices := useAllDevices;
        } else {
          node.useAllDevices := new BoolCell(false);
        }
      }
      node.deviceFilter := ResolveString(node.deviceFilter, deviceFilter, "");
      node.devicePathFilter := ResolveString(node.devicePathFilter, devicePathFilter, "");
      if |node.devices| == 0 {
        node.devices := devices;
      }
      if |node.volumeClaimTemplates| == 0 {
        node.volumeClaimTemplates := volumeClaimTemplates;
      }
    }

    /** Go visits the cluster's keys in no particular order; the outcome does not depend on it. */
    method ResolveNodeConfig(node: Node)
      requires node.config != null
      modifies node.config
      ensures node.config.entries == old(Entries(MapValue(config))) + old(node.config.entries)
    {
      if config == null {
        return;
      }
      ghost var scope, own := config.entries, node.config.entries;
      var keys := config.entries.Keys;
      while keys != {}
        invariant keys <= scope.Keys
        invariant config.entries == scope || config == node.config
        invariant node.config.entries == own + map key | key in scope && key !in keys && key !in own :: scope[key]
      {
        var scopeKey :| scopeKey in keys;
        if scopeKey !in node.config.entries {
          node.config.entries := node.config.entries[scopeKey := config.entries[scopeKey]];
        }
        keys := keys - {scopeKey};
      }
    }

    /** The steps of ResolveNode once the node is found. */
    method ResolveFound(node: Node)
      modifies node, node.config
      ensures node.config != null
        && (if old(node.config) == null then fresh(node.config) else node.config == old(node.config))
      ensures node.Value() == Resolved(old(Value()), old(node.Value()))
    {
      ghost var scope, before := Value(), node.Value();
      if node.config == null {
        node.config := new ConfigMap();
      }
      ResolveNodeSelection(node);
      assert MapValue(config) == old(MapValue(config));
      ResolveNodeConfig(node);
    }

    /** Resolving node k changes no other node and no other map. */
    method ResolveAt(node: Node, ghost k: int)
      requires Unaliased() && 0 <= k < |nodes| && node == nodes[k]
      modifies node, node.config
      ensures Unaliased()
      ensures node.Value() == Resolved(old(Value()), old(node.Value()))
      ensures forall j | 0 <= j < |nodes| && j != k :: nodes[j] != node && nodes[j].Value() == old(nodes[j].Value())
      ensures forall n | n in nodes && n != node :: unchanged(n) && (n.config != null ==> unchanged(n.config))
      ensures config != null ==> unchanged(config)
      ensures old(node.config) == null ==> fresh(node.config)
    {
      ResolveFound(node);
    }

    /** Resolves the first node of that name in place and changes nothing else: no other node, no other
        configuration map, no boolean cell, and not the scope. */
    method ResolveNode(nodeName: string) returns (node: Node?, ghost k: int)
      requires Unaliased()
      modifies nodes, (set n | n in nodes && n.config != null :: n.config)
      ensures Unaliased() && nodes == old(nodes)
      ensures node == null <==> forall j | 0 <= j < |nodes| :: old(nodes[j].name) != nodeName
      ensures node != null ==> IsFirstNamed(old(Value()), nodeName, k) && node == nodes[k]
      ensures Value() == ResolveNamed(old(Value()), nodeName)
      ensures forall n | n in nodes && n != node :: unchanged(n) && (n.config != null ==> unchanged(n.config))
      ensures config != null ==> unchanged(config)
    {
      node, k := Find(nodeName);
      ghost var before := Value();
      if node == null {
        assert before.nodes == ResolveNamed(before, nodeName).nodes;
        return;
      }
      assert before == old(Value()) && IsFirstNamed(before, nodeName, k);
      ResolveNamedAt(before, nodeName, k);
      ResolveAt(node, k);
      assert Value().selection == before.selection && Value().config == before.config;
      assert Value().nodes == before.nodes[k := Resolved(before, before.nodes[k])];
    }
  }
}
