/** What the six objects of a cluster have to do with one another and with the spec: the services find the pods,
    the pods find each other and their volumes, and every port is the one that was asked for
    (operator/yugabytedb/controller.go, create_controller.go, update_controller.go). */
module YugabyteWiring {
  import opened Wrappers
  import opened Strings
  import opened YugabyteObjects
  import opened YugabyteStore

  // ---------- names and labels ----------

  /** The six objects, in the order in which the handlers visit them. */
  lemma SlotNames(c: Cluster)
    ensures SlotKey(c, 0) == ServiceKey("yb-masters-" + c.name) && SlotKey(c, 1) == ServiceKey("yb-tservers-" + c.name)
    ensures SlotKey(c, 2) == ServiceKey("yb-master-ui-" + c.name)
    ensures SlotKey(c, 3) == ServiceKey("yb-tserver-ui-" + c.name)
    ensures SlotKey(c, 4) == StatefulSetKey("yb-master-" + c.name)
    ensures SlotKey(c, 5) == StatefulSetKey("yb-tserver-" + c.name)
  {
    assert "yb-masters" + "-" == "yb-masters-" && "yb-tservers" + "-" == "yb-tservers-";
    assert "yb-master-ui" + "-" == "yb-master-ui-" && "yb-tserver-ui" + "-" == "yb-tserver-ui-";
    assert "yb-master" + "-" == "yb-master-" && "yb-tserver" + "-" == "yb-tserver-";
  }

  /** Every object is stored under its own name, in the cluster's namespace, and owned by the custom resource. */
  lemma ObjectsBelong(c: Cluster, j: int)
    requires 0 <= j < STEPS
    ensures match Fresh(c, j)
      case Some(Svc(s)) => SlotKey(c, j) == ServiceKey(s.name) && s.namespace == c.namespace && s.ownerUID == c.uid
      case Some(Sts(s)) => SlotKey(c, j) == StatefulSetKey(s.name) && s.namespace == c.namespace && s.ownerUID == c.uid
      case None => j == 3 && !WantsTServerUI(c)
  {
  }

  function AppName(c: Cluster, isTServer: bool): string {
    (if isTServer then "yb-tserver-" else "yb-master-") + c.name
  }

  lemma AppNameIs(c: Cluster, isTServer: bool)
    ensures AppName(c, isTServer) == WithSuffix(c, if isTServer then TSERVER else MASTER)
  {
    assert "yb-master" + "-" == "yb-master-" && "yb-tserver" + "-" == "yb-tserver-";
  }

  /** Both services of a server select exactly the label its pods carry; the StatefulSet goes by the same label,
      and by the headless service. */
  lemma ServicesSelectThePods(c: Cluster, isTServer: bool)
    ensures var s, headless, ui := CreateSts(c, isTServer), CreateHeadless(c, isTServer), CreateUI(c, isTServer);
      && s.podLabels == map["app" := AppName(c, isTServer)]
      && s.labels == s.selector == s.podLabels && s.antiAffinity == AppName(c, isTServer)
      && headless.selector == headless.labels == s.podLabels
      && ui.selector == ui.labels == s.podLabels
      && s.serviceName == headless.name && s.namespace == headless.namespace == ui.namespace
      && headless.clusterIP == "None" && headless.serviceType == ""
      && ui.clusterIP == "" && ui.serviceType == "ClusterIP"
  {
    AppNameIs(c, isTServer);
  }

  // ---------- updates ----------

  /** What an update writes into an object that is there, whoever made it: the six fields that creation would
      have given the spec as updates see it; all else stays. */
  lemma UpdatesRewriteOnly(c: Cluster, isTServer: bool, s: Service, sfs: StatefulSet)
    ensures UpdateHeadless(s, c, isTServer) == s.(ports := CreateHeadless(c, isTServer).ports)
    ensures UpdateUI(s, c, isTServer) == s.(ports := CreateUI(c, isTServer).ports)
    ensures var built := CreateSts(AsUpdated(c, c), isTServer);
      UpdateSts(sfs, c, isTServer) == sfs.(
        replicas := built.replicas,
        container := sfs.container.(
          command := built.container.command, resources := built.container.resources,
          ports := built.container.ports, mountName := built.container.mountName),
        volumeClaimTemplates := built.volumeClaimTemplates)
  {
  }

  /** An object that is there when OnAdd comes is left as it is. */
  lemma ExistingObjectsAreKept(s: Store, c: Cluster, steps: int, j: int)
    requires 0 <= steps <= STEPS && 0 <= j < STEPS && HasSlot(s, c, j)
    ensures Lookup(CreateSteps(s, c, steps), SlotKey(c, j)) == Lookup(s, SlotKey(c, j))
  {
    CreateStepsSlots(s, c, steps, j);
  }

  // ---------- ports ----------

  /** The port that a spec sets under a name: that of the last entry of the name, unless it is zero or missing. */
  ghost predicate IsSetting(network: seq<PortSpec>, name: string, default: int, port: int) {
    || (port == default && forall k | 0 <= k < |network| :: network[k].name != name)
    || exists k :: LastEntry(network, name, k) && port == if network[k].port == 0 then default else network[k].port
  }

  ghost predicate LastEntry(network: seq<PortSpec>, name: string, k: int) {
    0 <= k < |network| && network[k].name == name && forall j | k < j < |network| :: network[j].name != name
  }

  lemma {:induction false} SettingOf(network: seq<PortSpec>, name: string, default: int)
    ensures IsSetting(network, name, default, OrDefault(LastPort(network, name), default))
  {
    if network != [] {
      var init, last := network[..|network|-1], |network| - 1;
      if network[last].name == name {
        assert LastEntry(network, name, last);
      } else {
        SettingOf(init, name, default);
        assert forall k | LastEntry(init, name, k) :: LastEntry(network, name, k);
      }
    }
  }

  lemma {:induction false} LastPortIs(network: seq<PortSpec>, name: string)
    ensures LastPort(network, name) > 0 <==> exists k :: LastEntry(network, name, k) && network[k].port > 0
  {
    if network != [] {
      var init, last := network[..|network|-1], |network| - 1;
      LastPortIs(init, name);
      if network[last].name == name {
        assert LastEntry(network, name, last);
        assert forall k | LastEntry(network, name, k) :: k == last;
      } else {
        assert forall k :: LastEntry(network, name, k) <==> LastEntry(init, name, k);
      }
    }
  }

  /** After a complete update, and in a fresh cluster, the TServer UI service is there if and only if the last
      entry for its port is positive. */
  lemma TServerUIExistsIff(s: Store, c: Cluster)
    ensures Lookup(UpdateSteps(s, c, STEPS), SlotKey(c, 3)).Some? <==>
      exists k :: LastEntry(c.tserver.network, "yb-tserver-ui", k) && c.tserver.network[k].port > 0
    ensures Lookup(FreshStore(c), SlotKey(c, 3)).Some? <==>
      exists k :: LastEntry(c.tserver.network, "yb-tserver-ui", k) && c.tserver.network[k].port > 0
  {
    TServerUIFollowsLastSpec(s, c);
    FreshStoreSlots(c, 3);
    LastPortIs(c.tserver.network, "yb-tserver-ui");
  }

  /** The Masters' ports: which setting each of them comes from. */
  lemma MasterPortsFollowSpec(c: Cluster)
    ensures var p := CreateHeadless(c, false).ports;
      && |p| == 2 && p[0].name == "ui" && p[1].name == "rpc-port"
      && IsSetting(c.master.network, "yb-master-ui", 7000, p[0].port)
      && IsSetting(c.master.network, "yb-master-rpc", 7100, p[1].port)
    ensures var k := CreateSts(c, false).container.ports;
      |k| == 2 && k[0].name == "master-ui" && k[1].name == "master-rpc"
  {
    SettingOf(c.master.network, "yb-master-ui", 7000);
    SettingOf(c.master.network, "yb-master-rpc", 7100);
  }

  /** The TServers' ports; only their UI may stay unset, and is then 9000 for the containers. */
  lemma TServerPortsFollowSpec(c: Cluster)
    ensures var p := CreateHeadless(c, true).ports;
      && |p| == 5 && p[0].name == "ui" && p[1].name == "rpc-port"
      && p[2].name == "cassandra" && p[3].name == "redis" && p[4].name == "postgres"
      && (exists ui ::
            IsSetting(c.tserver.network, "yb-tserver-ui", 0, ui) && p[0].port == if ui <= 0 then 9000 else ui)
      && IsSetting(c.tserver.network, "yb-tserver-rpc", 9100, p[1].port)
      && IsSetting(c.tserver.network, "ycql", 9042, p[2].port)
      && IsSetting(c.tserver.network, "yedis", 6379, p[3].port)
      && IsSetting(c.tserver.network, "ysql", 5433, p[4].port)
  {
    SettingOf(c.tserver.network, "yb-tserver-ui", 0);
    SettingOf(c.tserver.network, "yb-tserver-rpc", 9100);
    SettingOf(c.tserver.network, "ycql", 9042);
    SettingOf(c.tserver.network, "yedis", 6379);
    SettingOf(c.tserver.network, "ysql", 5433);
    assert OrDefault(LastPort(c.tserver.network, "yb-tserver-ui"), 0) == LastPort(c.tserver.network, "yb-tserver-ui");
  }

  lemma TServerContainerPortNames(c: Cluster)
    ensures var k := CreateSts(c, true).container.ports;
      && |k| == 5 && k[0].name == "tserver-ui" && k[1].name == "tserver-rpc"
      && k[2].name == "cassandra" && k[3].name == "redis" && k[4].name == "postgres"
  {
  }

  // ---------- commands ----------

  /** The Masters bind and announce the port of their headless service, under its name, keep their data where the
      volume is mounted, and replicate over all of them. */
  lemma MasterCommandFits(c: Cluster)
    ensures var s, h := CreateSts(c, false), CreateHeadless(c, false);
      s.container.command == [
        "/home/yugabyte/bin/yb-master",
        "--fs_data_dirs=" + s.container.mountPath,
        "--rpc_bind_addresses=$(POD_IP):" + Itoa(h.ports[1].port),
        "--server_broadcast_addresses=$(POD_NAME)." + h.name + ":" + Itoa(h.ports[1].port),
        "--use_private_ip=never",
        "--master_addresses=" + MasterList(c, s.replicas),
        "--enable_ysql=true",
        "--replication_factor=" + Itoa(s.replicas),
        "--logtostderr" ] + MemoryFlag(s.container.resources)
  {
  }

  /** The TServers do the same, and serve PostgreSQL on the port of that name. */
  lemma TServerCommandFits(c: Cluster)
    ensures var s, h := CreateSts(c, true), CreateHeadless(c, true);
      s.container.command == [
        "/home/yugabyte/bin/yb-tserver",
        "--fs_data_dirs=" + s.container.mountPath,
        "--rpc_bind_addresses=$(POD_IP):" + Itoa(h.ports[1].port),
        "--server_broadcast_addresses=$(POD_NAME)." + h.name + ":" + Itoa(h.ports[1].port),
        "--pgsql_proxy_bind_address=$(POD_IP):" + Itoa(h.ports[4].port),
        "--use_private_ip=never",
        "--tserver_master_addrs=" + MasterList(c, s.replicas),
        "--enable_ysql=true",
        "--logtostderr" ] + MemoryFlag(s.container.resources)
  {
  }

  /** The i-th address is that of the Masters' i-th pod, by its name under the headless service, at the port the
      Masters bind. */
  lemma AddressesArePods(c: Cluster, replicas: int)
    ensures exists addresses ::
      && MasterList(c, replicas) == Join(addresses, ",") && |addresses| == (if replicas < 0 then 0 else replicas)
      && forall i | 0 <= i < |addresses| :: addresses[i] ==
           CreateSts(c, false).name + "-" + Itoa(i) + "." + CreateHeadless(c, false).name + "." + c.namespace
           + ".svc.cluster.local:" + Itoa(CreateHeadless(c, false).ports[1].port)
  {
    var addresses := MasterAddresses(WithSuffix(c, MASTER), WithSuffix(c, MASTERS), c.namespace, replicas,
                                     PortsOf(c.master.network).masterPorts.rpc);
    assert MasterList(c, replicas) == Join(addresses, ",");
  }

  // ---------- volumes, resources and the rest ----------

  /** The one volume that is mounted is the one that is claimed, from the server's own template. */
  lemma VolumesFit(c: Cluster, isTServer: bool)
    ensures var s, server := CreateSts(c, isTServer), if isTServer then c.tserver else c.master;
      && s.replicas == server.replicas
      && s.container.mountPath == "/mnt/data0"
      && s.volumeClaimTemplates == [VolumeClaim(s.container.mountName, server.volumeClaimTemplate.spec)]
      && s.container.mountName == server.volumeClaimTemplate.name + "-" + c.name
      && s.container.resources == GetResourceSpec(server.resource, isTServer)
  {
  }

  lemma PodsAreAnnotated(c: Cluster, isTServer: bool)
    ensures var s := CreateSts(c, isTServer);
      && s.annotations == s.podAnnotations == c.annotations
      && s.container.name == s.name && s.container.image == "yugabytedb/yugabyte:2.0.10.0-b4"
      && s.container.env == [("GET_HOSTS_FROM", "dns"), ("POD_IP", "status.podIP"), ("POD_NAME", "metadata.name")]
  {
  }

  /** A spec that names any resource is taken as it is; otherwise requests and limits are two CPUs and 2 GiB for
      a Master, 4 GiB for a TServer. */
  lemma DefaultResources(r: Resources, isTServer: bool)
    ensures r.requests != map[] || r.limits != map[] ==> GetResourceSpec(r, isTServer) == r
    ensures r.requests == map[] && r.limits == map[] ==>
      var d := GetResourceSpec(r, isTServer);
      && d.requests == d.limits && d.limits.Keys == {"cpu", "memory"}
      && AsInt64(d.limits["cpu"]) == (2, true)
      && AsInt64(d.limits["memory"]) == (if isTServer then 4 * 1024 * 1024 * 1024 else 2 * 1024 * 1024 * 1024, true)
  {
    assert r.requests != map[] ==> |r.requests| != 0;
    assert r.limits != map[] ==> |r.limits| != 0;
  }

  /** Without a memory limit there is no memory flag; with one that can be read and multiplied, the flag carries
      870/1024 of it in decimal. */
  lemma MemoryFlagFits(r: Resources)
    ensures "memory" !in r.limits ==> MemoryFlag(r) == []
    ensures "memory" in r.limits && Multiplies(r.limits["memory"]) ==>
      MemoryFlag(r) == ["--memory_limit_hard_bytes=" + Itoa(r.limits["memory"].units * 870 / 1024)]
  {
    if "memory" in r.limits && Multiplies(r.limits["memory"]) {
      MemoryLimitIsExact(r);
    }
  }

  /** A quantity that AsInt64 answers for, and that 870 times does not leave an int64. */
  predicate Multiplies(q: Quantity) {
    q.fast && 0 <= q.units && q.units * 870 <= 0x7FFF_FFFF_FFFF_FFFF
  }
}
