/** The specs and Kubernetes objects of a YugabyteDB cluster, and the builders that turn one into the
    other (operator/yugabytedb/controller.go and the value-building half of create_controller.go). */
module YugabyteObjects {
  import opened MachineInts
  import opened Wrappers
  import opened Strings

  type Labels = map<string, string>

  /** A resource quantity: what was written, its value in whole units, and whether it is held as an int64, as
      "2Gi" is and "1.5Gi" is not. */
  datatype Quantity = Quantity(text: string, units: int, fast: bool)

  /** AsInt64 answers 0 for a quantity that is not held as an int64, and says so in a second result. */
  function AsInt64(q: Quantity): (int, bool) {
    if q.fast then (q.units, true) else (0, false)
  }

  type ResourceList = map<string, Quantity>

  datatype Resources = Resources(requests: ResourceList, limits: ResourceList)

  datatype PortSpec = PortSpec(name: string, port: int)

  /** A volume claim template: only its name is ever touched. */
  datatype VolumeClaim = VolumeClaim(name: string, spec: string)

  datatype ServerSpec = ServerSpec(
    replicas: int, resource: Resources, network: seq<PortSpec>, volumeClaimTemplate: VolumeClaim)

  datatype Cluster = Cluster(
    name: string, namespace: string, uid: string, annotations: Labels, master: ServerSpec, tserver: ServerSpec)

  datatype ServerPorts = ServerPorts(ui: int, rpc: int, cassandra: int, redis: int, postgres: int)

  datatype ClusterPorts = ClusterPorts(masterPorts: ServerPorts, tserverPorts: ServerPorts)

  datatype ServicePort = ServicePort(name: string, port: int, targetPort: int)

  datatype Service = Service(
    name: string, namespace: string, labels: Labels, ownerUID: string,
    selector: Labels, clusterIP: string, serviceType: string, ports: seq<ServicePort>)

  datatype ContainerPort = ContainerPort(name: string, port: int)

  datatype Container = Container(
    name: string, image: string, env: seq<(string, string)>, resources: Resources,
    command: seq<string>, ports: seq<ContainerPort>, mountName: string, mountPath: string)

  datatype StatefulSet = StatefulSet(
    name: string, namespace: string, labels: Labels, annotations: Labels, ownerUID: string,
    serviceName: string, replicas: int, selector: Labels,
    podLabels: Labels, podAnnotations: Labels, antiAffinity: string, container: Container,
    volumeClaimTemplates: seq<VolumeClaim>)

  const APP_ATTR := "app"
  const MASTER := "yb-master"
  const MASTERS := "yb-masters"
  const TSERVER := "yb-tserver"
  const TSERVERS := "yb-tservers"
  const MASTER_UI := "yb-master-ui"
  const TSERVER_UI := "yb-tserver-ui"
  const TSERVER_UI_PORT_DEFAULT := 9000
  const VOLUME_MOUNT_PATH := "/mnt/data0"
  const IMAGE := "yugabytedb/yugabyte:2.0.10.0-b4"
  const ENV := [("GET_HOSTS_FROM", "dns"), ("POD_IP", "status.podIP"), ("POD_NAME", "metadata.name")]

  function WithSuffix(c: Cluster, s: string): string {
    s + "-" + c.name
  }

  function AppLabels(name: string): Labels {
    map[APP_ATTR := name]
  }

  // ---------- ports ----------

  const PORT_NAMES := {"yb-master-ui", "yb-master-rpc", "yb-tserver-ui", "yb-tserver-rpc", "ycql", "yedis", "ysql"}

  ghost predicate KnownPortNames(network: seq<PortSpec>) {
    forall k | 0 <= k < |network| :: network[k].name in PORT_NAMES
  }

  /** The port of the last entry of that name, 0 without one. */
  function LastPort(network: seq<PortSpec>, name: string): int {
    if network == [] then 0
    else if network[|network|-1].name == name then network[|network|-1].port
    else LastPort(network[..|network|-1], name)
  }

  function OrDefault(port: int, default: int): int {
    if port == 0 then default else port
  }

  /** Every port has a default except the TServer UI port. */
  function PortsOf(network: seq<PortSpec>): ClusterPorts {
    ClusterPorts(
      ServerPorts(
        OrDefault(LastPort(network, "yb-master-ui"), 7000),
        OrDefault(LastPort(network, "yb-master-rpc"), 7100), 0, 0, 0),
      ServerPorts(
        LastPort(network, "yb-tserver-ui"),
        OrDefault(LastPort(network, "yb-tserver-rpc"), 9100),
        OrDefault(LastPort(network, "ycql"), 9042),
        OrDefault(LastPort(network, "yedis"), 6379),
        OrDefault(LastPort(network, "ysql"), 5433)))
  }

  /** The loop over the entries: an error exactly when some name is unknown. */
  method GetPortsFromSpec(network: seq<PortSpec>) returns (r: Result<ClusterPorts>)
    ensures r == if KnownPortNames(network) then Ok(PortsOf(network)) else Err
    ensures var known := {"yb-master-ui", "yb-master-rpc", "yb-tserver-ui", "yb-tserver-rpc", "ycql", "yedis", "ysql"};
      r.Ok? <==> forall k | 0 <= k < |network| :: network[k].name in known
  {
    var m, t := ServerPorts(0, 0, 0, 0, 0), ServerPorts(0, 0, 0, 0, 0);
    for k := 0 to |network|
      invariant KnownPortNames(network[..k])
      invariant m ==
        ServerPorts(LastPort(network[..k], "yb-master-ui"), LastPort(network[..k], "yb-master-rpc"), 0, 0, 0)
      invariant t.ui == LastPort(network[..k], "yb-tserver-ui") && t.rpc == LastPort(network[..k], "yb-tserver-rpc")
      invariant t.cassandra == LastPort(network[..k], "ycql") && t.redis == LastPort(network[..k], "yedis")
      invariant t.postgres == LastPort(network[..k], "ysql")
    {
      var p := network[k];
      assert network[..k+1][..k] == network[..k];
      match p.name
      case "yb-master-ui" => m := m.(ui := p.port);
      case "yb-master-rpc" => m := m.(rpc := p.port);
      case "yb-tserver-ui" => t := t.(ui := p.port);
      case "yb-tserver-rpc" => t := t.(rpc := p.port);
      case "ycql" => t := t.(cassandra := p.port);
      case "yedis" => t := t.(redis := p.port);
      case "ysql" => t := t.(postgres := p.port);
      case _ => return Err;
    }
    assert network[..|network|] == network;
    if m.ui == 0 { m := m.(ui := 7000); }
    if m.rpc == 0 { m := m.(rpc := 7100); }
    if t.rpc == 0 { t := t.(rpc := 9100); }
    if t.cassandra == 0 { t := t.(cassandra := 9042); }
    if t.redis == 0 { t := t.(redis := 6379); }
    if t.postgres == 0 { t := t.(postgres := 5433); }
    return Ok(ClusterPorts(m, t));
  }

  ghost predicate ValidSpec(c: Cluster) {
    && c.master.replicas >= 1 && c.tserver.replicas >= 1
    && KnownPortNames(c.master.network) && KnownPortNames(c.tserver.network)
  }

  /** Resource limits are looked at too, but the verdict on them is dropped. */
  method ValidateClusterSpec(c: Cluster) returns (ok: bool)
    ensures ok <==> ValidSpec(c)
  {
    if c.master.replicas < 1 || c.tserver.replicas < 1 {
      return false;
    }
    var m := GetPortsFromSpec(c.master.network);
    if m.Err? {
      return false;
    }
    var t := GetPortsFromSpec(c.tserver.network);
    return t.Ok?;
  }

  function SamePort(name: string, port: int): ServicePort {
    ServicePort(name, port, port)
  }

  function TServerUIOrDefault(ports: ClusterPorts): int {
    if ports.tserverPorts.ui <= 0 then TSERVER_UI_PORT_DEFAULT else ports.tserverPorts.ui
  }

  function CreateServicePorts(c: Cluster, isTServer: bool): seq<ServicePort> {
    if !isTServer then
      var p := PortsOf(c.master.network).masterPorts;
      [SamePort("ui", p.ui), SamePort("rpc-port", p.rpc)]
    else
      var ports := PortsOf(c.tserver.network);
      var p := ports.tserverPorts;
      [SamePort("ui", TServerUIOrDefault(ports)), SamePort("rpc-port", p.rpc),
       SamePort("cassandra", p.cassandra), SamePort("redis", p.redis), SamePort("postgres", p.postgres)]
  }

  function CreateUIServicePorts(ports: ClusterPorts, isTServer: bool): seq<ServicePort> {
    if !isTServer then [SamePort("ui", ports.masterPorts.ui)]
    else if ports.tserverPorts.ui > 0 then [SamePort("ui", ports.tserverPorts.ui)]
    else []
  }

  function MasterContainerPorts(ports: ClusterPorts): seq<ContainerPort> {
    [ContainerPort("master-ui", ports.masterPorts.ui), ContainerPort("master-rpc", ports.masterPorts.rpc)]
  }

  function TServerContainerPorts(ports: ClusterPorts): seq<ContainerPort> {
    var p := ports.tserverPorts;
    [ContainerPort("tserver-ui", TServerUIOrDefault(ports)), ContainerPort("tserver-rpc", p.rpc),
     ContainerPort("cassandra", p.cassandra), ContainerPort("redis", p.redis), ContainerPort("postgres", p.postgres)]
  }

  // ---------- resources ----------

  const CPU_DEFAULT := Quantity("2", 2, true)
  const MASTER_MEMORY_DEFAULT := Quantity("2Gi", 0x8000_0000, true)
  const TSERVER_MEMORY_DEFAULT := Quantity("4Gi", 0x1_0000_0000, true)

  function GetResourceSpec(r: Resources, isTServer: bool): Resources {
    if |r.requests| != 0 || |r.limits| != 0 then r
    else
      var memory := if isTServer then TSERVER_MEMORY_DEFAULT else MASTER_MEMORY_DEFAULT;
      var list: ResourceList := map["cpu" := CPU_DEFAULT, "memory" := memory];
      Resources(list, list)
  }

  /** 870/1024 of what AsInt64 answers for the pod's memory limit, in int64 arithmetic; whether it could answer
      is not looked at. */
  function MemoryLimitBytes(r: Resources): Option<int> {
    if "memory" in r.limits then Some(Quo(WrapInt64(AsInt64(r.limits["memory"]).0 * 870), 1024)) else None
  }

  // ---------- commands ----------

  function MasterAddress(masterName: string, serviceName: string, namespace: string, i: int, port: int): string {
    masterName + "-" + Itoa(i) + "." + serviceName + "." + namespace + ".svc.cluster.local:" + Itoa(port)
  }

  /** One address per replica, in order. */
  function MasterAddresses(masterName: string, serviceName: string, namespace: string, replicas: int, port: int)
    : (addresses: seq<string>)
    ensures |addresses| == if replicas <= 0 then 0 else replicas
    ensures forall i | 0 <= i < |addresses| ::
      addresses[i] == MasterAddress(masterName, serviceName, namespace, i, port)
  {
    if replicas <= 0 then []
    else MasterAddresses(masterName, serviceName, namespace, replicas - 1, port)
         + [MasterAddress(masterName, serviceName, namespace, replicas - 1, port)]
  }

  method GetMasterAddresses(masterName: string, serviceName: string, namespace: string, replicas: int, port: int)
    returns (addresses: string)
    ensures addresses == Join(MasterAddresses(masterName, serviceName, namespace, replicas, port), ",")
  {
    var addrs := [];
    var i := 0;
    while i < replicas
      invariant i == 0 || i <= replicas
      invariant addrs == MasterAddresses(masterName, serviceName, namespace, i, port)
    {
      addrs := addrs + [MasterAddress(masterName, serviceName, namespace, i, port)];
      i := i + 1;
    }
    addresses := Join(addrs, ",");
  }

  function MemoryFlag(r: Resources): seq<string> {
    match MemoryLimitBytes(r)
    case Some(bytes) => ["--memory_limit_hard_bytes=" + Itoa(bytes)]
    case None => []
  }

  function MasterCommand(
      namespace: string, serviceName: string, masterName: string, rpc: int, replicas: int, r: Resources)
    : seq<string>
  {
    [ "/home/yugabyte/bin/yb-master",
      "--fs_data_dirs=" + VOLUME_MOUNT_PATH,
      "--rpc_bind_addresses=$(POD_IP):" + Itoa(rpc),
      "--server_broadcast_addresses=$(POD_NAME)." + serviceName + ":" + Itoa(rpc),
      "--use_private_ip=never",
      "--master_addresses=" + Join(MasterAddresses(masterName, serviceName, namespace, replicas, rpc), ","),
      "--enable_ysql=true",
      "--replication_factor=" + Itoa(replicas),
      "--logtostderr" ] + MemoryFlag(r)
  }

  function TServerCommand(namespace: string, serviceName: string, masterServiceName: string, masterName: string,
                          masterRPC: int, rpc: int, pgsql: int, replicas: int, r: Resources): seq<string> {
    [ "/home/yugabyte/bin/yb-tserver",
      "--fs_data_dirs=" + VOLUME_MOUNT_PATH,
      "--rpc_bind_addresses=$(POD_IP):" + Itoa(rpc),
      "--server_broadcast_addresses=$(POD_NAME)." + serviceName + ":" + Itoa(rpc),
      "--pgsql_proxy_bind_address=$(POD_IP):" + Itoa(pgsql),
      "--use_private_ip=never",
      "--tserver_master_addrs=" +
        Join(MasterAddresses(masterName, masterServiceName, namespace, replicas, masterRPC), ","),
      "--enable_ysql=true",
      "--logtostderr" ] + MemoryFlag(r)
  }

  // ---------- objects as they are created ----------

  function CreateHeadless(c: Cluster, isTServer: bool): Service {
    var name, app := if isTServer then TSERVERS else MASTERS, if isTServer then TSERVER else MASTER;
    Service(WithSuffix(c, name), c.namespace, AppLabels(WithSuffix(c, app)), c.uid,
            AppLabels(WithSuffix(c, app)), "None", "", CreateServicePorts(c, isTServer))
  }

  function CreateUI(c: Cluster, isTServer: bool): Service {
    var name, app := if isTServer then TSERVER_UI else MASTER_UI, if isTServer then TSERVER else MASTER;
    var ports := PortsOf(if isTServer then c.tserver.network else c.master.network);
    Service(WithSuffix(c, name), c.namespace, AppLabels(WithSuffix(c, app)), c.uid,
            AppLabels(WithSuffix(c, app)), "", "ClusterIP", CreateUIServicePorts(ports, isTServer))
  }

  /** createContainer: the service name it is given is the StatefulSet's own headless service. */
  function CreateContainer(c: Cluster, isTServer: bool, name: string, serviceName: string): Container {
    var masterPorts := PortsOf(c.master.network);
    var masterName := WithSuffix(c, MASTER);
    if !isTServer then
      var r := GetResourceSpec(c.master.resource, false);
      Container(name, IMAGE, ENV, r,
        MasterCommand(c.namespace, serviceName, masterName, masterPorts.masterPorts.rpc, c.master.replicas, r),
        MasterContainerPorts(masterPorts),
        WithSuffix(c, c.master.volumeClaimTemplate.name), VOLUME_MOUNT_PATH)
    else
      var ports := PortsOf(c.tserver.network);
      var r := GetResourceSpec(c.tserver.resource, true);
      Container(name, IMAGE, ENV, r,
        TServerCommand(c.namespace, serviceName, WithSuffix(c, MASTERS), masterName, masterPorts.masterPorts.rpc,
          ports.tserverPorts.rpc, ports.tserverPorts.postgres, c.tserver.replicas, r),
        TServerContainerPorts(ports),
        WithSuffix(c, c.tserver.volumeClaimTemplate.name), VOLUME_MOUNT_PATH)
  }

  function CreateSts(c: Cluster, isTServer: bool): StatefulSet {
    var server := if isTServer then c.tserver else c.master;
    var name := WithSuffix(c, if isTServer then TSERVER else MASTER);
    var serviceName := WithSuffix(c, if isTServer then TSERVERS else MASTERS);
    var vct := server.volumeClaimTemplate;
    StatefulSet(name, c.namespace, AppLabels(name), c.annotations, c.uid,
                serviceName, server.replicas, AppLabels(name),
                AppLabels(name), c.annotations, name, CreateContainer(c, isTServer, name, serviceName),
                [vct.(name := WithSuffix(c, vct.name))])
  }

  // ---------- objects as they are updated ----------

  /** updateStatefulSet: builds its own values; the TServer's resources come from the Master's spec. */
  function UpdateSts(sfs: StatefulSet, c: Cluster, isTServer: bool): StatefulSet {
    var ports := PortsOf(c.master.network);
    var masterService, masterName := WithSuffix(c, MASTERS), WithSuffix(c, MASTER);
    var resources := GetResourceSpec(c.master.resource, isTServer);
    if !isTServer then
      var vct := c.master.volumeClaimTemplate.(name := WithSuffix(c, c.master.volumeClaimTemplate.name));
      sfs.(
        replicas := c.master.replicas,
        container := sfs.container.(
          command := MasterCommand(
            c.namespace, masterService, masterName, ports.masterPorts.rpc, c.master.replicas, resources),
          resources := resources,
          ports := MasterContainerPorts(ports),
          mountName := vct.name),
        volumeClaimTemplates := [vct])
    else
      var tports := PortsOf(c.tserver.network);
      var vct := c.tserver.volumeClaimTemplate.(name := WithSuffix(c, c.tserver.volumeClaimTemplate.name));
      sfs.(
        replicas := c.tserver.replicas,
        container := sfs.container.(
          command := TServerCommand(
            c.namespace, WithSuffix(c, TSERVERS), masterService, masterName, ports.masterPorts.rpc,
            tports.tserverPorts.rpc, tports.tserverPorts.postgres, c.tserver.replicas, resources),
          resources := resources,
          ports := TServerContainerPorts(tports),
          mountName := vct.name),
        volumeClaimTemplates := [vct])
  }

  function UpdateHeadless(s: Service, c: Cluster, isTServer: bool): Service {
    s.(ports := CreateServicePorts(c, isTServer))
  }

  function UpdateUI(s: Service, c: Cluster, isTServer: bool): Service {
    s.(ports := CreateUIServicePorts(PortsOf(if isTServer then c.tserver.network else c.master.network), isTServer))
  }

  // ---------- what the built values mean together ----------

  /** Every port a service forwards to is one its containers open, in the same order, created or updated. */
  lemma ServicePortsReachContainers(c: Cluster, isTServer: bool, existing: StatefulSet)
    ensures var s, p := CreateHeadless(c, isTServer).ports, CreateSts(c, isTServer).container.ports;
      && |s| == |p| && p == UpdateSts(existing, c, isTServer).container.ports
      && forall k | 0 <= k < |s| :: s[k].port == s[k].targetPort == p[k].port
  {
  }

  /** A UI service forwards to the containers' UI port; without a TServer UI port it forwards nothing. */
  lemma UIServiceReachesContainers(c: Cluster, isTServer: bool)
    ensures var u, p := CreateUI(c, isTServer).ports, CreateSts(c, isTServer).container.ports;
      (u == [] || u == [SamePort("ui", p[0].port)])
        && (u == [] <==> isTServer && LastPort(c.tserver.network, "yb-tserver-ui") <= 0)
  {
  }

  /** The hard memory limit is 870/1024 of the pod's, rounded down, exactly when the pod's is at most one byte, or
      is held as an int64 and small enough for the product. */
  lemma MemoryLimitIsExact(r: Resources)
    requires "memory" in r.limits
    requires var limit := r.limits["memory"]; 0 <= limit.units && (limit.fast ==> limit.units <= MAX_INT64)
    ensures var limit := r.limits["memory"];
      MemoryLimitBytes(r) == Some(limit.units * 870 / 1024) <==>
        limit.units <= 1 || (limit.fast && limit.units <= MAX_INT64 / 870)
  {
    var limit := r.limits["memory"];
    if limit.fast {
      ProductIsExact(limit.units);
    }
  }

  lemma ProductIsExact(bytes: int)
    requires 0 <= bytes <= MAX_INT64
    ensures Quo(WrapInt64(bytes * 870), 1024) == bytes * 870 / 1024 <==> bytes <= MAX_INT64 / 870
  {
    var product := bytes * 870;
    if product > MAX_INT64 {
      var wrapped := WrapInt64(product);
      assert wrapped <= MAX_INT64 < product;
      assert (product - wrapped) % TWO_64 == 0;
      assert product - wrapped >= TWO_64;
      if wrapped >= 0 {
        assert wrapped / 1024 < product / 1024;
      } else {
        assert Quo(wrapped, 1024) <= 0;
      }
    }
  }

  /** A limit that is not held as an int64 tells the server to use no memory at all. */
  lemma UnreadLimitIsZero(r: Resources)
    requires "memory" in r.limits && !r.limits["memory"].fast
    ensures MemoryFlag(r) == ["--memory_limit_hard_bytes=0"]
  {
    assert MemoryLimitBytes(r) == Some(0);
    assert Itoa(0) == "0";
    assert "--memory_limit_hard_bytes=" + "0" == "--memory_limit_hard_bytes=0";
  }

  /** As for a limit of 1.5Gi. */
  lemma FractionalLimitIsLost()
    ensures MemoryFlag(Resources(map[], map["memory" := Quantity("1.5Gi", 0x6000_0000, false)]))
         == ["--memory_limit_hard_bytes=0"]
  {
    UnreadLimitIsZero(Resources(map[], map["memory" := Quantity("1.5Gi", 0x6000_0000, false)]));
  }

  // ---------- who the TServers are told the Masters are ----------

  /** The Masters' addresses for so many replicas, as the commands carry them. */
  function MasterList(c: Cluster, replicas: int): string {
    Join(MasterAddresses(WithSuffix(c, MASTER), WithSuffix(c, MASTERS), c.namespace, replicas,
                         PortsOf(c.master.network).masterPorts.rpc), ",")
  }

  lemma {:induction false} JoinAppend(parts: seq<string>, part: string, sep: string)
    requires parts != []
    ensures Join(parts + [part], sep) == Join(parts, sep) + sep + part
  {
    var all := parts + [part];
    assert all[0] == parts[0];
    if |parts| > 1 {
      JoinAppend(parts[1..], part, sep);
      assert all[1..] == parts[1..] + [part];
      assert parts[0] + sep + (Join(parts[1..], sep) + sep + part) ==
        parts[0] + sep + Join(parts[1..], sep) + sep + part;
    } else {
      assert all[1..] == [part];
    }
  }

  /** Every further replica makes the list longer. */
  lemma {:induction false} MasterListGrows(c: Cluster, few: int, many: int)
    requires 1 <= few < many
    ensures |MasterList(c, few)| < |MasterList(c, many)|
    decreases many
  {
    var name, service, rpc := WithSuffix(c, MASTER), WithSuffix(c, MASTERS), PortsOf(c.master.network).masterPorts.rpc;
    var before := MasterAddresses(name, service, c.namespace, many - 1, rpc);
    JoinAppend(before, MasterAddress(name, service, c.namespace, many - 1, rpc), ",");
    if few < many - 1 {
      MasterListGrows(c, few, many - 1);
    }
  }

  /** The Masters' command, as created and as updated. */
  lemma MasterCommandListsMasters(c: Cluster, existing: StatefulSet)
    ensures MasterFlag(CreateSts(c, false)) == MasterFlag(UpdateSts(existing, c, false))
         == Some("--master_addresses=" + MasterList(c, c.master.replicas))
  {
  }

  /** The TServers' command, whose list has one entry per TServer. */
  lemma TServerCommandListsMasters(c: Cluster, existing: StatefulSet)
    ensures TServerFlag(CreateSts(c, true)) == TServerFlag(UpdateSts(existing, c, true))
         == Some("--tserver_master_addrs=" + MasterList(c, c.tserver.replicas))
  {
  }

  /** Where the commands carry the list. */
  function MasterFlag(s: StatefulSet): Option<string> {
    if |s.container.command| > 5 then Some(s.container.command[5]) else None
  }

  function TServerFlag(s: StatefulSet): Option<string> {
    if |s.container.command| > 6 then Some(s.container.command[6]) else None
  }

  lemma {:induction false} MasterListsEqualIff(c: Cluster, m: int, n: int)
    requires m >= 1 && n >= 1
    ensures MasterList(c, m) == MasterList(c, n) <==> m == n
  {
    if m < n {
      MasterListGrows(c, m, n);
    } else if n < m {
      MasterListGrows(c, n, m);
    }
  }

  /** In a valid spec, created or updated, the TServers are told of exactly the Masters that the Masters go by
      themselves if and only if there are as many TServers as Masters. */
  lemma TServersKnowTheMastersIff(c: Cluster, existing: StatefulSet)
    requires ValidSpec(c)
    ensures exists masters, known ::
      && MasterFlag(CreateSts(c, false)) == MasterFlag(UpdateSts(existing, c, false)) ==
        Some("--master_addresses=" + masters)
      && TServerFlag(CreateSts(c, true)) == TServerFlag(UpdateSts(existing, c, true)) ==
        Some("--tserver_master_addrs=" + known)
      && (known == masters <==> c.tserver.replicas == c.master.replicas)
  {
    MasterCommandListsMasters(c, existing);
    TServerCommandListsMasters(c, existing);
    MasterListsEqualIff(c, c.tserver.replicas, c.master.replicas);
  }
}
