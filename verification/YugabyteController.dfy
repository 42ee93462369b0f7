/** The controller's handlers against an API server that may fail any call
    (operator/yugabytedb/create_controller.go, update_controller.go). */
module YugabyteController {
  import opened Wrappers
  import opened YugabyteObjects
  import opened YugabyteStore

  /** How one API call goes: well, lost on the way, or carried out with the answer lost. */
  datatype Fault = NoFault | Lost | AnswerLost

  datatype Reply<T> = Found(value: T) | NotFound | Unavailable

  datatype WriteReply = Written | AlreadyExists | Missing | Failed

  /** The API server's objects of one namespace; faults are decided call by call. */
  class ApiServer {
    const faults: nat -> Fault
    var calls: nat
    var services: map<string, Service>
    var statefulSets: map<string, StatefulSet>

    constructor (faults: nat -> Fault)
      ensures this.faults == faults && calls == 0 && Contents() == EMPTY && Valid()
    {
      this.faults := faults;
      calls, services, statefulSets := 0, map[], map[];
    }

    /** Objects are stored under their own names. */
    ghost predicate Valid()
      reads this
    {
      && (forall n | n in services :: services[n].name == n)
      && (forall n | n in statefulSets :: statefulSets[n].name == n)
    }

    ghost function Contents(): Store
      reads this
    {
      Store(services, statefulSets)
    }

    ghost predicate NoFaultsSince(from: nat)
      reads this
    {
      forall k | from <= k < calls :: faults(k) == NoFault
    }

    method GetService(name: string) returns (r: Reply<Service>)
      modifies this`calls
      ensures calls == old(calls) + 1
      ensures faults(old(calls)) != NoFault ==> r == Unavailable
      ensures faults(old(calls)) == NoFault ==> r == if name in services then Found(services[name]) else NotFound
    {
      var fault := faults(calls);
      calls := calls + 1;
      r := if fault != NoFault then Unavailable else if name in services then Found(services[name]) else NotFound;
    }

    method GetStatefulSet(name: string) returns (r: Reply<StatefulSet>)
      modifies this`calls
      ensures calls == old(calls) + 1
      ensures faults(old(calls)) != NoFault ==> r == Unavailable
      ensures faults(old(calls)) == NoFault ==>
        r == if name in statefulSets then Found(statefulSets[name]) else NotFound
    {
      var fault := faults(calls);
      calls := calls + 1;
      r :=
        if fault != NoFault then Unavailable
        else if name in statefulSets then Found(statefulSets[name])
        else NotFound;
    }

    /** Writes, or removes, one service if its presence is as the call demands. */
    method WriteService(name: string, x: Option<Service>, wantPresent: bool) returns (r: WriteReply)
      requires x.Some? ==> x.value.name == name
      modifies this`calls, this`services
      ensures calls == old(calls) + 1
      ensures var fits := (name in old(services) <==> wantPresent);
        && (fits && faults(old(calls)) != Lost ==>
          services == if x.Some? then old(services)[name := x.value] else old(services) - {name})
        && (!fits || faults(old(calls)) == Lost ==> services == old(services))
        && (r == Written <==> fits && faults(old(calls)) == NoFault)
        && (r == AlreadyExists <==> !fits && !wantPresent && faults(old(calls)) == NoFault)
    {
      var fault := faults(calls);
      calls := calls + 1;
      if name in services <==> wantPresent {
        if fault != Lost {
          services := if x.Some? then services[name := x.value] else services - {name};
        }
        r := if fault == NoFault then Written else Failed;
      } else {
        r := if fault != NoFault then Failed else if wantPresent then Missing else AlreadyExists;
      }
    }

    method WriteStatefulSet(x: StatefulSet, wantPresent: bool) returns (r: WriteReply)
      modifies this`calls, this`statefulSets
      ensures calls == old(calls) + 1
      ensures var fits := (x.name in old(statefulSets) <==> wantPresent);
        && (fits && faults(old(calls)) != Lost ==> statefulSets == old(statefulSets)[x.name := x])
        && (!fits || faults(old(calls)) == Lost ==> statefulSets == old(statefulSets))
        && (r == Written <==> fits && faults(old(calls)) == NoFault)
        && (r == AlreadyExists <==> !fits && !wantPresent && faults(old(calls)) == NoFault)
    {
      var fault := faults(calls);
      calls := calls + 1;
      if x.name in statefulSets <==> wantPresent {
        if fault != Lost {
          statefulSets := statefulSets[x.name := x];
        }
        r := if fault == NoFault then Written else Failed;
      } else {
        r := if fault != NoFault then Failed else if wantPresent then Missing else AlreadyExists;
      }
    }
  }

  lemma PutBack(s: Store, key: Key)
    ensures Put(s, key, Lookup(s, key)) == s
  {
    SameLookupsSameStore(Put(s, key, Lookup(s, key)), s);
  }

  lemma {:induction false} CreateStsStep(s: Store, c: Cluster, isTServer: bool)
    ensures var j, sfs := if isTServer then 5 else 4, CreateSts(c, isTServer);
      && SlotKey(c, j) == StatefulSetKey(sfs.name)
      && CreateStep(s, c, j) == if Lookup(s, SlotKey(c, j)).None? then Put(s, SlotKey(c, j), Some(Sts(sfs))) else s
  {
    PutBack(s, SlotKey(c, if isTServer then 5 else 4));
  }

  lemma UpdateStsKeepsName(sfs: StatefulSet, c: Cluster, isTServer: bool)
    ensures UpdateSts(sfs, c, isTServer).name == sfs.name
  {
  }

  lemma UpdateStsStep(s: Store, c: Cluster, isTServer: bool)
    ensures var j, name := if isTServer then 5 else 4, WithSuffix(c, if isTServer then TSERVER else MASTER);
      && SlotKey(c, j) == StatefulSetKey(name)
      && (Lookup(s, SlotKey(c, j)).Some? <==> name in s.statefulSets)
      && (name in s.statefulSets ==>
            UpdateStep(s, c, j) ==
              s.(statefulSets := s.statefulSets[name := UpdateSts(s.statefulSets[name], c, isTServer)]))
  {
  }

  ghost function UIName(c: Cluster, isTServer: bool): string {
    WithSuffix(c, if isTServer then TSERVER_UI else MASTER_UI)
  }

  ghost function UIPorts(c: Cluster, isTServer: bool): ClusterPorts {
    PortsOf(if isTServer then c.tserver.network else c.master.network)
  }

  /** What the update step comes to for a UI service that is there. */
  lemma UpdateUIStep(s: Store, c: Cluster, isTServer: bool)
    ensures var j, name := if isTServer then 3 else 2, UIName(c, isTServer);
      && SlotKey(c, j) == ServiceKey(name)
      && (Lookup(s, SlotKey(c, j)).Some? <==> name in s.services)
      && (name in s.services ==> UpdateStep(s, c, j) == s.(services :=
            if isTServer && !WantsTServerUI(c) then s.services - {name}
            else
              var ports := CreateUIServicePorts(UIPorts(c, isTServer), isTServer);
              s.services[name := s.services[name].(ports := ports)]))
  {
  }

  /** What it comes to for a missing TServer UI service: creation, which may be nothing. */
  lemma CreateUIStep(s: Store, c: Cluster)
    requires Lookup(s, SlotKey(c, 3)).None?
    ensures UpdateStep(s, c, 3) == CreateStep(s, c, 3)
    ensures !WantsTServerUI(c) ==> UpdateStep(s, c, 3) == s
  {
    if !WantsTServerUI(c) {
      SameLookupsSameStore(UpdateStep(s, c, 3), s);
    }
  }

  /** The steps of OnAdd after the first `from` and up to `steps`. */
  ghost function CreateBetween(s: Store, c: Cluster, from: int, steps: int): Store
    requires 0 <= from <= steps <= STEPS
  {
    if steps == from then s else CreateStep(CreateBetween(s, c, from, steps - 1), c, steps - 1)
  }

  lemma CreateOneMore(start: Store, c: Cluster, from: int, steps: int, before: Store, after: Store, applied: bool)
    requires 0 <= from <= steps < STEPS && before == CreateBetween(start, c, from, steps)
    requires after == if applied then CreateStep(before, c, steps) else before
    ensures after == CreateBetween(start, c, from, steps + if applied then 1 else 0)
  {
  }

  lemma {:induction false} CreateOn(start: Store, c: Cluster, from: int, steps: int)
    requires 0 <= from <= steps <= STEPS
    ensures CreateBetween(CreateSteps(start, c, from), c, from, steps) == CreateSteps(start, c, steps)
    decreases steps
  {
    if from < steps {
      CreateOn(start, c, from, steps - 1);
    }
  }

  /** The same of OnUpdate. */
  ghost function UpdateBetween(s: Store, c: Cluster, from: int, steps: int): Store
    requires 0 <= from <= steps <= STEPS
  {
    if steps == from then s else UpdateStep(UpdateBetween(s, c, from, steps - 1), c, steps - 1)
  }

  lemma UpdateOneMore(start: Store, c: Cluster, from: int, steps: int, before: Store, after: Store, applied: bool)
    requires 0 <= from <= steps < STEPS && before == UpdateBetween(start, c, from, steps)
    requires after == if applied then UpdateStep(before, c, steps) else before
    ensures after == UpdateBetween(start, c, from, steps + if applied then 1 else 0)
  {
  }

  lemma {:induction false} UpdateOn(start: Store, c: Cluster, from: int, steps: int)
    requires 0 <= from <= steps <= STEPS
    ensures UpdateBetween(UpdateSteps(start, c, from), c, from, steps) == UpdateSteps(start, c, steps)
    decreases steps
  {
    if from < steps {
      UpdateOn(start, c, from, steps - 1);
    }
  }

  /** The steps to come find what was there at the start. */
  lemma SlotsAhead(start: Store, c: Cluster, from: int, to: int)
    requires 0 <= from <= to <= STEPS
    ensures HasSlots(UpdateSteps(start, c, from), c, from, to) <==> HasSlots(start, c, from, to)
  {
    forall j | from <= j < to
      ensures HasSlot(UpdateSteps(start, c, from), c, j) <==> HasSlot(start, c, j)
    {
      UpdateStepsSlots(start, c, from, j);
    }
  }

  lemma SlotsTogether(s: Store, c: Cluster)
    ensures Complete(s, c) <==> HasSlots(s, c, 0, 2) && HasSlots(s, c, 2, 4) && HasSlots(s, c, 4, 6)
  {
  }

  lemma SlotsOfTwo(s: Store, c: Cluster, j: int)
    requires 0 <= j <= STEPS - 2
    ensures HasSlots(s, c, j, j + 2) <==> (j != 3 ==> HasSlot(s, c, j)) && (j + 1 != 3 ==> HasSlot(s, c, j + 1))
  {
  }

  /** `applied` tells whether the step's write reached the store: a failed call may or may not have. */
  class ClusterController {
    const api: ApiServer

    constructor (api: ApiServer)
      ensures this.api == api
    {
      this.api := api;
    }

    // ---------- creation ----------

    method CreateHeadlessService(c: Cluster, isTServer: bool) returns (ok: bool, ghost applied: bool)
      requires api.Valid() && ValidSpec(c)
      modifies api
      ensures api.Valid() && (ok ==> applied) && api.calls >= old(api.calls)
      ensures ok <==> api.NoFaultsSince(old(api.calls))
      ensures api.Contents() ==
        if applied then CreateStep(old(api.Contents()), c, if isTServer then 1 else 0) else old(api.Contents())
    {
      var s := CreateHeadless(c, isTServer);
      applied := s.name in api.services || api.faults(api.calls) != Lost;
      var r := api.WriteService(s.name, Some(s), false);
      ok := r == Written || r == AlreadyExists;
    }

    method CreateUIService(c: Cluster, isTServer: bool) returns (ok: bool, ghost applied: bool)
      requires api.Valid() && ValidSpec(c)
      modifies api
      ensures api.Valid() && (ok ==> applied) && api.calls >= old(api.calls)
      ensures ok <==> api.NoFaultsSince(old(api.calls))
      ensures api.Contents() ==
        if applied then CreateStep(old(api.Contents()), c, if isTServer then 3 else 2) else old(api.Contents())
    {
      var ports := GetPortsFromSpec(c.master.network);
      if isTServer {
        ports := GetPortsFromSpec(c.tserver.network);
        if ports.value.tserverPorts.ui <= 0 {
          assert CreateStep(api.Contents(), c, 3).services == api.services;
          return true, true;
        }
      }
      var s := CreateUI(c, isTServer);
      applied := s.name in api.services || api.faults(api.calls) != Lost;
      var r := api.WriteService(s.name, Some(s), false);
      ok := r == Written || r == AlreadyExists;
    }

    /** Stores a new StatefulSet unless one of its name exists already. */
    method StoreStatefulSet(s: StatefulSet) returns (ok: bool, ghost applied: bool)
      requires api.Valid()
      modifies api
      ensures api.Valid() && (ok ==> applied) && api.calls >= old(api.calls)
      ensures ok <==> api.NoFaultsSince(old(api.calls))
      ensures var x := Lookup(old(api.Contents()), StatefulSetKey(s.name));
        api.Contents() ==
          if applied && x.None? then Put(old(api.Contents()), StatefulSetKey(s.name), Some(Sts(s)))
          else old(api.Contents())
    {
      applied := s.name in api.statefulSets || api.faults(api.calls) != Lost;
      var r := api.WriteStatefulSet(s, false);
      ok := r == Written || r == AlreadyExists;
    }

    method CreateStatefulSet(c: Cluster, isTServer: bool) returns (ok: bool, ghost applied: bool)
      requires api.Valid() && ValidSpec(c)
      modifies api
      ensures api.Valid() && (ok ==> applied) && api.calls >= old(api.calls)
      ensures ok <==> api.NoFaultsSince(old(api.calls))
      ensures api.Contents() ==
        if applied then CreateStep(old(api.Contents()), c, if isTServer then 5 else 4) else old(api.Contents())
    {
      ghost var before := api.Contents();
      ok, applied := StoreStatefulSet(CreateSts(c, isTServer));
      CreateStsStep(before, c, isTServer);
    }

    /** Master, then TServer: the first two steps of OnAdd. */
    method CreateHeadlessServices(c: Cluster) returns (ok: bool, ghost steps: int)
      requires api.Valid() && ValidSpec(c)
      modifies api
      ensures api.Valid() && 0 <= steps <= 2 && (ok ==> steps == 2) && api.calls >= old(api.calls)
      ensures ok <==> api.NoFaultsSince(old(api.calls))
      ensures api.Contents() == CreateBetween(old(api.Contents()), c, 0, steps)
    {
      ghost var start, applied := api.Contents(), false;
      steps := 0;
      ok, applied := CreateHeadlessService(c, false);
      CreateOneMore(start, c, 0, steps, start, api.Contents(), applied);
      steps := steps + if applied then 1 else 0;
      if !ok { return; }
      ghost var before := api.Contents();
      ok, applied := CreateHeadlessService(c, true);
      CreateOneMore(start, c, 0, steps, before, api.Contents(), applied);
      steps := steps + if applied then 1 else 0;
    }

    /** The third and fourth step of OnAdd. */
    method CreateUIServices(c: Cluster) returns (ok: bool, ghost steps: int)
      requires api.Valid() && ValidSpec(c)
      modifies api
      ensures api.Valid() && 2 <= steps <= 4 && (ok ==> steps == 4) && api.calls >= old(api.calls)
      ensures ok <==> api.NoFaultsSince(old(api.calls))
      ensures api.Contents() == CreateBetween(old(api.Contents()), c, 2, steps)
    {
      ghost var start, applied := api.Contents(), false;
      steps := 2;
      ok, applied := CreateUIService(c, false);
      CreateOneMore(start, c, 2, steps, start, api.Contents(), applied);
      steps := steps + if applied then 1 else 0;
      if !ok { return; }
      ghost var before := api.Contents();
      ok, applied := CreateUIService(c, true);
      CreateOneMore(start, c, 2, steps, before, api.Contents(), applied);
      steps := steps + if applied then 1 else 0;
    }

    /** The last two steps of OnAdd. */
    method CreateStatefulSets(c: Cluster) returns (ok: bool, ghost steps: int)
      requires api.Valid() && ValidSpec(c)
      modifies api
      ensures api.Valid() && 4 <= steps <= 6 && (ok ==> steps == 6) && api.calls >= old(api.calls)
      ensures ok <==> api.NoFaultsSince(old(api.calls))
      ensures api.Contents() == CreateBetween(old(api.Contents()), c, 4, steps)
    {
      ghost var start, applied := api.Contents(), false;
      steps := 4;
      ok, applied := CreateStatefulSet(c, false);
      CreateOneMore(start, c, 4, steps, start, api.Contents(), applied);
      steps := steps + if applied then 1 else 0;
      if !ok { return; }
      ghost var before := api.Contents();
      ok, applied := CreateStatefulSet(c, true);
      CreateOneMore(start, c, 4, steps, before, api.Contents(), applied);
      steps := steps + if applied then 1 else 0;
    }

    /** The handler stops at the first failing step; what it did is always a prefix of the six steps. */
    method OnAdd(c: Cluster) returns (ok: bool, ghost steps: int)
      requires api.Valid()
      modifies api
      ensures api.Valid() && 0 <= steps <= STEPS && (ok ==> steps == STEPS)
      ensures ok <==> ValidSpec(c) && api.NoFaultsSince(old(api.calls))
      ensures api.Contents() == CreateSteps(old(api.Contents()), c, steps)
      ensures !ValidSpec(c) ==> steps == 0 && api.calls == old(api.calls)
    {
      ghost var start := api.Contents();
      steps := 0;
      ok := ValidateClusterSpec(c);
      if !ok { return; }
      ghost var from := steps;
      ok, steps := CreateHeadlessServices(c);
      CreateOn(start, c, from, steps);
      if !ok { return; }
      from := steps;
      ok, steps := CreateUIServices(c);
      CreateOn(start, c, from, steps);
      if !ok { return; }
      from := steps;
      ok, steps := CreateStatefulSets(c);
      CreateOn(start, c, from, steps);
    }

    // ---------- update ----------

    /** Writes back, or deletes, a service that was just read. */
    method WriteServiceBack(name: string, x: Option<Service>) returns (ok: bool, ghost applied: bool)
      requires api.Valid() && name in api.services && (x.Some? ==> x.value.name == name)
      modifies api
      ensures api.Valid() && (ok ==> applied) && api.calls == old(api.calls) + 1
      ensures ok <==> api.faults(old(api.calls)) == NoFault
      ensures api.statefulSets == old(api.statefulSets)
      ensures api.services ==
        if !applied then old(api.services)
        else if x.Some? then old(api.services)[name := x.value]
        else old(api.services) - {name}
    {
      applied := api.faults(api.calls) != Lost;
      var r := api.WriteService(name, x, true);
      ok := r == Written;
    }

    method UpdateHeadlessService(c: Cluster, isTServer: bool) returns (ok: bool, ghost applied: bool)
      requires api.Valid() && ValidSpec(c)
      modifies api
      ensures api.Valid() && (ok ==> applied) && api.calls >= old(api.calls)
      ensures ok <==>
        && api.NoFaultsSince(old(api.calls))
        && Lookup(old(api.Contents()), SlotKey(c, if isTServer then 1 else 0)).Some?
      ensures api.Contents() ==
        if applied then UpdateStep(old(api.Contents()), c, if isTServer then 1 else 0) else old(api.Contents())
    {
      var serviceName := MASTERS;
      if isTServer {
        serviceName := TSERVERS;
      }
      serviceName := WithSuffix(c, serviceName);
      var service := api.GetService(serviceName);
      if !service.Found? {
        return false, false;
      }
      ok, applied := WriteServiceBack(serviceName, Some(UpdateHeadless(service.value, c, isTServer)));
    }

    /** The TServer UI service was not found: create it if the spec wants one. */
    method CreateMissingUIService(c: Cluster, ui: int) returns (ok: bool, ghost applied: bool)
      requires api.Valid() && ValidSpec(c) && ui == UIPorts(c, true).tserverPorts.ui
        && Lookup(api.Contents(), SlotKey(c, 3)).None?
      modifies api
      ensures api.Valid() && (ok ==> applied) && api.calls >= old(api.calls)
      ensures ok <==> api.NoFaultsSince(old(api.calls))
      ensures api.Contents() == if applied then UpdateStep(old(api.Contents()), c, 3) else old(api.Contents())
    {
      CreateUIStep(api.Contents(), c);
      if ui > 0 {
        ok, applied := CreateUIService(c, true);
        return;
      }
      return true, true;
    }

    /** The UI service was found: delete the TServer's if the spec wants none, update it otherwise. */
    method RewriteUIService(c: Cluster, isTServer: bool, ports: ClusterPorts, service: Service)
      returns (ok: bool, ghost applied: bool)
      requires api.Valid() && ValidSpec(c) && ports == UIPorts(c, isTServer)
      requires service.name == UIName(c, isTServer) && service.name in api.services
        && api.services[service.name] == service
      modifies api
      ensures api.Valid() && (ok ==> applied) && api.calls == old(api.calls) + 1
      ensures ok <==> api.faults(old(api.calls)) == NoFault
      ensures api.Contents() ==
        if applied then UpdateStep(old(api.Contents()), c, if isTServer then 3 else 2) else old(api.Contents())
    {
      UpdateUIStep(api.Contents(), c, isTServer);
      if isTServer && ports.tserverPorts.ui <= 0 {
        ok, applied := WriteServiceBack(service.name, None);
        return;
      }
      ok, applied := WriteServiceBack(service.name, Some(service.(ports := CreateUIServicePorts(ports, isTServer))));
    }

    /** Creates, updates or deletes the TServer UI service as the spec's port demands; the Master's is
        only ever updated. */
    method UpdateUIService(c: Cluster, isTServer: bool) returns (ok: bool, ghost applied: bool)
      requires api.Valid() && ValidSpec(c)
      modifies api
      ensures api.Valid() && (ok ==> applied) && api.calls >= old(api.calls)
      ensures ok <==>
        && api.NoFaultsSince(old(api.calls))
        && (isTServer || Lookup(old(api.Contents()), SlotKey(c, 2)).Some?)
      ensures api.Contents() ==
        if applied then UpdateStep(old(api.Contents()), c, if isTServer then 3 else 2) else old(api.Contents())
    {
      UpdateUIStep(api.Contents(), c, isTServer);
      var ports := GetPortsFromSpec(c.master.network);
      var serviceName := MASTER_UI;
      if isTServer {
        ports := GetPortsFromSpec(c.tserver.network);
        serviceName := TSERVER_UI;
      }
      serviceName := WithSuffix(c, serviceName);
      var service := api.GetService(serviceName);
      if !service.Found? {
        if service.NotFound? && isTServer {
          ok, applied := CreateMissingUIService(c, ports.value.tserverPorts.ui);
          return;
        }
        return false, false;
      }
      ok, applied := RewriteUIService(c, isTServer, ports.value, service.value);
    }

    /** Writes back a StatefulSet that was just read. */
    method WriteBack(s: StatefulSet) returns (ok: bool, ghost applied: bool)
      requires api.Valid() && s.name in api.statefulSets
      modifies api
      ensures api.Valid() && (ok ==> applied) && api.calls == old(api.calls) + 1
      ensures ok <==> api.faults(old(api.calls)) == NoFault
      ensures api.services == old(api.services)
      ensures api.statefulSets == if applied then old(api.statefulSets)[s.name := s] else old(api.statefulSets)
    {
      applied := api.faults(api.calls) != Lost;
      var r := api.WriteStatefulSet(s, true);
      ok := r == Written;
    }

    /** Reads a StatefulSet and writes it back updated. */
    method ModifyStatefulSet(sfsName: string, c: Cluster, isTServer: bool) returns (ok: bool, ghost applied: bool)
      requires api.Valid()
      modifies api
      ensures api.Valid() && (ok ==> applied) && api.calls >= old(api.calls)
      ensures ok <==> api.NoFaultsSince(old(api.calls)) && sfsName in old(api.statefulSets)
      ensures applied ==> sfsName in old(api.statefulSets)
      ensures api.services == old(api.services)
      ensures api.statefulSets == if !applied then old(api.statefulSets) else
        old(api.statefulSets)[sfsName := UpdateSts(old(api.statefulSets)[sfsName], c, isTServer)]
    {
      var sfs := api.GetStatefulSet(sfsName);
      if !sfs.Found? {
        return false, false;
      }
      UpdateStsKeepsName(sfs.value, c, isTServer);
      ok, applied := WriteBack(UpdateSts(sfs.value, c, isTServer));
    }

    method UpdateStatefulSet(c: Cluster, isTServer: bool) returns (ok: bool, ghost applied: bool)
      requires api.Valid() && ValidSpec(c)
      modifies api
      ensures api.Valid() && (ok ==> applied) && api.calls >= old(api.calls)
      ensures ok <==>
        && api.NoFaultsSince(old(api.calls))
        && Lookup(old(api.Contents()), SlotKey(c, if isTServer then 5 else 4)).Some?
      ensures api.Contents() ==
        if applied then UpdateStep(old(api.Contents()), c, if isTServer then 5 else 4) else old(api.Contents())
    {
      ghost var before := api.Contents();
      var sfsName := MASTER;
      if isTServer {
        sfsName := TSERVER;
      }
      ok, applied := ModifyStatefulSet(WithSuffix(c, sfsName), c, isTServer);
      UpdateStsStep(before, c, isTServer);
    }

    /** Headless service ports, Master then TServer. */
    method UpdateHeadlessServices(c: Cluster) returns (ok: bool, ghost steps: int)
      requires api.Valid() && ValidSpec(c)
      modifies api
      ensures api.Valid() && 0 <= steps <= 2 && (ok ==> steps == 2) && api.calls >= old(api.calls)
      ensures ok <==> api.NoFaultsSince(old(api.calls)) && HasSlots(old(api.Contents()), c, 0, 2)
      ensures api.Contents() == UpdateBetween(old(api.Contents()), c, 0, steps)
    {
      ghost var start, applied := api.Contents(), false;
      steps := 0;
      UpdateStepSlots(start, c, steps, steps + 1);
      SlotsOfTwo(start, c, steps);
      ok, applied := UpdateHeadlessService(c, false);
      UpdateOneMore(start, c, 0, steps, start, api.Contents(), applied);
      steps := steps + if applied then 1 else 0;
      if !ok { return; }
      ghost var before := api.Contents();
      ok, applied := UpdateHeadlessService(c, true);
      UpdateOneMore(start, c, 0, steps, before, api.Contents(), applied);
      steps := steps + if applied then 1 else 0;
    }

    /** UI services; creation and deletion apply to the TServer's. */
    method UpdateUIServices(c: Cluster) returns (ok: bool, ghost steps: int)
      requires api.Valid() && ValidSpec(c)
      modifies api
      ensures api.Valid() && 2 <= steps <= 4 && (ok ==> steps == 4) && api.calls >= old(api.calls)
      ensures ok <==> api.NoFaultsSince(old(api.calls)) && HasSlots(old(api.Contents()), c, 2, 4)
      ensures api.Contents() == UpdateBetween(old(api.Contents()), c, 2, steps)
    {
      ghost var start, applied := api.Contents(), false;
      steps := 2;
      UpdateStepSlots(start, c, steps, steps + 1);
      SlotsOfTwo(start, c, steps);
      ok, applied := UpdateUIService(c, false);
      UpdateOneMore(start, c, 2, steps, start, api.Contents(), applied);
      steps := steps + if applied then 1 else 0;
      if !ok { return; }
      ghost var before := api.Contents();
      ok, applied := UpdateUIService(c, true);
      UpdateOneMore(start, c, 2, steps, before, api.Contents(), applied);
      steps := steps + if applied then 1 else 0;
    }

    /** Replica count, command, ports and claims of both StatefulSets. */
    method UpdateStatefulSets(c: Cluster) returns (ok: bool, ghost steps: int)
      requires api.Valid() && ValidSpec(c)
      modifies api
      ensures api.Valid() && 4 <= steps <= 6 && (ok ==> steps == 6) && api.calls >= old(api.calls)
      ensures ok <==> api.NoFaultsSince(old(api.calls)) && HasSlots(old(api.Contents()), c, 4, 6)
      ensures api.Contents() == UpdateBetween(old(api.Contents()), c, 4, steps)
    {
      ghost var start, applied := api.Contents(), false;
      steps := 4;
      UpdateStepSlots(start, c, steps, steps + 1);
      SlotsOfTwo(start, c, steps);
      ok, applied := UpdateStatefulSet(c, false);
      UpdateOneMore(start, c, 4, steps, start, api.Contents(), applied);
      steps := steps + if applied then 1 else 0;
      if !ok { return; }
      ghost var before := api.Contents();
      ok, applied := UpdateStatefulSet(c, true);
      UpdateOneMore(start, c, 4, steps, before, api.Contents(), applied);
      steps := steps + if applied then 1 else 0;
    }

    /** Stops at the first failing step. Succeeds exactly when the spec is valid, the objects that OnUpdate
        expects are there and no call failed; an invalid spec makes no call at all. */
    method OnUpdate(c: Cluster) returns (ok: bool, ghost steps: int)
      requires api.Valid()
      modifies api
      ensures api.Valid() && 0 <= steps <= STEPS && (ok ==> steps == STEPS)
      ensures ok <==> ValidSpec(c) && Complete(old(api.Contents()), c) && api.NoFaultsSince(old(api.calls))
      ensures api.Contents() == UpdateSteps(old(api.Contents()), c, steps)
      ensures !ValidSpec(c) ==> steps == 0 && api.calls == old(api.calls)
    {
      ghost var start := api.Contents();
      SlotsTogether(start, c);
      steps := 0;
      ok := ValidateClusterSpec(c);
      if !ok { return; }
      ghost var from := steps;
      SlotsAhead(start, c, from, from + 2);
      ok, steps := UpdateHeadlessServices(c);
      UpdateOn(start, c, from, steps);
      if !ok { return; }
      from := steps;
      SlotsAhead(start, c, from, from + 2);
      ok, steps := UpdateUIServices(c);
      UpdateOn(start, c, from, steps);
      if !ok { return; }
      from := steps;
      SlotsAhead(start, c, from, from + 2);
      ok, steps := UpdateStatefulSets(c);
      UpdateOn(start, c, from, steps);
    }

    // ---------- what the watch delivers ----------

    method DeliverOne(c: Cluster, notice: Notice) returns (ok: bool, ghost a: Attempt)
      requires api.Valid() && SameResource(notice.cluster, c)
      modifies api
      ensures api.Valid() && AttemptOn(c, a) && CarriedOut(notice, ok, a)
      ensures api.Contents() == Effect(old(api.Contents()), a)
    {
      ghost var steps;
      match notice
      case Added(cluster) =>
        ok, steps := OnAdd(cluster);
        a := Adding(cluster, steps);
      case Modified(cluster) =>
        ok, steps := OnUpdate(cluster);
        a := Updating(cluster, steps);
    }

    /** Calls the handlers one after the other, each of them complete or not. */
    method DeliverAll(c: Cluster, notices: seq<Notice>) returns (succeeded: seq<bool>, ghost attempts: seq<Attempt>)
      requires api.Valid()
      requires forall k | 0 <= k < |notices| :: SameResource(notices[k].cluster, c)
      modifies api
      ensures api.Valid() && AttemptsOn(c, attempts) && AllCarriedOut(notices, succeeded, attempts)
      ensures api.Contents() == After(old(api.Contents()), attempts)
    {
      ghost var start := api.Contents();
      succeeded, attempts := [], [];
      for k := 0 to |notices|
        invariant api.Valid() && AttemptsOn(c, attempts) && AllCarriedOut(notices[..k], succeeded, attempts)
        invariant api.Contents() == After(start, attempts)
      {
        var ok, a := DeliverOne(c, notices[k]);
        AfterOneMore(start, c, attempts, a);
        OneMoreCarriedOut(notices, k, succeeded, attempts, ok, a);
        succeeded, attempts := succeeded + [ok], attempts + [a];
      }
      assert notices[..|notices|] == notices;
    }

    /** One more OnUpdate after any history that began in an empty namespace. It succeeds exactly when its spec
        is valid, no call of its own fails, and some OnAdd before it did all its steps. Every object is then
        what a fresh OnAdd of the last spec would have created, but for the annotations of the OnAdd that
        created it and the Master's resources; if that was the first OnAdd, so is the whole store. */
    method DeliverLast(c: Cluster, ghost attempts: seq<Attempt>, last: Cluster) returns (updated: bool)
      requires api.Valid() && AttemptsOn(c, attempts) && SameResource(last, c)
        && api.Contents() == After(EMPTY, attempts)
      modifies api
      ensures api.Valid()
      ensures updated <==> ValidSpec(last) && api.NoFaultsSince(old(api.calls)) && SomeAddDone(attempts)
      ensures updated ==> forall j | 0 <= j < STEPS ::
        Creator(attempts, j).Some?
          && Lookup(api.Contents(), SlotKey(last, j)) == Fresh(AsUpdated(Creator(attempts, j).value, last), j)
      ensures updated && attempts[0] == Adding(attempts[0].cluster, STEPS) ==>
        api.Contents() == FreshStore(AsUpdated(attempts[0].cluster, last))
    {
      ghost var before := api.Contents();
      CompleteIffSomeAddWas(c, attempts, last);
      ghost var steps;
      updated, steps := OnUpdate(last);
      if updated {
        forall j | 0 <= j < STEPS
          ensures Creator(attempts, j).Some?
          ensures Lookup(api.Contents(), SlotKey(last, j)) == Fresh(AsUpdated(Creator(attempts, j).value, last), j)
        {
          SlotsFollowLastSpec(c, attempts, last, j);
        }
        if attempts[0] == Adding(attempts[0].cluster, STEPS) {
          PathIndependenceFromFirst(attempts, last);
        }
      }
    }

    /** Everything the watch delivers about one resource, from an empty namespace on, with failures anywhere. */
    method Deliver(c: Cluster, notices: seq<Notice>, last: Cluster)
      returns (updated: bool, succeeded: seq<bool>, ghost attempts: seq<Attempt>)
      requires api.Valid() && api.Contents() == EMPTY
      requires SameResource(last, c) && forall k | 0 <= k < |notices| :: SameResource(notices[k].cluster, c)
      modifies api
      ensures AttemptsOn(c, attempts) && AllCarriedOut(notices, succeeded, attempts)
      ensures updated ==> SomeAddDone(attempts)
      ensures updated && notices[0].Added? && succeeded[0] ==>
        api.Contents() == FreshStore(AsUpdated(notices[0].cluster, last))
    {
      succeeded, attempts := DeliverAll(c, notices);
      updated := DeliverLast(c, attempts, last);
    }
  }

  /** A call of one of the handlers. */
  datatype Notice = Added(cluster: Cluster) | Modified(cluster: Cluster)

  /** The attempt that a handler made of a notice; one that reported success did all its steps. */
  ghost predicate CarriedOut(notice: Notice, ok: bool, a: Attempt) {
    && (ok ==> a.steps == STEPS)
    && a == if notice.Added? then Adding(notice.cluster, a.steps) else Updating(notice.cluster, a.steps)
  }

  ghost predicate AllCarriedOut(notices: seq<Notice>, succeeded: seq<bool>, attempts: seq<Attempt>) {
    && |succeeded| == |attempts| == |notices|
    && forall k | 0 <= k < |attempts| :: CarriedOut(notices[k], succeeded[k], attempts[k])
  }

  lemma OneMoreCarriedOut(
      notices: seq<Notice>, k: nat, succeeded: seq<bool>, attempts: seq<Attempt>, ok: bool, a: Attempt)
    requires k < |notices| && AllCarriedOut(notices[..k], succeeded, attempts) && CarriedOut(notices[k], ok, a)
    ensures AllCarriedOut(notices[..k+1], succeeded + [ok], attempts + [a])
  {
    assert notices[..k+1] == notices[..k] + [notices[k]];
  }
}
