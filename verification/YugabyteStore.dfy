/** The six API objects of a cluster as slots of a store, what one create or update step does to its slot,
    and what any history of complete and aborted runs leaves behind
    (operator/yugabytedb/create_controller.go, update_controller.go). */
module YugabyteStore {
  import opened Wrappers
  import opened YugabyteObjects

  datatype Store = Store(services: map<string, Service>, statefulSets: map<string, StatefulSet>)

  const EMPTY := Store(map[], map[])

  datatype Key = ServiceKey(name: string) | StatefulSetKey(name: string)

  datatype Object = Svc(service: Service) | Sts(statefulSet: StatefulSet)

  ghost predicate Typed(key: Key, x: Option<Object>) {
    x.Some? ==> (key.ServiceKey? <==> x.value.Svc?)
  }

  ghost function Lookup(s: Store, key: Key): (x: Option<Object>)
    ensures Typed(key, x)
  {
    match key
    case ServiceKey(n) => if n in s.services then Some(Svc(s.services[n])) else None
    case StatefulSetKey(n) => if n in s.statefulSets then Some(Sts(s.statefulSets[n])) else None
  }

  /** The store with one key set, or removed. */
  ghost function Put(s: Store, key: Key, x: Option<Object>): (s': Store)
    requires Typed(key, x)
    ensures Lookup(s', key) == x
    ensures forall k | k != key :: Lookup(s', k) == Lookup(s, k)
  {
    match (key, x)
    case (ServiceKey(n), None) => s.(services := s.services - {n})
    case (ServiceKey(n), Some(o)) => s.(services := s.services[n := o.service])
    case (StatefulSetKey(n), None) => s.(statefulSets := s.statefulSets - {n})
    case (StatefulSetKey(n), Some(o)) => s.(statefulSets := s.statefulSets[n := o.statefulSet])
  }

  lemma SameLookupsSameStore(s: Store, t: Store)
    requires forall key :: Lookup(s, key) == Lookup(t, key)
    ensures s == t
  {
    forall n
      ensures n in s.services <==> n in t.services
      ensures n in s.services ==> s.services[n] == t.services[n]
    {
      assert Lookup(s, ServiceKey(n)) == Lookup(t, ServiceKey(n));
    }
    forall n
      ensures n in s.statefulSets <==> n in t.statefulSets
      ensures n in s.statefulSets ==> s.statefulSets[n] == t.statefulSets[n]
    {
      assert Lookup(s, StatefulSetKey(n)) == Lookup(t, StatefulSetKey(n));
    }
    assert s.services == t.services;
    assert s.statefulSets == t.statefulSets;
  }

  // ---------- the six slots, in the order both handlers visit them ----------

  const STEPS := 6

  function SlotKey(c: Cluster, j: int): Key
    requires 0 <= j < STEPS
  {
    if j == 0 then ServiceKey(WithSuffix(c, MASTERS))
    else if j == 1 then ServiceKey(WithSuffix(c, TSERVERS))
    else if j == 2 then ServiceKey(WithSuffix(c, MASTER_UI))
    else if j == 3 then ServiceKey(WithSuffix(c, TSERVER_UI))
    else if j == 4 then StatefulSetKey(WithSuffix(c, MASTER))
    else StatefulSetKey(WithSuffix(c, TSERVER))
  }

  lemma SuffixInjective(c: Cluster, s: string, t: string)
    requires WithSuffix(c, s) == WithSuffix(c, t)
    ensures s == t
  {
    var a, b, x := WithSuffix(c, s), WithSuffix(c, t), "-" + c.name;
    assert a == s + x && b == t + x;
    assert a[..|s|] == s && b[..|t|] == t;
  }

  lemma SlotKeysDiffer(c: Cluster, i: int, j: int)
    requires 0 <= i < STEPS && 0 <= j < STEPS && i != j
    ensures SlotKey(c, i) != SlotKey(c, j)
  {
    var names := [MASTERS, TSERVERS, MASTER_UI, TSERVER_UI, MASTER, TSERVER];
    if SlotKey(c, i) == SlotKey(c, j) {
      assert SlotKey(c, i).name == WithSuffix(c, names[i]) && SlotKey(c, j).name == WithSuffix(c, names[j]);
      SuffixInjective(c, names[i], names[j]);
    }
  }

  predicate WantsTServerUI(c: Cluster) {
    PortsOf(c.tserver.network).tserverPorts.ui > 0
  }

  /** The object a fresh cluster has in a slot. */
  function Fresh(c: Cluster, j: int): (x: Option<Object>)
    requires 0 <= j < STEPS
    ensures Typed(SlotKey(c, j), x)
  {
    if j < 2 then Some(Svc(CreateHeadless(c, j == 1)))
    else if j < 4 then (if j == 2 || WantsTServerUI(c) then Some(Svc(CreateUI(c, j == 3))) else None)
    else Some(Sts(CreateSts(c, j == 5)))
  }

  /** OnAdd's step: an object that already exists is left alone. */
  ghost function Created(x: Option<Object>, c: Cluster, j: int): (x': Option<Object>)
    requires 0 <= j < STEPS && Typed(SlotKey(c, j), x)
    ensures Typed(SlotKey(c, j), x')
  {
    if x.Some? then x else Fresh(c, j)
  }

  /** OnUpdate's step. Only the TServer UI service comes and goes. */
  ghost function Updated(x: Option<Object>, c: Cluster, j: int): (x': Option<Object>)
    requires 0 <= j < STEPS && Typed(SlotKey(c, j), x)
    ensures Typed(SlotKey(c, j), x')
  {
    if j == 3 then
      if x.None? then Fresh(c, 3)
      else if WantsTServerUI(c) then Some(Svc(UpdateUI(x.value.service, c, true))) else None
    else if x.None? then None
    else if j < 2 then Some(Svc(UpdateHeadless(x.value.service, c, j == 1)))
    else if j == 2 then Some(Svc(UpdateUI(x.value.service, c, false)))
    else Some(Sts(UpdateSts(x.value.statefulSet, c, j == 5)))
  }

  ghost function CreateStep(s: Store, c: Cluster, j: int): Store
    requires 0 <= j < STEPS
  {
    Put(s, SlotKey(c, j), Created(Lookup(s, SlotKey(c, j)), c, j))
  }

  ghost function UpdateStep(s: Store, c: Cluster, j: int): Store
    requires 0 <= j < STEPS
  {
    Put(s, SlotKey(c, j), Updated(Lookup(s, SlotKey(c, j)), c, j))
  }

  /** The first `steps` steps of OnAdd. */
  ghost function CreateSteps(s: Store, c: Cluster, steps: int): Store
    requires 0 <= steps <= STEPS
  {
    if steps == 0 then s else CreateStep(CreateSteps(s, c, steps - 1), c, steps - 1)
  }

  /** The first `steps` steps of OnUpdate. */
  ghost function UpdateSteps(s: Store, c: Cluster, steps: int): Store
    requires 0 <= steps <= STEPS
  {
    if steps == 0 then s else UpdateStep(UpdateSteps(s, c, steps - 1), c, steps - 1)
  }

  ghost predicate HasSlot(s: Store, c: Cluster, j: int)
    requires 0 <= j < STEPS
  {
    Lookup(s, SlotKey(c, j)).Some?
  }

  /** What OnUpdate needs to find for the steps from `from` up to `to`: all but the TServer UI service. */
  ghost predicate HasSlots(s: Store, c: Cluster, from: int, to: int)
    requires 0 <= from <= to <= STEPS
  {
    forall j | from <= j < to && j != 3 :: HasSlot(s, c, j)
  }

  ghost predicate Complete(s: Store, c: Cluster) {
    HasSlots(s, c, 0, STEPS)
  }

  // ---------- steps act on their own slots only ----------

  ghost predicate Outside(key: Key, c: Cluster) {
    forall j | 0 <= j < STEPS :: key != SlotKey(c, j)
  }

  lemma UpdateStepSlots(s: Store, c: Cluster, i: int, j: int)
    requires 0 <= i < STEPS && 0 <= j < STEPS
    ensures i != j ==> Lookup(UpdateStep(s, c, i), SlotKey(c, j)) == Lookup(s, SlotKey(c, j))
    ensures i == j ==> Lookup(UpdateStep(s, c, i), SlotKey(c, j)) == Updated(Lookup(s, SlotKey(c, j)), c, j)
  {
    if i != j {
      SlotKeysDiffer(c, i, j);
    }
  }

  lemma {:induction false} UpdateStepsSlots(s: Store, c: Cluster, steps: int, j: int)
    requires 0 <= steps <= STEPS && 0 <= j < STEPS
    ensures Lookup(UpdateSteps(s, c, steps), SlotKey(c, j)) ==
      var x := Lookup(s, SlotKey(c, j)); if j < steps then Updated(x, c, j) else x
    decreases steps
  {
    if steps > 0 {
      UpdateStepsSlots(s, c, steps - 1, j);
      UpdateStepSlots(UpdateSteps(s, c, steps - 1), c, steps - 1, j);
    }
  }

  lemma {:induction false} UpdateStepsOutside(s: Store, c: Cluster, steps: int, key: Key)
    requires 0 <= steps <= STEPS && Outside(key, c)
    ensures Lookup(UpdateSteps(s, c, steps), key) == Lookup(s, key)
    decreases steps
  {
    if steps > 0 {
      UpdateStepsOutside(s, c, steps - 1, key);
    }
  }

  lemma CreateStepSlots(s: Store, c: Cluster, i: int, j: int)
    requires 0 <= i < STEPS && 0 <= j < STEPS
    ensures i != j ==> Lookup(CreateStep(s, c, i), SlotKey(c, j)) == Lookup(s, SlotKey(c, j))
    ensures i == j ==> Lookup(CreateStep(s, c, i), SlotKey(c, j)) == Created(Lookup(s, SlotKey(c, j)), c, j)
  {
    if i != j {
      SlotKeysDiffer(c, i, j);
    }
  }

  lemma {:induction false} CreateStepsSlots(s: Store, c: Cluster, steps: int, j: int)
    requires 0 <= steps <= STEPS && 0 <= j < STEPS
    ensures Lookup(CreateSteps(s, c, steps), SlotKey(c, j)) ==
      var x := Lookup(s, SlotKey(c, j)); if j < steps then Created(x, c, j) else x
    decreases steps
  {
    if steps > 0 {
      var u := CreateSteps(s, c, steps - 1);
      CreateStepsSlots(s, c, steps - 1, j);
      CreateStepSlots(u, c, steps - 1, j);
      assert CreateSteps(s, c, steps) == CreateStep(u, c, steps - 1);
    }
  }

  lemma {:induction false} CreateStepsOutside(s: Store, c: Cluster, steps: int, key: Key)
    requires 0 <= steps <= STEPS && Outside(key, c)
    ensures Lookup(CreateSteps(s, c, steps), key) == Lookup(s, key)
    decreases steps
  {
    if steps > 0 {
      CreateStepsOutside(s, c, steps - 1, key);
    }
  }

  /** Two stores that agree slot by slot and everywhere else are one store. */
  lemma SameSlotsSameStore(s: Store, t: Store, c: Cluster)
    requires forall j | 0 <= j < STEPS :: Lookup(s, SlotKey(c, j)) == Lookup(t, SlotKey(c, j))
    requires forall key | Outside(key, c) :: Lookup(s, key) == Lookup(t, key)
    ensures s == t
  {
    SameLookupsSameStore(s, t);
  }

  // ---------- histories of runs ----------

  /** One call of a handler, complete or not: the spec it carried and how many steps took effect. OnAdd is
      called again for a resource that exists whenever the operator restarts. */
  datatype Attempt = Adding(cluster: Cluster, steps: int) | Updating(cluster: Cluster, steps: int)

  /** All attempts are for the same custom resource; a spec may change in any other way. */
  ghost predicate SameResource(c: Cluster, d: Cluster) {
    c.name == d.name && c.namespace == d.namespace && c.uid == d.uid
  }

  ghost predicate AttemptOn(c: Cluster, a: Attempt) {
    0 <= a.steps <= STEPS && SameResource(a.cluster, c)
  }

  ghost predicate AttemptsOn(c: Cluster, attempts: seq<Attempt>) {
    forall k | 0 <= k < |attempts| :: AttemptOn(c, attempts[k])
  }

  ghost function Effect(s: Store, a: Attempt): Store
    requires 0 <= a.steps <= STEPS
  {
    if a.Adding? then CreateSteps(s, a.cluster, a.steps) else UpdateSteps(s, a.cluster, a.steps)
  }

  ghost function After(s: Store, attempts: seq<Attempt>): Store
    requires forall k | 0 <= k < |attempts| :: 0 <= attempts[k].steps <= STEPS
  {
    if attempts == [] then s else Effect(After(s, attempts[..|attempts|-1]), attempts[|attempts|-1])
  }

  /** Some OnAdd did all its steps. */
  ghost predicate SomeAddDone(attempts: seq<Attempt>) {
    exists k :: 0 <= k < |attempts| && attempts[k] == Adding(attempts[k].cluster, STEPS)
  }

  lemma AfterOneMore(s: Store, c: Cluster, attempts: seq<Attempt>, a: Attempt)
    requires AttemptsOn(c, attempts) && AttemptOn(c, a)
    ensures AttemptsOn(c, attempts + [a])
    ensures After(s, attempts + [a]) == Effect(After(s, attempts), a)
  {
    assert (attempts + [a])[..|attempts|] == attempts;
  }

  lemma {:induction false} AfterFirst(s: Store, c: Cluster, a: Attempt, attempts: seq<Attempt>)
    requires AttemptOn(c, a) && AttemptsOn(c, attempts)
    ensures AttemptsOn(c, [a] + attempts)
    ensures After(s, [a] + attempts) == After(Effect(s, a), attempts)
  {
    if attempts == [] {
      AfterOneMore(s, c, [], a);
    } else {
      var init, last := attempts[..|attempts|-1], attempts[|attempts|-1];
      AfterFirst(s, c, a, init);
      AfterOneMore(s, c, [a] + init, last);
      assert [a] + attempts == [a] + init + [last];
    }
  }

  lemma SameResourceSameSlots(c: Cluster, d: Cluster)
    requires SameResource(c, d)
    ensures forall j | 0 <= j < STEPS :: SlotKey(c, j) == SlotKey(d, j)
    ensures forall key :: Outside(key, c) <==> Outside(key, d)
  {
    assert forall j | 0 <= j < STEPS :: SlotKey(c, j) == SlotKey(d, j);
  }

  /** What an attempt does to its slot j. */
  ghost function SlotEffect(x: Option<Object>, a: Attempt, j: int): Option<Object>
    requires 0 <= j < STEPS && Typed(SlotKey(a.cluster, j), x)
  {
    if j >= a.steps then x else if a.Adding? then Created(x, a.cluster, j) else Updated(x, a.cluster, j)
  }

  lemma EffectOnSlot(s: Store, c: Cluster, a: Attempt, j: int)
    requires AttemptOn(c, a) && 0 <= j < STEPS
    ensures SlotKey(a.cluster, j) == SlotKey(c, j)
    ensures Lookup(Effect(s, a), SlotKey(c, j)) == SlotEffect(Lookup(s, SlotKey(c, j)), a, j)
  {
    SameResourceSameSlots(a.cluster, c);
    if a.Adding? {
      CreateStepsSlots(s, a.cluster, a.steps, j);
    } else {
      UpdateStepsSlots(s, a.cluster, a.steps, j);
    }
  }

  lemma EffectOutside(s: Store, c: Cluster, a: Attempt, key: Key)
    requires AttemptOn(c, a) && Outside(key, c)
    ensures Lookup(Effect(s, a), key) == Lookup(s, key)
  {
    SameResourceSameSlots(a.cluster, c);
    if a.Adding? {
      CreateStepsOutside(s, a.cluster, a.steps, key);
    } else {
      UpdateStepsOutside(s, a.cluster, a.steps, key);
    }
  }

  /** No history of runs, complete or aborted, touches anything but the six objects of its own cluster. */
  lemma {:induction false} RunsAreFramed(s: Store, c: Cluster, attempts: seq<Attempt>, key: Key)
    requires AttemptsOn(c, attempts) && Outside(key, c)
    ensures Lookup(After(s, attempts), key) == Lookup(s, key)
  {
    if attempts != [] {
      RunsAreFramed(s, c, attempts[..|attempts|-1], key);
      EffectOutside(After(s, attempts[..|attempts|-1]), c, attempts[|attempts|-1], key);
    }
  }

  // ---------- convergence after partial failure ----------

  lemma UpdatedTwice(x: Option<Object>, c: Cluster, j: int)
    requires 0 <= j < STEPS && Typed(SlotKey(c, j), x)
    ensures Typed(SlotKey(c, j), Updated(x, c, j)) && Updated(Updated(x, c, j), c, j) == Updated(x, c, j)
  {
  }

  ghost predicate UpdatesWith(c: Cluster, attempts: seq<Attempt>) {
    AttemptsOn(c, attempts) && forall k | 0 <= k < |attempts| :: attempts[k].Updating? && attempts[k].cluster == c
  }

  lemma {:induction false} RetriesKeepTarget(s: Store, c: Cluster, attempts: seq<Attempt>, j: int)
    requires UpdatesWith(c, attempts) && 0 <= j < STEPS
    ensures Updated(Lookup(After(s, attempts), SlotKey(c, j)), c, j) == Updated(Lookup(s, SlotKey(c, j)), c, j)
  {
    if attempts != [] {
      var u := After(s, attempts[..|attempts|-1]);
      RetriesKeepTarget(s, c, attempts[..|attempts|-1], j);
      EffectOnSlot(u, c, attempts[|attempts|-1], j);
      UpdatedTwice(Lookup(u, SlotKey(c, j)), c, j);
    }
  }

  /** Any number of attempts at one spec, each aborted anywhere, and then a complete one leave the store a
      single uninterrupted attempt would have left. */
  lemma RetryConverges(s: Store, c: Cluster, attempts: seq<Attempt>)
    requires UpdatesWith(c, attempts)
    ensures UpdateSteps(After(s, attempts), c, STEPS) == UpdateSteps(s, c, STEPS)
    ensures Complete(s, c) <==> Complete(After(s, attempts), c)
  {
    var u := After(s, attempts);
    forall j | 0 <= j < STEPS
      ensures Lookup(UpdateSteps(u, c, STEPS), SlotKey(c, j)) == Lookup(UpdateSteps(s, c, STEPS), SlotKey(c, j))
      ensures j != 3 ==> (HasSlot(u, c, j) <==> HasSlot(s, c, j))
    {
      RetriesKeepTarget(s, c, attempts, j);
      UpdateStepsSlots(u, c, STEPS, j);
      UpdateStepsSlots(s, c, STEPS, j);
    }
    forall key | Outside(key, c)
      ensures Lookup(UpdateSteps(u, c, STEPS), key) == Lookup(UpdateSteps(s, c, STEPS), key)
    {
      RunsAreFramed(s, c, attempts, key);
      UpdateStepsOutside(u, c, STEPS, key);
      UpdateStepsOutside(s, c, STEPS, key);
    }
    SameSlotsSameStore(UpdateSteps(u, c, STEPS), UpdateSteps(s, c, STEPS), c);
  }

  ghost predicate AddsWith(c: Cluster, attempts: seq<Attempt>) {
    AttemptsOn(c, attempts) && forall k | 0 <= k < |attempts| :: attempts[k].Adding? && attempts[k].cluster == c
  }

  lemma {:induction false} AddsKeepTarget(s: Store, c: Cluster, attempts: seq<Attempt>, j: int)
    requires AddsWith(c, attempts) && 0 <= j < STEPS
    ensures Created(Lookup(After(s, attempts), SlotKey(c, j)), c, j) == Created(Lookup(s, SlotKey(c, j)), c, j)
  {
    if attempts != [] {
      AddsKeepTarget(s, c, attempts[..|attempts|-1], j);
      EffectOnSlot(After(s, attempts[..|attempts|-1]), c, attempts[|attempts|-1], j);
    }
  }

  /** OnAdd converges too: what any number of aborted attempts created is found and kept. */
  lemma AddConverges(s: Store, c: Cluster, attempts: seq<Attempt>)
    requires AddsWith(c, attempts)
    ensures CreateSteps(After(s, attempts), c, STEPS) == CreateSteps(s, c, STEPS)
  {
    var u := After(s, attempts);
    forall j | 0 <= j < STEPS
      ensures Lookup(CreateSteps(u, c, STEPS), SlotKey(c, j)) == Lookup(CreateSteps(s, c, STEPS), SlotKey(c, j))
    {
      AddsKeepTarget(s, c, attempts, j);
      CreateStepsSlots(u, c, STEPS, j);
      CreateStepsSlots(s, c, STEPS, j);
    }
    forall key | Outside(key, c)
      ensures Lookup(CreateSteps(u, c, STEPS), key) == Lookup(CreateSteps(s, c, STEPS), key)
    {
      RunsAreFramed(s, c, attempts, key);
      CreateStepsOutside(u, c, STEPS, key);
      CreateStepsOutside(s, c, STEPS, key);
    }
    SameSlotsSameStore(CreateSteps(u, c, STEPS), CreateSteps(s, c, STEPS), c);
  }

  // ---------- path independence ----------

  /** The store a successful OnAdd leaves in an empty namespace. */
  ghost function FreshStore(c: Cluster): Store {
    CreateSteps(EMPTY, c, STEPS)
  }

  /** The spec an updated cluster shows: annotations are only ever written at creation, and the update path
      takes the TServer's resources from the Master. */
  function AsUpdated(first: Cluster, last: Cluster): Cluster {
    last.(annotations := first.annotations, tserver := last.tserver.(resource := last.master.resource))
  }

  /** A slot that OnAdd(first) and later runs for this resource have produced: whatever the history, the next
      completed update with any spec makes it what a fresh cluster would have. */
  ghost predicate Managed(x: Option<Object>, first: Cluster, j: int)
    requires 0 <= j < STEPS
  {
    && Typed(SlotKey(first, j), x)
    && (j != 3 ==> x.Some?)
    && forall d | SameResource(d, first) :: Updated(x, d, j) == Fresh(AsUpdated(first, d), j)
  }

  lemma StatefulSetIsManaged(first: Cluster, d: Cluster, isTServer: bool)
    requires SameResource(d, first)
    ensures UpdateSts(CreateSts(first, isTServer), d, isTServer) == CreateSts(AsUpdated(first, d), isTServer)
  {
  }

  lemma ServicesAreManaged(first: Cluster, d: Cluster, isTServer: bool)
    requires SameResource(d, first)
    ensures UpdateHeadless(CreateHeadless(first, isTServer), d, isTServer) ==
      CreateHeadless(AsUpdated(first, d), isTServer)
    ensures UpdateUI(CreateUI(first, isTServer), d, isTServer) == CreateUI(AsUpdated(first, d), isTServer)
  {
  }

  lemma FreshUpdates(first: Cluster, d: Cluster, j: int)
    requires 0 <= j < STEPS && SameResource(d, first)
    ensures Updated(Fresh(first, j), d, j) == Fresh(AsUpdated(first, d), j)
  {
    if j < 4 {
      ServicesAreManaged(first, d, j == 1 || j == 3);
    } else {
      StatefulSetIsManaged(first, d, j == 5);
    }
  }

  lemma FreshIsManaged(first: Cluster, j: int)
    requires 0 <= j < STEPS
    ensures Managed(Fresh(first, j), first, j)
  {
    forall d | SameResource(d, first)
      ensures Updated(Fresh(first, j), d, j) == Fresh(AsUpdated(first, d), j)
    {
      FreshUpdates(first, d, j);
    }
  }

  /** The two builders agree: updating what an update left is the same as updating what creation left. */
  lemma UpdatedIsManaged(x: Option<Object>, first: Cluster, c: Cluster, j: int)
    requires 0 <= j < STEPS && SameResource(c, first) && Managed(x, first, j)
    ensures Managed(Updated(x, c, j), first, j)
  {
    var e := AsUpdated(first, c);
    assert Updated(x, c, j) == Fresh(e, j);
    FreshIsManaged(e, j);
    forall d | SameResource(d, first)
      ensures Updated(Fresh(e, j), d, j) == Fresh(AsUpdated(first, d), j)
    {
      assert SameResource(d, e);
      assert AsUpdated(e, d) == AsUpdated(first, d);
    }
  }

  /** The TServer UI service shows no trace of who created it, and may be missing. */
  lemma UIIsManaged(x: Option<Object>, c: Cluster, d: Cluster)
    requires SameResource(c, d)
    ensures Managed(None, c, 3)
    ensures Managed(x, c, 3) <==> Managed(x, d, 3)
  {
    forall e | SameResource(e, c)
      ensures SameResource(e, d) && Fresh(AsUpdated(c, e), 3) == Fresh(e, 3) == Fresh(AsUpdated(d, e), 3)
    {
    }
  }

  /** The spec of the first OnAdd that came as far as slot j. */
  ghost function Creator(attempts: seq<Attempt>, j: int): Option<Cluster> {
    if attempts == [] then None
    else
      var earlier, a := Creator(attempts[..|attempts|-1], j), attempts[|attempts|-1];
      if earlier.Some? then earlier else if a.Adding? && j < a.steps then Some(a.cluster) else None
  }

  lemma {:induction false} CreatorIsFirst(attempts: seq<Attempt>, j: int)
    ensures Creator(attempts, j).Some? <==>
      exists k :: 0 <= k < |attempts| && attempts[k].Adding? && j < attempts[k].steps
    ensures attempts != [] && attempts[0].Adding? && j < attempts[0].steps ==>
      Creator(attempts, j) == Some(attempts[0].cluster)
  {
    if attempts != [] {
      var init, a := attempts[..|attempts|-1], attempts[|attempts|-1];
      CreatorIsFirst(init, j);
      assert forall k | 0 <= k < |init| :: attempts[k] == init[k];
      if Creator(init, j).Some? {
        var k :| 0 <= k < |init| && init[k].Adding? && j < init[k].steps;
        assert attempts[k] == init[k];
      }
    }
  }

  /** The state of slot j after a history that began in an empty namespace: nothing before the first OnAdd
      that came so far, and managed from then on. The TServer UI service is always managed. */
  ghost predicate SlotInHistory(x: Option<Object>, c: Cluster, attempts: seq<Attempt>, j: int)
    requires 0 <= j < STEPS
  {
    var a := Creator(attempts, j);
    && (a.Some? ==> SameResource(a.value, c))
    && if j == 3 then Managed(x, c, 3) else if a.Some? then Managed(x, a.value, j) else x == None
  }

  lemma UpdatingStep(x: Option<Object>, c: Cluster, first: Cluster, a: Attempt, j: int)
    requires 0 <= j < STEPS && AttemptOn(c, a) && SameResource(first, c) && Managed(x, first, j)
    requires j == 3 || !a.Adding?
    ensures Typed(SlotKey(a.cluster, j), x) && Managed(SlotEffect(x, a, j), first, j)
  {
    SameResourceSameSlots(a.cluster, first);
    if j < a.steps && a.Updating? {
      UpdatedIsManaged(x, first, a.cluster, j);
    } else if j < a.steps && x.None? {
      FreshIsManaged(a.cluster, 3);
      UIIsManaged(Fresh(a.cluster, 3), a.cluster, first);
    }
  }

  lemma SlotInHistoryStep(x: Option<Object>, c: Cluster, attempts: seq<Attempt>, a: Attempt, j: int)
    requires 0 <= j < STEPS && AttemptOn(c, a) && SlotInHistory(x, c, attempts, j)
    ensures Typed(SlotKey(a.cluster, j), x) && SlotInHistory(SlotEffect(x, a, j), c, attempts + [a], j)
  {
    assert (attempts + [a])[..|attempts|] == attempts;
    var creator := Creator(attempts, j);
    SameResourceSameSlots(a.cluster, c);
    if j == 3 {
      UpdatingStep(x, c, c, a, 3);
    } else if creator.None? {
      if a.Adding? && j < a.steps {
        FreshIsManaged(a.cluster, j);
      }
    } else if a.Updating? {
      UpdatingStep(x, c, creator.value, a, j);
    } else {
      SameResourceSameSlots(creator.value, c);
    }
  }

  lemma {:induction false} SlotsInHistory(c: Cluster, attempts: seq<Attempt>, j: int)
    requires AttemptsOn(c, attempts) && 0 <= j < STEPS
    ensures SlotInHistory(Lookup(After(EMPTY, attempts), SlotKey(c, j)), c, attempts, j)
  {
    if attempts == [] {
      UIIsManaged(None, c, c);
    } else {
      var init, a := attempts[..|attempts|-1], attempts[|attempts|-1];
      SlotsInHistory(c, init, j);
      EffectOnSlot(After(EMPTY, init), c, a, j);
      SlotInHistoryStep(Lookup(After(EMPTY, init), SlotKey(c, j)), c, init, a, j);
      assert init + [a] == attempts;
    }
  }

  /** Only a completed creation makes a cluster that can be updated: after any history that began in an empty
      namespace, what OnUpdate needs is there exactly when some OnAdd in it did all its steps. */
  lemma CompleteIffSomeAddWas(c: Cluster, attempts: seq<Attempt>, d: Cluster)
    requires AttemptsOn(c, attempts) && SameResource(d, c)
    ensures Complete(After(EMPTY, attempts), d) <==> SomeAddDone(attempts)
  {
    var u := After(EMPTY, attempts);
    SameResourceSameSlots(d, c);
    forall j | 0 <= j < STEPS && j != 3
      ensures HasSlot(u, d, j) <==> exists k :: 0 <= k < |attempts| && attempts[k].Adding? && j < attempts[k].steps
    {
      SlotsInHistory(c, attempts, j);
      CreatorIsFirst(attempts, j);
    }
    if Complete(u, d) {
      assert HasSlot(u, d, 5);
      var k :| 0 <= k < |attempts| && attempts[k].Adding? && 5 < attempts[k].steps;
      assert attempts[k] == Adding(attempts[k].cluster, STEPS);
    }
    if k :| 0 <= k < |attempts| && attempts[k] == Adding(attempts[k].cluster, STEPS) {
      assert attempts[k].Adding? && 5 < attempts[k].steps;
    }
  }

  lemma {:induction false} OnlyTheFirstAdds(first: Attempt, updates: seq<Attempt>)
    requires first.Adding? && forall k | 0 <= k < |updates| :: updates[k].Updating?
    ensures SomeAddDone([first] + updates) <==> first.steps == STEPS
  {
    var attempts := [first] + updates;
    assert attempts[0] == first;
    assert forall k | 1 <= k < |attempts| :: attempts[k] == updates[k-1];
  }

  /** In particular an OnAdd that failed half-way is never repaired by updates, however many and of whatever
      specs: no OnUpdate will find what it needs. */
  lemma {:induction false} AbortedAddIsNotRepaired(first: Cluster, steps: int, updates: seq<Attempt>, last: Cluster)
    requires 0 <= steps <= STEPS && AttemptsOn(first, updates) && SameResource(last, first)
    requires forall k | 0 <= k < |updates| :: updates[k].Updating?
    ensures Complete(After(CreateSteps(EMPTY, first, steps), updates), last) <==> steps == STEPS
  {
    var add := Adding(first, steps);
    AfterFirst(EMPTY, first, add, updates);
    CompleteIffSomeAddWas(first, [add] + updates, last);
    OnlyTheFirstAdds(add, updates);
  }

  /** Whatever mix of creations and updates came before, complete or aborted, one complete OnUpdate(last)
      leaves in every slot what a fresh OnAdd would create there for the last spec, with the annotations of
      the OnAdd that created the object and the TServer resources of the Master. */
  lemma SlotsFollowLastSpec(c: Cluster, attempts: seq<Attempt>, last: Cluster, j: int)
    requires AttemptsOn(c, attempts) && SameResource(last, c) && 0 <= j < STEPS
    requires Complete(After(EMPTY, attempts), last)
    ensures Creator(attempts, j).Some?
    ensures Lookup(UpdateSteps(After(EMPTY, attempts), last, STEPS), SlotKey(last, j)) ==
      Fresh(AsUpdated(Creator(attempts, j).value, last), j)
  {
    var u := After(EMPTY, attempts);
    CompleteIffSomeAddWas(c, attempts, last);
    CreatorIsFirst(attempts, j);
    var first := Creator(attempts, j).value;
    SlotsInHistory(c, attempts, j);
    SameResourceSameSlots(last, c);
    UpdateStepsSlots(u, last, STEPS, j);
    if j == 3 {
      UIIsManaged(Lookup(u, SlotKey(c, 3)), c, first);
    }
  }

  /** Path independence: after a complete OnAdd(first) in an empty namespace and any history of runs, complete
      or aborted, one complete OnUpdate(last) leaves exactly what a fresh OnAdd would create for the last
      spec, with the annotations of the first and the TServer resources of the Master. */
  lemma PathIndependence(first: Cluster, attempts: seq<Attempt>, last: Cluster)
    requires AttemptsOn(first, attempts) && SameResource(last, first)
    ensures Complete(After(FreshStore(first), attempts), last)
    ensures UpdateSteps(After(FreshStore(first), attempts), last, STEPS) == FreshStore(AsUpdated(first, last))
  {
    var u, e := After(FreshStore(first), attempts), AsUpdated(first, last);
    var all := [Adding(first, STEPS)] + attempts;
    AfterFirst(EMPTY, first, Adding(first, STEPS), attempts);
    assert all[0] == Adding(first, STEPS) && SomeAddDone(all);
    CompleteIffSomeAddWas(first, all, last);
    forall j | 0 <= j < STEPS
      ensures Lookup(UpdateSteps(u, last, STEPS), SlotKey(last, j)) == Lookup(FreshStore(e), SlotKey(last, j))
    {
      SlotsFollowLastSpec(first, all, last, j);
      CreatorIsFirst(all, j);
      SameResourceSameSlots(last, e);
      CreateStepsSlots(EMPTY, e, STEPS, j);
    }
    SameOutside(first, all, last, e);
    SameSlotsSameStore(UpdateSteps(u, last, STEPS), FreshStore(e), last);
  }

  lemma PathIndependenceFromFirst(attempts: seq<Attempt>, last: Cluster)
    requires attempts != [] && attempts[0] == Adding(attempts[0].cluster, STEPS)
    requires AttemptsOn(attempts[0].cluster, attempts) && SameResource(last, attempts[0].cluster)
    ensures UpdateSteps(After(EMPTY, attempts), last, STEPS) == FreshStore(AsUpdated(attempts[0].cluster, last))
  {
    var first, rest := attempts[0].cluster, attempts[1..];
    assert [attempts[0]] + rest == attempts;
    AfterFirst(EMPTY, first, attempts[0], rest);
    PathIndependence(first, rest, last);
  }

  lemma SameOutside(first: Cluster, attempts: seq<Attempt>, last: Cluster, e: Cluster)
    requires AttemptsOn(first, attempts) && SameResource(last, first) && SameResource(last, e)
    ensures forall key | Outside(key, last) ::
      Lookup(UpdateSteps(After(EMPTY, attempts), last, STEPS), key) == Lookup(FreshStore(e), key)
  {
    SameResourceSameSlots(last, first);
    SameResourceSameSlots(last, e);
    forall key | Outside(key, last)
      ensures Lookup(UpdateSteps(After(EMPTY, attempts), last, STEPS), key) == Lookup(FreshStore(e), key)
    {
      UpdateStepsOutside(After(EMPTY, attempts), last, STEPS, key);
      RunsAreFramed(EMPTY, first, attempts, key);
      CreateStepsOutside(EMPTY, e, STEPS, key);
    }
  }

  // ---------- when the store depends on the last spec alone ----------

  lemma FreshStoreSlots(c: Cluster, j: int)
    requires 0 <= j < STEPS
    ensures Lookup(FreshStore(c), SlotKey(c, j)) == Fresh(c, j)
  {
    CreateStepsSlots(EMPTY, c, STEPS, j);
  }

  ghost predicate SameTServerResources(e: Cluster, f: Cluster) {
    GetResourceSpec(e.tserver.resource, true) == GetResourceSpec(f.tserver.resource, true)
  }

  /** Fresh clusters show their annotations and the TServer's effective resources. */
  lemma TServerShows(e: Cluster, f: Cluster)
    requires f == e.(annotations := f.annotations, tserver := e.tserver.(resource := f.tserver.resource))
    ensures CreateSts(e, true) == CreateSts(f, true) <==> e.annotations == f.annotations && SameTServerResources(e, f)
  {
    var a, b := CreateSts(e, true), CreateSts(f, true);
    assert a.annotations == e.annotations && b.annotations == f.annotations;
    assert a.container.resources == GetResourceSpec(e.tserver.resource, true);
    assert b.container.resources == GetResourceSpec(f.tserver.resource, true);
  }

  lemma MasterShows(e: Cluster, f: Cluster)
    requires f == e.(annotations := f.annotations, tserver := e.tserver.(resource := f.tserver.resource))
    ensures e.annotations == f.annotations ==> CreateSts(e, false) == CreateSts(f, false)
  {
  }

  lemma ServicesShowNothing(e: Cluster, f: Cluster)
    requires f == e.(annotations := f.annotations, tserver := e.tserver.(resource := f.tserver.resource))
    ensures forall j | 0 <= j < 4 :: Fresh(e, j) == Fresh(f, j)
  {
  }

  lemma FreshShows(e: Cluster, f: Cluster, j: int)
    requires 0 <= j < STEPS
      && f == e.(annotations := f.annotations, tserver := e.tserver.(resource := f.tserver.resource))
    ensures e.annotations == f.annotations && SameTServerResources(e, f) ==> Fresh(e, j) == Fresh(f, j)
    ensures j == 5 && Fresh(e, j) == Fresh(f, j) ==> e.annotations == f.annotations && SameTServerResources(e, f)
  {
    if j < 4 {
      ServicesShowNothing(e, f);
    } else {
      TServerShows(e, f);
      MasterShows(e, f);
    }
  }

  lemma FreshStoresEqual(e: Cluster, f: Cluster)
    requires f == e.(annotations := f.annotations, tserver := e.tserver.(resource := f.tserver.resource))
    ensures FreshStore(e) == FreshStore(f) <==> e.annotations == f.annotations && SameTServerResources(e, f)
  {
    SameResourceSameSlots(e, f);
    forall j | 0 <= j < STEPS
      ensures Lookup(FreshStore(e), SlotKey(e, j)) == Fresh(e, j) && Lookup(FreshStore(f), SlotKey(e, j)) == Fresh(f, j)
    {
      FreshStoreSlots(e, j);
      FreshStoreSlots(f, j);
    }
    FreshShows(e, f, 5);
    if e.annotations == f.annotations && SameTServerResources(e, f) {
      forall j | 0 <= j < STEPS
        ensures Fresh(e, j) == Fresh(f, j)
      {
        FreshShows(e, f, j);
      }
      forall key | Outside(key, e)
        ensures Lookup(FreshStore(e), key) == Lookup(FreshStore(f), key)
      {
        CreateStepsOutside(EMPTY, e, STEPS, key);
        CreateStepsOutside(EMPTY, f, STEPS, key);
      }
      SameSlotsSameStore(FreshStore(e), FreshStore(f), e);
    }
  }

  /** The store depends on the last spec alone exactly when that spec has the annotations of the first and
      gives the Master's and the TServer's resources the same effective value. */
  lemma HistoryIsForgottenIff(first: Cluster, attempts: seq<Attempt>, last: Cluster)
    requires AttemptsOn(first, attempts) && SameResource(last, first)
    ensures UpdateSteps(After(FreshStore(first), attempts), last, STEPS) == FreshStore(last)
       <==> first.annotations == last.annotations
            && GetResourceSpec(last.master.resource, true) == GetResourceSpec(last.tserver.resource, true)
  {
    PathIndependence(first, attempts, last);
    FreshStoresEqual(AsUpdated(first, last), last);
  }

  /** A cluster whose TServers have a memory limit and whose Masters have none. */
  function LimitedTServers(): Cluster {
    var limits := map["memory" := Quantity("8Gi", 0x2_0000_0000, true)];
    var claim := VolumeClaim("datadir", "1Gi");
    Cluster("hello-ybdb", "rook-yugabytedb", "1", map[],
      ServerSpec(3, Resources(map["cpu" := CPU_DEFAULT], map[]), [], claim),
      ServerSpec(3, Resources(map[], limits), [], claim))
  }

  /** The resources of the TServers' containers, if there are any. */
  ghost function TServerResources(s: Store, c: Cluster): Option<Resources> {
    match Lookup(s, SlotKey(c, 5))
    case Some(Sts(x)) => Some(x.container.resources)
    case _ => None
  }

  /** Created with the TServer's resources, the containers have the Master's from the first update on. */
  lemma TServerResourcesFollowMaster(c: Cluster)
    ensures TServerResources(FreshStore(c), c) == Some(GetResourceSpec(c.tserver.resource, true))
    ensures TServerResources(UpdateSteps(FreshStore(c), c, STEPS), c) == Some(GetResourceSpec(c.master.resource, true))
  {
    FreshStoreSlots(c, 5);
    UpdateStepsSlots(FreshStore(c), c, STEPS, 5);
  }

  /** An OnUpdate that changes nothing in this cluster's spec takes the limit away. */
  lemma UnchangedSpecDropsTheLimit()
    ensures var c := LimitedTServers(); var before, after := FreshStore(c), UpdateSteps(FreshStore(c), c, STEPS);
      && TServerResources(before, c).Some? && "memory" in TServerResources(before, c).value.limits
      && TServerResources(after, c).Some? && "memory" !in TServerResources(after, c).value.limits
      && after != before
  {
    var c := LimitedTServers();
    TServerResourcesFollowMaster(c);
    assert |c.master.resource.requests| == 1 && |c.tserver.resource.limits| == 1;
  }

  /** Whatever came before, after a complete update the TServer UI service exists iff the spec has a port for it. */
  lemma TServerUIFollowsLastSpec(s: Store, c: Cluster)
    ensures Lookup(UpdateSteps(s, c, STEPS), SlotKey(c, 3)).Some? <==> WantsTServerUI(c)
  {
    UpdateStepsSlots(s, c, STEPS, 3);
  }
}
