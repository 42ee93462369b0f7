# Rook operator logic, modelled and proved in Dafny

This project models the parts of the vendored Rook tree (`cluster/on-premise/rook`) whose correctness is a
statement about all inputs or all runs, and proves those statements. `dafny verify dfyconfig.toml` checks
everything.

| files | what they model |
|---|---|
| `YugabyteObjects`, `YugabyteStore`, `YugabyteController`, `YugabyteWiring` | the YugabyteDB controller: builders, the six API objects as slots of a store, `OnAdd`/`OnUpdate` against an API server that may fail any call, and what the objects have to do with one another and the spec |
| `CephHealth`, `UpgradeProtocol`, `UpgradeSafety`, `UpgradeTheorems`, `UpgradeOutcomes`, `UpgradeRunner` | rolling upgrades: the calls made as a function of how the cluster answers, safety of every run, exactly when checks, waits and upgrades succeed, and the imperative code proved to make exactly those calls |
| `UdevDebounce`, `DeviceLists`, `DeviceConfigMap` | the discovery daemon: event debouncer and probe loop, device-list equality, the cached config map |
| `StorageValues`, `StorageScope` | storage spec resolution: in-place updates over nodes, shared boolean cells and configuration maps |
| `DaemonNames` | bijective base-26 daemon names over 64-bit integers |
| `Strings`, `LsblkPairs`, `DevicePartitions`, `PoolDetails` | the lsblk parser, partition accounting, and the split of back-to-back JSON objects |
| `ByteUnits`, `CommandTimeout` | image size rounding, the two unit formatters, interrupt-then-kill |
| `Wrappers`, `MachineInts` | results, and Go's integer arithmetic |

How the outside world appears: an API call, a Ceph command, an `lsblk` or `udevadm` run is answered by a
parameter (a function of the call's number, or a value), so a theorem over all such parameters is a theorem over
all behaviours. JSON decoding is a parameter as well.

Where a promise of the code or its comments turned out not to hold everywhere, the model keeps the code and
proves exactly when the promise holds:

- An update takes the TServer's resources from the Master's spec, and writes no annotations. The store depends on the
  last spec alone exactly when that spec still has the first annotations and gives both servers the same effective
  resources (`HistoryIsForgottenIff`); an update with an unchanged spec can change the store
  (`UnchangedSpecDropsTheLimit`).
- An OnAdd that failed half-way is never repaired by updates (`AbortedAddIsNotRepaired`); only another OnAdd does.
- The TServers are told of the Masters by a list with one entry per TServer. It is the Masters' own list exactly when
  there are as many TServers as Masters (`TServersKnowTheMastersIff`).
- Device-list equality, the relation that is computed on two lists in the order they come in, is not reflexive,
  symmetric or transitive (`AmbiguityMatters`, `NotSymmetric`, `NotTransitive` show small lists). Each holds of given
  lists exactly under a condition on first matches (`EqualToItselfIff`, `SymmetricIff`, `TransitiveIff`).
- Its verdict can depend on the order of the new list. `EqualInEveryOrderIff`, `EqualInSomeOrderIff` and
  `NewOrderIrrelevantIff` say exactly when; `SelfEqualInEveryOrderIff`, `SymmetricInEveryOrderIff` and
  `TransitiveInEveryOrderIff` are about being equal in every order, a stronger relation.
- udev properties come back unchanged exactly when none holds an `=` or a newline (`UdevRoundTripIff`).
- `validateClusterSpec` computes a verdict on resource limits and drops it, so it is no part of `ValidSpec`.
- The comment on `UpdateDeploymentAndWait` describes one resource at a time with checks in between. The callback
  that Ceph daemons really use can skip or excuse the checks, and the loops over OSDs log an error and go on. An
  upgrade is safe against every cluster exactly when none of the three happens (`SafeIffStrict`).
- The pool comment promises a workaround for back-to-back objects; it works exactly for separable bodies, and a
  nested object at the end of any response but the last is mangled (`SplitIffSeparable`, `NestedObjectIsMangled`).
- The reported image size is at least the requested one exactly up to 2^64 - 2^20 bytes (`CreateImage`).
- A name's index comes back exactly for non-negative indices, and a name from its index exactly when it is
  non-empty, a-z, and small enough; the empty name reads as index 0, like `a`.
- The hard memory limit is 870/1024 of the pod's limit exactly when that is held as an int64 and the product fits 64
  bits, or is at most one byte (`MemoryLimitIsExact`); a limit such as 1.5Gi becomes 0 (`FractionalLimitIsLost`).
- A stored device list that does not parse is never replaced (`UnreadableStays`).

## Model

| member | source | states |
|---|---|---|
| YugabyteStore.PathIndependence | cluster/on-premise/rook/pkg/operator/yugabytedb/update_controller.go:26-252 | after OnAdd of a first spec in an empty namespace and any history of complete or aborted runs of both handlers with any specs, one complete OnUpdate leaves exactly the store a fresh OnAdd of the last spec creates, with the first annotations and the Master's resources for the TServer |
| YugabyteStore.SlotsFollowLastSpec | cluster/on-premise/rook/pkg/operator/yugabytedb/update_controller.go:26-252 | the same object by object after any history at all, even one whose first OnAdd was aborted: each object has the annotations of the OnAdd that created it |
| YugabyteStore.CompleteIffSomeAddWas | cluster/on-premise/rook/pkg/operator/yugabytedb/update_controller.go:26-28 | after any history OnUpdate finds what it needs if and only if some OnAdd did all its steps |
| YugabyteStore.AbortedAddIsNotRepaired | cluster/on-premise/rook/pkg/operator/yugabytedb/update_controller.go:26-28 | after an OnAdd that stopped at any step, no history of updates makes the next OnUpdate find what it needs, unless that OnAdd had done all its steps |
| YugabyteStore.HistoryIsForgottenIff | cluster/on-premise/rook/pkg/operator/yugabytedb/update_controller.go:206-242 | that store is the fresh one of the last spec if and only if the last spec has the annotations of the first and its Master and TServer resources have the same effective value |
| YugabyteStore.UnchangedSpecDropsTheLimit | cluster/on-premise/rook/pkg/operator/yugabytedb/update_controller.go:226-226 | a concrete cluster whose TServer containers have a memory limit before an update with an unchanged spec and none after it |
| YugabyteStore.RetryConverges | cluster/on-premise/rook/pkg/operator/yugabytedb/update_controller.go:39-78 | from any store, any number of attempts at one spec, each aborted after any step, followed by a complete one give the store of a single uninterrupted attempt |
| YugabyteStore.AddConverges | cluster/on-premise/rook/pkg/operator/yugabytedb/create_controller.go:43-74 | a complete OnAdd after any number of aborted ones of the same spec gives the store of a single uninterrupted one |
| YugabyteStore.UpdatedIsManaged | cluster/on-premise/rook/pkg/operator/yugabytedb/update_controller.go:192-252 | the update builders agree with the creation builders: whatever update came before, the next one makes each object what creation would have made |
| YugabyteStore.FreshIsManaged | cluster/on-premise/rook/pkg/operator/yugabytedb/create_controller.go:203-352 | the same for objects as creation left them |
| YugabyteStore.TServerUIFollowsLastSpec | cluster/on-premise/rook/pkg/operator/yugabytedb/update_controller.go:119-182 | after a complete update the TServer UI service exists if and only if the spec's TServer UI port is positive, whatever was there before |
| YugabyteStore.RunsAreFramed | cluster/on-premise/rook/pkg/operator/yugabytedb/controller.go:475-477 | no history of runs of either handler, complete or aborted, touches an object other than the six named after its own custom resource |
| YugabyteController.ClusterController.OnAdd | cluster/on-premise/rook/pkg/operator/yugabytedb/create_controller.go:28-74 | succeeds exactly when the spec is valid and no call failed; what it did is a prefix of the six creation steps; an invalid spec makes no call |
| YugabyteController.ClusterController.OnUpdate | cluster/on-premise/rook/pkg/operator/yugabytedb/update_controller.go:26-79 | succeeds exactly when the spec is valid, the objects it expects exist and no call failed; what it did is a prefix of the six update steps, also when a failed call took effect; an invalid spec makes no call |
| YugabyteController.ClusterController.Deliver | cluster/on-premise/rook/pkg/operator/yugabytedb/controller.go:140-149 | everything the watch delivers about one resource, in any order and with failures anywhere: the last OnUpdate succeeds only if some OnAdd did all its steps; if the first notice was an OnAdd that succeeded, the store is then the one path independence names |
| YugabyteController.ClusterController.DeliverLast | cluster/on-premise/rook/pkg/operator/yugabytedb/update_controller.go:26-79 | after any such history the last OnUpdate succeeds if and only if its spec is valid, no call of its own fails and some OnAdd did all its steps; every object is then the one path independence names |
| YugabyteController.ClusterController.DeliverAll | cluster/on-premise/rook/pkg/operator/yugabytedb/controller.go:140-149 | the store is the one the attempted runs leave, and a run that reported success did all its steps |
| YugabyteController.ClusterController.CreateHeadlessService | cluster/on-premise/rook/pkg/operator/yugabytedb/create_controller.go:148-193 | creates its slot's object or keeps an existing one; fails only when the call does |
| YugabyteController.ClusterController.CreateUIService | cluster/on-premise/rook/pkg/operator/yugabytedb/create_controller.go:85-138 | the same, and creates no TServer UI service without a port for it |
| YugabyteController.ClusterController.CreateStatefulSet | cluster/on-premise/rook/pkg/operator/yugabytedb/create_controller.go:203-268 | the same for the StatefulSets |
| YugabyteController.ClusterController.UpdateHeadlessService | cluster/on-premise/rook/pkg/operator/yugabytedb/update_controller.go:89-113 | rewrites the ports of an existing service and nothing else; fails without one |
| YugabyteController.ClusterController.UpdateUIService | cluster/on-premise/rook/pkg/operator/yugabytedb/update_controller.go:124-182 | creates, updates or deletes the TServer UI service as the port demands; only updates the Master's |
| YugabyteController.ClusterController.UpdateStatefulSet | cluster/on-premise/rook/pkg/operator/yugabytedb/update_controller.go:192-252 | rewrites replicas, command, resources, ports, mount and claims of an existing StatefulSet |
| YugabyteObjects.GetPortsFromSpec | cluster/on-premise/rook/pkg/operator/yugabytedb/controller.go:311-362 | errors exactly on an unknown port name; otherwise each port is the last entry of its name, zero or missing meaning the default, except for the TServer UI port |
| YugabyteObjects.ValidateClusterSpec | cluster/on-premise/rook/pkg/operator/yugabytedb/controller.go:160-190 | accepts exactly positive replica counts with known port names |
| YugabyteObjects.ServicePortsReachContainers | cluster/on-premise/rook/pkg/operator/yugabytedb/controller.go:224-281 | every service port forwards to a port the containers open, at creation and after an update |
| YugabyteObjects.UIServiceReachesContainers | cluster/on-premise/rook/pkg/operator/yugabytedb/controller.go:283-309 | a UI service forwards to the containers' UI port, and to nothing exactly when the TServer has no UI port |
| YugabyteObjects.GetMasterAddresses | cluster/on-premise/rook/pkg/operator/yugabytedb/controller.go:419-425 | joins one address per replica, in order |
| YugabyteObjects.MemoryLimitIsExact | cluster/on-premise/rook/pkg/operator/yugabytedb/controller.go:408-417 | the memory flag is 870/1024 of the limit, rounded down, if and only if the limit is at most one byte, or is held as an int64 and is at most MaxInt64/870 |
| YugabyteObjects.FractionalLimitIsLost | cluster/on-premise/rook/pkg/operator/yugabytedb/controller.go:408-417 | with a limit of 1.5Gi the flag is 0 |
| YugabyteObjects.TServersKnowTheMastersIff | cluster/on-premise/rook/pkg/operator/yugabytedb/update_controller.go:226-228 | in a valid spec, created or updated, the list of masters in the TServers' command is the one in the Masters' command if and only if there are as many TServers as Masters |
| YugabyteWiring.ServicesSelectThePods | cluster/on-premise/rook/pkg/operator/yugabytedb/create_controller.go:85-244 | both services of a server select exactly the label its pods carry, and its StatefulSet goes by that label and by the headless service |
| YugabyteWiring.ObjectsBelong | cluster/on-premise/rook/pkg/operator/yugabytedb/create_controller.go:85-268 | every object is stored under its own name, in the cluster's namespace, owned by the custom resource; only the TServer UI service may be missing |
| YugabyteWiring.UpdatesRewriteOnly | cluster/on-premise/rook/pkg/operator/yugabytedb/update_controller.go:89-252 | an update writes into any existing object exactly the fields that creation would have given the spec with the Master's resources, and leaves all else |
| YugabyteWiring.ExistingObjectsAreKept | cluster/on-premise/rook/pkg/operator/yugabytedb/create_controller.go:120-136 | no prefix of OnAdd changes an object that is already there |
| YugabyteWiring.TServerUIExistsIff | cluster/on-premise/rook/pkg/operator/yugabytedb/update_controller.go:144-171 | after a complete update, and in a fresh cluster, the TServer UI service exists if and only if the last entry for its port is positive |
| YugabyteWiring.MasterPortsFollowSpec | cluster/on-premise/rook/pkg/operator/yugabytedb/controller.go:224-362 | each Master port, by its name, is the last entry of the setting it comes from, zero or missing meaning its default |
| YugabyteWiring.TServerPortsFollowSpec | cluster/on-premise/rook/pkg/operator/yugabytedb/controller.go:224-362 | the same for the five TServer ports; an unset UI port is 9000 for the containers |
| YugabyteWiring.MasterCommandFits | cluster/on-premise/rook/pkg/operator/yugabytedb/controller.go:364-384 | the Masters bind and announce their headless service's port under its name, keep data where the volume is mounted, and replicate over all of them |
| YugabyteWiring.TServerCommandFits | cluster/on-premise/rook/pkg/operator/yugabytedb/controller.go:386-406 | the TServers do the same, and serve PostgreSQL on the port of that name |
| YugabyteWiring.AddressesArePods | cluster/on-premise/rook/pkg/operator/yugabytedb/controller.go:419-425 | the i-th master address is that of the Masters' i-th pod under their headless service, at the port they bind |
| YugabyteWiring.VolumesFit | cluster/on-premise/rook/pkg/operator/yugabytedb/create_controller.go:203-352 | the one mounted volume is the one that is claimed, from the server's own template; replicas and resources are the server's own |
| YugabyteWiring.DefaultResources | cluster/on-premise/rook/pkg/operator/yugabytedb/controller.go:479-512 | a spec that names any resource is kept; otherwise two CPUs, and 2 GiB for a Master, 4 GiB for a TServer |
| YugabyteWiring.MemoryFlagFits | cluster/on-premise/rook/pkg/operator/yugabytedb/controller.go:400-417 | no memory limit, no flag; a limit that can be read and multiplied gives 870/1024 of it in decimal |
| UpgradeTheorems.SafeIffStrict | cluster/on-premise/rook/pkg/operator/ceph/cluster/mon/spec.go:296-334 | every upgrade of distinct OSD deployments against every cluster is safe if and only if checks are not skipped, failed checks are not excused, and the loop stops at the first error |
| UpgradeTheorems.StrictUpgradeIsSafe | cluster/on-premise/rook/pkg/operator/k8sutil/deployment.go:55-138 | in a strict run every Update comes right after a successful stop check, each deployment is updated at most once, and before the next Update the previous one was seen restarted and then clean, or needing no check, within its own call |
| UpgradeTheorems.AtMostOneUnsettled | cluster/on-premise/rook/pkg/operator/k8sutil/deployment.go:57-62 | at no point of a safe run are two updated OSDs unsettled |
| UpgradeTheorems.EnforcedChecksGuardUpdates | cluster/on-premise/rook/pkg/daemon/ceph/client/upgrade.go:132-174 | with the checks enforced every Update follows a successful stop check, even if errors do not stop the loop |
| UpgradeTheorems.AtMostSixStopTries | cluster/on-premise/rook/pkg/operator/k8sutil/deployment.go:77-84 | a stop check is tried between one and six times and given up only after six |
| UpgradeTheorems.GoingOnIsUnsafe | cluster/on-premise/rook/pkg/operator/ceph/cluster/osd/osd.go:518-570 | a concrete cluster in which the loop over OSDs updates a second OSD while the first has not come back |
| UpgradeTheorems.SkippingIsUnsafe | cluster/on-premise/rook/pkg/operator/ceph/cluster/mon/spec.go:298-304 | a concrete unguarded Update when checks are skipped |
| UpgradeTheorems.ExcusingIsUnsafe | cluster/on-premise/rook/pkg/operator/ceph/cluster/mon/spec.go:308-315 | a concrete Update after a failed stop check when failures are excused |
| UpgradeSafety.SegmentEvidence | cluster/on-premise/rook/pkg/operator/k8sutil/deployment.go:63-138 | one call makes at most one Update, of its own deployment and after a stop check; if it returns nil the update succeeded and the cluster settled |
| UpgradeSafety.ContinueEvidence | cluster/on-premise/rook/pkg/daemon/ceph/client/upgrade.go:176-229 | a continue check that passes has seen a clean status last, or that no check was needed |
| UpgradeSafety.StopEvidence | cluster/on-premise/rook/pkg/daemon/ceph/client/upgrade.go:132-174 | a stop check that passes has seen ok-to-stop answered, or that no check was needed |
| UpgradeSafety.RetryEndsWell | cluster/on-premise/rook/pkg/util/retry.go:23-42 | a retry that succeeds ends with an attempt that succeeded |
| UpgradeOutcomes.WaitIff | cluster/on-premise/rook/pkg/operator/k8sutil/deployment.go:97-133 | the wait returns nil if and only if before the attempts run out some poll shows another generation with updated and ready replicas and its continue check passes, every earlier poll having been answered and shown neither that nor an exceeded deadline |
| UpgradeOutcomes.WaitPolls | cluster/on-premise/rook/pkg/operator/k8sutil/deployment.go:97-133 | while nothing is decided, polls go on, two seconds apart |
| UpgradeOutcomes.UpdateAndWaitIff | cluster/on-premise/rook/pkg/operator/k8sutil/deployment.go:63-138 | a call returns nil if and only if the deployment was read and compared and either needs no change, or the stop checks passed, both writes succeeded and the new pods came back within a minute or twice the deadline |
| UpgradeOutcomes.UpgradeIff | cluster/on-premise/rook/pkg/operator/ceph/cluster/osd/osd.go:494-571 | an upgrade reports success if and only if every call in it returned nil |
| UpgradeOutcomes.SuccessMeansUpToDate | cluster/on-premise/rook/pkg/operator/ceph/cluster/osd/osd.go:494-571 | and then every deployment was found unchanged or was updated |
| UpgradeOutcomes.UpgradeInOrder | cluster/on-premise/rook/pkg/operator/k8sutil/deployment.go:57-62 | deployments are taken in order, and a loop that stops at errors makes no call after the first |
| UpgradeOutcomes.OsdStopIff | cluster/on-premise/rook/pkg/daemon/ceph/client/upgrade.go:132-174 | an OSD's stop check passes if and only if ok-to-stop was answered, or too few OSDs or one host made it needless |
| UpgradeOutcomes.OtherStopIff | cluster/on-premise/rook/pkg/daemon/ceph/client/upgrade.go:132-174 | the other daemons' stop checks pass exactly when versions were read and the type is unchecked, or there are one or two monitors of one version, or ok-to-stop was answered |
| UpgradeOutcomes.OsdContinueIff | cluster/on-premise/rook/pkg/daemon/ceph/client/upgrade.go:176-229 | an OSD's continue check passes if and only if the last status was clean or no check was needed |
| UpgradeOutcomes.MdsContinueIff | cluster/on-premise/rook/pkg/daemon/ceph/client/upgrade.go:187-240 | a metadata server's passes if and only if it was found ready in one of the allowed tries |
| UpgradeOutcomes.DoNothingIff | cluster/on-premise/rook/pkg/daemon/ceph/client/upgrade.go:369-401 | osdDoNothing holds if and only if fewer than three OSDs were listed or all of them are on one host |
| UpgradeOutcomes.RetryIff | cluster/on-premise/rook/pkg/util/retry.go:23-42 | a retry returns nil if and only if one of its allowed tries does |
| UpgradeOutcomes.PatienceOfChecks | cluster/on-premise/rook/pkg/daemon/ceph/client/upgrade.go:214-240 | five sleeps of a minute for a stop check, ten for the placement groups, ten of fifteen seconds for a metadata server: never more, and all of them before giving up |
| UpgradeOutcomes.ExcusedNeverFails | cluster/on-premise/rook/pkg/operator/ceph/cluster/mon/spec.go:296-334 | with checks skipped none is made, with failures excused none fails, and otherwise the checks are the plain ones |
| UpgradeRunner.Upgrader.RunUpgrade | cluster/on-premise/rook/pkg/operator/ceph/cluster/osd/osd.go:494-571 | the running code, one deployment after the other, leaves a safe trace when strict, and a settled one when it also reports success |
| UpgradeRunner.Upgrader.RunRetry | cluster/on-premise/rook/pkg/util/retry.go:25-42 | the retry loop makes exactly the calls of the bounded retry that the safety statements are about, over any of the three retried checks |
| UpgradeRunner.Upgrader.RunWait | cluster/on-premise/rook/pkg/operator/k8sutil/deployment.go:97-133 | the polling loop makes exactly the calls of its recursive description, with its outcome |
| CephHealth.SameHostIsExact | cluster/on-premise/rook/pkg/daemon/ceph/client/upgrade.go:316-351 | with distinct ids, strays among the OSDs and a lone host's children among the rest, the count says yes if and only if there is one host and its children are exactly the OSDs that are not stray |
| CephHealth.OneHostMeans | cluster/on-premise/rook/pkg/daemon/ceph/client/upgrade.go:316-367 | one host is a single node of type `host` in the tree, and its children are that node's |
| CephHealth.HostsAre | cluster/on-premise/rook/pkg/daemon/ceph/client/upgrade.go:353-367 | the hosts are exactly the nodes of type `host`, each once, in the order of the tree |
| CephHealth.DecideSameHost | cluster/on-premise/rook/pkg/daemon/ceph/client/upgrade.go:327-350 | decides by counting, with an error for a tree without nodes or hosts |
| CephHealth.BuildHostListFromTree | cluster/on-premise/rook/pkg/daemon/ceph/client/upgrade.go:353-367 | the host nodes in order; an error when the nodes are missing |
| CephHealth.CleanIsExact | cluster/on-premise/rook/pkg/daemon/ceph/client/status.go:209-228 | with non-negative counts that sum to the number of PGs, the cluster is clean if and only if every state with a PG in it is one of the three clean states |
| CephHealth.IsClusterCleanError | cluster/on-premise/rook/pkg/daemon/ceph/client/status.go:194-207 | nil if and only if a status was read and is clean |
| UdevDebounce.EveryEventIsProbed | cluster/on-premise/rook/pkg/daemon/discover/discover.go:190-232 | in every infinite run in which time passes, probes end and the selects are fair, every received event is later answered by an emission and a probe started with it, unless the source closed or the daemon exits |
| UdevDebounce.PendingSendGoesThrough | cluster/on-premise/rook/pkg/daemon/discover/discover.go:95-117 | so a pending emission is received, unless the daemon exits: Run comes back to its select after every probe |
| UdevDebounce.ExpiredTimerIsServed | cluster/on-premise/rook/pkg/daemon/discover/discover.go:208-231 | and an expired debounce timer is served, however many events keep arriving |
| UdevDebounce.AnotherProbe | cluster/on-premise/rook/pkg/daemon/discover/discover.go:95-117 | once the first probe is over a further probe always comes, with or without events and also after the monitor returned, unless the daemon exits |
| UdevDebounce.ProbesGoOn | cluster/on-premise/rook/pkg/daemon/discover/discover.go:95-117 | so the number of probes grows without bound |
| UdevDebounce.ProbesAreSpaced | cluster/on-premise/rook/pkg/daemon/discover/discover.go:95-117 | a probe not set off by an emission comes at least the interval after the one before |
| UdevDebounce.EventsAreTaken | cluster/on-premise/rook/pkg/daemon/discover/discover.go:208-231 | unless it is busy sending, the monitor takes every event, and none moves its deadline |
| UdevDebounce.ClosedSourceEndsTheMonitor | cluster/on-premise/rook/pkg/daemon/discover/discover.go:208-228 | when the source closed, the monitor returns, unless the daemon exits before taking what it has to send |
| UdevDebounce.RunStopsListening | cluster/on-premise/rook/pkg/daemon/discover/discover.go:106-116 | when the monitor returned, Run stops listening to it, unless it exits |
| UdevDebounce.ShutdownIsHeeded | cluster/on-premise/rook/pkg/daemon/discover/discover.go:97-101 | at its select Run can always be shut down, and then nothing is probed or emitted any more |
| UdevDebounce.FailedStartIsTheEnd | cluster/on-premise/rook/pkg/daemon/discover/discover.go:87-95 | if the first probe fails, Run exits and the monitor never receives anything |
| UdevDebounce.EventsAreAnswered | cluster/on-premise/rook/pkg/daemon/discover/discover.go:95-117 | in every reachable state every received event was answered by an emission and its probe, is pending in the current burst, or the source closed |
| UdevDebounce.EmissionsAreSpaced | cluster/on-premise/rook/pkg/daemon/discover/discover.go:188-232 | in every run any two emissions are at least a period apart |
| UdevDebounce.EmissionsAreFirstOfBurst | cluster/on-premise/rook/pkg/daemon/discover/discover.go:212-231 | each emission carries the first event of its burst, at least a period after it was received, and a burst is emitted once |
| DeviceLists.CheckMatchingDevice | cluster/on-premise/rook/pkg/daemon/discover/discover.go:238-261 | the first device that counts and matches by uuid, non-empty serial or name |
| DeviceLists.CheckDeviceListsEqual | cluster/on-premise/rook/pkg/daemon/discover/discover.go:263-304 | true exactly when every old device that counts is still there unchanged and no new one was added |
| DeviceLists.EqualMeans | cluster/on-premise/rook/pkg/daemon/discover/discover.go:234-304 | field by field: equal if and only if every old device whose links do not say USB has a first match by uuid, name or non-empty serial that was not emptied, did not lose its partitions and did not come under Ceph's volumes, and every such new device has a match |
| DeviceLists.UsbIsIgnored | cluster/on-premise/rook/pkg/daemon/discover/discover.go:234-236 | equality is that of the lists without their USB devices |
| DeviceLists.OldOrderIrrelevant | cluster/on-premise/rook/pkg/daemon/discover/discover.go:269-289 | neither order nor repetition in the old list matters |
| DeviceLists.EqualInEveryOrderIff | cluster/on-premise/rook/pkg/daemon/discover/discover.go:238-304 | the lists are equal in every order of the new one if and only if every device that counts has a match on the other side and no match is a change |
| DeviceLists.EqualityIsStableIff | cluster/on-premise/rook/pkg/daemon/discover/discover.go:263-304 | a verdict of equal holds up under every permutation of the new list if and only if no match is a change |
| DeviceLists.EqualInSomeOrderIff | cluster/on-premise/rook/pkg/daemon/discover/discover.go:238-304 | some order of the new list makes the lists equal if and only if every device that counts has a match and no group of old devices is stuck, that is, every new device matching one of the group is a change for one of it |
| DeviceLists.NewOrderIrrelevantIff | cluster/on-premise/rook/pkg/daemon/discover/discover.go:238-304 | so the order of the new list is irrelevant if and only if no match is a change, or some device has no match, or some old devices are stuck |
| DeviceLists.EqualToItselfIff | cluster/on-premise/rook/pkg/daemon/discover/discover.go:263-304 | a list equals itself if and only if no device's first match in it is a change |
| DeviceLists.SymmetricIff | cluster/on-premise/rook/pkg/daemon/discover/discover.go:263-304 | equal lists are equal the other way round if and only if no first match back is a change |
| DeviceLists.TransitiveIff | cluster/on-premise/rook/pkg/daemon/discover/discover.go:238-304 | equality composes if and only if the outer lists are paired and no first match between them that is not reached through the middle list is a change |
| DeviceLists.SelfEqualInEveryOrderIff | cluster/on-premise/rook/pkg/daemon/discover/discover.go:263-267 | a list equals itself in every order if and only if devices that match one another differ in nothing that counts as a change |
| DeviceLists.SymmetricInEveryOrderIff | cluster/on-premise/rook/pkg/daemon/discover/discover.go:278-289 | equality in every order goes both ways if and only if the lists are paired and matching devices agree on being empty, partitioned and held by Ceph |
| DeviceLists.TransitiveInEveryOrderIff | cluster/on-premise/rook/pkg/daemon/discover/discover.go:243-258 | equality in every order composes if and only if the outer lists are paired and no match between them that bypasses the middle list is a change |
| DeviceConfigMap.ConfigMapTracksProbes | cluster/on-premise/rook/pkg/daemon/discover/discover.go:324-396 | over every sequence of probes, failed ones included, the cached copy is the stored object and the stored list is the last successful probe or equal to it |
| DeviceConfigMap.SyncWritesIff | cluster/on-premise/rook/pkg/daemon/discover/discover.go:324-396 | a probe leaves the stored object as it is exactly when the stored list is equal to it, and otherwise stores exactly the probe |
| DeviceConfigMap.StoredIsLastNews | cluster/on-premise/rook/pkg/daemon/discover/discover.go:324-396 | over every sequence of probes the stored object is the last probe that was not equal to what was stored at that moment, or what it was at the start |
| DeviceConfigMap.UnreadableStays | cluster/on-premise/rook/pkg/daemon/discover/discover.go:381-384 | an unreadable stored list makes every later call fail and is never replaced |
| DeviceConfigMap.DiscoverDaemon.UpdateDeviceCM | cluster/on-premise/rook/pkg/daemon/discover/discover.go:324-396 | the code over its package state performs exactly one such step |
| StorageScope.StorageScopeSpec.ResolveNode | cluster/on-premise/rook/pkg/apis/rook.io/v1/storage.go:42-71 | resolves the first node of that name in place and changes no other node, no other configuration map, no boolean cell and not the scope; nil exactly when there is no such node |
| StorageScope.StorageScopeSpec.ResolveNodeSelection | cluster/on-premise/rook/pkg/apis/rook.io/v1/storage.go:73-94 | each setting is the node's, else the cluster's, else the default |
| StorageScope.StorageScopeSpec.ResolveNodeConfig | cluster/on-premise/rook/pkg/apis/rook.io/v1/storage.go:96-105 | adds exactly the cluster's entries the node lacks, in whatever order they are visited |
| StorageScope.StorageScopeSpec.ClearUseAllDevices | cluster/on-premise/rook/pkg/apis/rook.io/v1/storage.go:33-40 | makes the scope and all nodes share one fresh false cell and changes nothing else |
| StorageScope.StorageScopeSpec.AnyUseAllDevices | cluster/on-premise/rook/pkg/apis/rook.io/v1/storage.go:18-31 | true exactly when the scope's cell or some node's cell is there and holds true |
| StorageValues.Precedence | cluster/on-premise/rook/pkg/apis/rook.io/v1/storage.go:42-105 | after any sequence of resolutions naming a node, every setting is its own, else the cluster's, else the default: device flag, both filters, devices, claim templates and every configuration key; directories are never inherited |
| StorageValues.ResolveIsIdempotent | cluster/on-premise/rook/pkg/apis/rook.io/v1/storage.go:48-105 | resolving twice is resolving once |
| StorageValues.ResolveOrderIrrelevant | cluster/on-premise/rook/pkg/apis/rook.io/v1/storage.go:48-105 | resolving the same nodes in any order, with any repetitions, gives the same storage |
| StorageValues.ResolveKeepsAnyUsesAll | cluster/on-premise/rook/pkg/apis/rook.io/v1/storage.go:73-82 | no sequence of resolutions changes whether anything uses all devices |
| StorageValues.ClearedStaysCleared | cluster/on-premise/rook/pkg/apis/rook.io/v1/storage.go:33-40 | once cleared, no sequence of resolutions brings it back |
| DaemonNames.IndexToName | cluster/on-premise/rook/pkg/operator/k8sutil/name.go:28-41 | the bijective base-26 name of every non-negative int; a single other character for a negative one |
| DaemonNames.NameToIndex | cluster/on-premise/rook/pkg/operator/k8sutil/name.go:47-68 | errors exactly on a character outside a-z; the name's number less one whenever that fits an int |
| DaemonNames.IndexRoundTrip | cluster/on-premise/rook/pkg/operator/k8sutil/name.go:43-47 | the index comes back if and only if it is not negative |
| DaemonNames.NameRoundTrip | cluster/on-premise/rook/pkg/operator/k8sutil/name.go:43-47 | the name comes back if and only if it is non-empty, a-z and its index fits an int |
| DaemonNames.NoOverflow | cluster/on-premise/rook/pkg/operator/k8sutil/name.go:48-65 | no factor, term or partial result overflows while a fitting name is read |
| DaemonNames.NamingIsOrderIsomorphism | cluster/on-premise/rook/pkg/operator/k8sutil/name.go:22-27 | a smaller index has the shorter name, or the earlier one of the same length, and conversely |
| DaemonNames.NameIsShortest | cluster/on-premise/rook/pkg/operator/k8sutil/name.go:22-22 | a name has at most n letters if and only if the index is below 26 + ... + 26^n |
| DaemonNames.NamesFitFourteenLetters | cluster/on-premise/rook/pkg/operator/k8sutil/name.go:28-41 | 14 letters are enough for every int, and needed for the largest |
| DaemonNames.FirstNames | cluster/on-premise/rook/pkg/operator/k8sutil/name.go:22-27 | a, b, ... z, aa, ab, ... az, ba, ... zz |
| LsblkPairs.RoundTripIffClean | cluster/on-premise/rook/pkg/util/sys/device.go:346-366 | a map printed as pairs in any order parses back if and only if no key or value holds a space or `=` and no value a quote |
| LsblkPairs.ParseOfPrint | cluster/on-premise/rook/pkg/util/sys/device.go:349-366 | repeated keys parse to the last value |
| LsblkPairs.ParseOfAnyPrint | cluster/on-premise/rook/pkg/util/sys/device.go:349-366 | of any pairs without spaces, those with another `=` are dropped and the others kept without their quotes |
| LsblkPairs.ParseKeyValuePairString | cluster/on-premise/rook/pkg/util/sys/device.go:349-366 | the loop computes that parse |
| DevicePartitions.GetDevicePartitions | cluster/on-premise/rook/pkg/util/sys/device.go:126-190 | fails exactly when lsblk fails or a row cannot be used; returns the partitions in order; their sizes and the unused space add up to the device if and only if they total no more than it |
| DevicePartitions.DescribePartition | cluster/on-premise/rook/pkg/util/sys/device.go:156-179 | size, label (the entry name over the partition name) and filesystem of one partition row |
| DevicePartitions.LineMeans | cluster/on-premise/rook/pkg/util/sys/device.go:139-179 | what a printed row comes to: the device's size, a partition with udev's label and filesystem, a Ceph volume, or nothing; only a partition unknown to udev fails |
| DevicePartitions.FoundConcat | cluster/on-premise/rook/pkg/util/sys/device.go:139-183 | partitions are listed row after row |
| DevicePartitions.LastSizeCounts | cluster/on-premise/rook/pkg/util/sys/device.go:147-154 | the last row that tells the device's size counts |
| DevicePartitions.UdevRoundTripIff | cluster/on-premise/rook/pkg/util/sys/device.go:377-387 | properties printed as `KEY=VALUE` lines are read back unchanged if and only if no key or value holds an `=` or a newline |
| DevicePartitions.UdevInfoOfPrint | cluster/on-premise/rook/pkg/util/sys/device.go:377-387 | a value with an `=` is cut there, and of equal keys the last wins |
| DevicePartitions.ParseUdevInfo | cluster/on-premise/rook/pkg/util/sys/device.go:377-387 | the loop computes the reading those laws are about |
| PoolDetails.SplitIffSeparable | cluster/on-premise/rook/pkg/daemon/ceph/client/pool.go:124-142 | the texts unmarshalled are exactly the printed objects, in order, if and only if no body shows the seam, ends (but for the last) with `}` or begins (but for the first) with `{` |
| PoolDetails.FlatObjectsAreSplit | cluster/on-premise/rook/pkg/daemon/ceph/client/pool.go:124-130 | so for every non-empty list of brace-free bodies |
| PoolDetails.NestedObjectIsMangled | cluster/on-premise/rook/pkg/daemon/ceph/client/pool.go:132-140 | a nested object before another response is not repaired |
| PoolDetails.GetPoolDetails | cluster/on-premise/rook/pkg/daemon/ceph/client/pool.go:117-148 | unmarshals the repaired texts in order into one value; the first failure fails the call |
| PoolDetails.FoldIff | cluster/on-premise/rook/pkg/daemon/ceph/client/pool.go:124-147 | the details are d if and only if every text unmarshals over what those before it made and the last makes it d |
| PoolDetails.LastWriterWins | cluster/on-premise/rook/pkg/daemon/ceph/client/pool.go:127-131 | when unmarshalling overlays fields, the result has the fields of all texts, each from the last that mentions it |
| PoolDetails.MergePrinted | cluster/on-premise/rook/pkg/daemon/ceph/client/pool.go:117-148 | both together: printed separable objects are merged, last writer wins |
| ByteUnits.CreateImage | cluster/on-premise/rook/pkg/daemon/ceph/client/image.go:71-117 | the reported size is the least multiple of 2^20 that is at least the request if and only if the request is at most 2^64 - 2^20, 0 above that, and the conversion to bytes does not wrap |
| ByteUnits.ScaleOf | cluster/on-premise/rook/pkg/apis/edgefs.rook.io/v1/utils.go:28-32 | the loop ends with the largest power of 1024 that is at most b, without wrapping, and an exponent that indexes the suffixes |
| ByteUnits.ByteCountBinary | cluster/on-premise/rook/pkg/apis/edgefs.rook.io/v1/utils.go:23-34 | for every uint64 it chooses the unit and divisor that the other formatter chooses |
| ByteUnits.UnitsByName | cluster/on-premise/rook/pkg/util/display/bytes.go:40-55 | below 1024 bytes as they are; above, in the unit named for the power of 1024 that is reached |
| ByteUnits.MbTob | cluster/on-premise/rook/pkg/util/display/bytes.go:67-70 | exact up to the largest whole number of megabytes in 64 bits |
| CommandTimeout.ExecuteCommandWithTimeout | cluster/on-premise/rook/pkg/util/exec/exec.go:70-120 | for every way the selects go: at most two timer expiries, a kill only after an interrupt, success exactly when a clean exit came before any timer |

## Left out

- NameToIndex: the value returned for an a-z name too large for an int is only said to be an int that does not name it; it is an arithmetic residue nobody relies on.
- UpdateDeviceCM: failed API calls are not modelled, because what the client library hands back with an error is not part of this model; only one writer of the config map is considered.
- GetPoolDetails: JSON decoding is a parameter; error texts are dropped, here and everywhere.
- ExecuteCommandWithTimeout: wall-clock time, the buffered output and the second copy of the loop for output files.
- ByteCountBinary: the printed digits; floating-point formatting of bytes is not modelled in either formatter.
- ResolveNode: device slices are values, so the sharing of a slice between the scope and a resolved node is not captured; nothing writes through it.
- RunUpgrade: creating deployments that do not exist yet and keyring association around the loop over OSDs; monitors, MDS and other daemons follow the same code but the safety statement is about OSDs, whose checks the code implements.
- RunOkToContinue: the MDS check is one answer of the cluster; ranks and standby states are not opened up.
- EveryEventIsProbed: that time passes, that each probe ends and that a select branch ready again and again is at some point taken are premises, since Go's select promises no more than a random choice.
- Deliver: one namespace and one custom resource; owner references are reduced to their UID, pod affinity to its label value, environment entries to name and value, claim templates to name and an opaque rest, and a StatefulSet to its one container with its one mount.
- Kubernetes clients, informers, generated code, cobra commands, signals, logging and file writes.
- The regular expressions that select udev events, and the probe that lists a node's devices.
- Annotation merging, label truncation, NFS server configuration, volume name paths and the least up-to-date version: small members whose comments and code disagree.
- The flexvolume mount and unmount flow.
- Restrictions that Kubernetes itself enforces, such as immutable claim templates.
