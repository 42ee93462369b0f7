/** One deployment at a time, with checks before the stop and after the restart: the calls an upgrade makes,
    as a function of how the cluster answers (k8sutil/deployment.go, daemon/ceph/client/upgrade.go,
    util/retry.go, operator/ceph/cluster/mon/spec.go). */
module UpgradeProtocol {
  import opened MachineInts
  import opened Wrappers
  import opened CephHealth

  datatype Condition = Condition(conditionType: string, reason: string)

  datatype Deployment = Deployment(
    observedGeneration: int, updatedReplicas: int, readyReplicas: int,
    progressDeadlineSeconds: Option<int>, conditions: seq<Condition>)

  /** The answers of the API server and of Ceph to the call with the given number; None is an error. */
  datatype World = World(
    deployment: nat -> Option<Deployment>,
    patchIsEmpty: nat -> Option<bool>,
    annotate: nat -> bool,
    update: nat -> bool,
    monVersions: nat -> Option<map<string, int>>,
    osdList: nat -> Option<seq<int>>,
    osdTree: nat -> Option<OsdTree>,
    okToStop: nat -> bool,
    status: nat -> Option<PgMap>,
    mdsReady: nat -> bool)

  /** One call and its answer. */
  datatype Event =
    | Fetched(name: string, deployment: Option<Deployment>)
    | Diffed(patchIsEmpty: Option<bool>)
    | Annotated(name: string, ok: bool)
    | Updated(name: string, ok: bool)
    | Polled(name: string, deployment: Option<Deployment>)
    | VersionsRead(monVersions: Option<map<string, int>>)
    | OsdsListed(osds: Option<seq<int>>)
    | TreeRead(tree: Option<OsdTree>)
    | StopChecked(daemonType: string, daemonName: string, ok: bool)
    | StatusRead(status: Option<PgMap>)
    | MdsChecked(ok: bool)
    | Slept(seconds: int)

  /** The calls some piece of code makes from a given point on, and whether it returned nil (or true). */
  datatype Ran = Ran(events: seq<Event>, ok: bool)

  datatype Daemon = Daemon(deployment: string, daemonType: string, daemonName: string)

  /** How often a failed stop check, clean check and MDS check is retried. */
  datatype Limits = Limits(stop: nat, clean: nat, mds: nat)

  /** skipUpgradeChecks, continueUpgradeAfterChecksEvenIfNotHealthy, and whether the loop over deployments
      stops at the first error. */
  datatype Config = Config(skipChecks: bool, continueIfUnhealthy: bool, stopOnError: bool, limits: Limits)

  /** The limits the code passes to util.Retry. */
  const LIMITS := Limits(5, 10, 10)

  const NO_CHECK := ["mgr", "rgw", "rbd-mirror", "nfs"]

  function Then(first: Ran, rest: Ran): Ran {
    Ran(first.events + rest.events, rest.ok)
  }

  // ---------- the checks ----------

  /** allOSDsSameHost, as osdDoNothing uses it: errors count as "no". */
  function SameHostCheck(w: World, n: nat): Ran {
    match w.osdTree(n)
    case None => Ran([TreeRead(None)], false)
    case Some(tree) =>
      var osds := w.osdList(n + 1);
      Ran([TreeRead(Some(tree)), OsdsListed(osds)], osds.Some? && SameHost(tree, osds.value) == Ok(true))
  }

  /** osdDoNothing. */
  function DoNothing(w: World, n: nat): Ran {
    match w.osdList(n)
    case None => Ran([OsdsListed(None)], false)
    case Some(osds) =>
      if |osds| < 3 then Ran([OsdsListed(Some(osds))], true)
      else Then(Ran([OsdsListed(Some(osds))], false), SameHostCheck(w, n + 1))
  }

  function StopDaemon(w: World, n: nat, d: Daemon): Ran {
    if d.daemonType in NO_CHECK then Ran([], true)
    else Ran([StopChecked(d.daemonType, d.daemonName, w.okToStop(n))], w.okToStop(n))
  }

  predicate FewMons(versions: map<string, int>) {
    |versions| == 1 && exists v | v in versions :: versions[v] < 3
  }

  function OkToStop(w: World, n: nat, d: Daemon): Ran {
    var versions := w.monVersions(n);
    var read := Ran([VersionsRead(versions)], false);
    if versions.None? then read
    else if d.daemonType == "mon" && FewMons(versions.value) then Ran(read.events, true)
    else if d.daemonType == "osd" then
      var nothing := DoNothing(w, n + 1);
      if nothing.ok then Then(read, nothing)
      else Then(Then(read, nothing), StopDaemon(w, n + 1 + |nothing.events|, d))
    else Then(read, StopDaemon(w, n + 1, d))
  }

  function CleanCheck(w: World, n: nat): Ran {
    var s := w.status(n);
    Ran([StatusRead(s)], s.Some? && ClusterClean(s.value))
  }

  function CleanAttempt(w: World): nat -> Ran {
    (k: nat) => CleanCheck(w, k)
  }

  function MdsCheck(w: World, n: nat): Ran {
    Ran([MdsChecked(w.mdsReady(n))], w.mdsReady(n))
  }

  function MdsAttempt(w: World): nat -> Ran {
    (k: nat) => MdsCheck(w, k)
  }

  /** util.Retry with this many retries left. */
  function Retry(attempt: nat -> Ran, n: nat, retries: nat, delay: int): Ran
    decreases retries
  {
    var r := attempt(n);
    if r.ok || retries == 0 then r
    else Then(Then(r, Ran([Slept(delay)], false)), Retry(attempt, n + |r.events| + 1, retries - 1, delay))
  }

  function OkToContinue(cfg: Config, w: World, n: nat, d: Daemon): Ran {
    if d.daemonType == "osd" then
      var nothing := DoNothing(w, n);
      if nothing.ok then nothing
      else Then(nothing, Retry(CleanAttempt(w), n + |nothing.events|, cfg.limits.clean, 60))
    else if d.daemonType == "mds" then Retry(MdsAttempt(w), n, cfg.limits.mds, 15)
    else Ran([], true)
  }

  /** The callback of UpdateCephDeploymentAndWait around a check. */
  function Excused(cfg: Config, r: Ran): Ran {
    if cfg.continueIfUnhealthy then Ran(r.events, true) else r
  }

  function VerifyStop(cfg: Config, w: World, n: nat, d: Daemon): Ran {
    if cfg.skipChecks then Ran([], true) else Excused(cfg, OkToStop(w, n, d))
  }

  function VerifyContinue(cfg: Config, w: World, n: nat, d: Daemon): Ran {
    if cfg.skipChecks then Ran([], true) else Excused(cfg, OkToContinue(cfg, w, n, d))
  }

  function StopAttempt(cfg: Config, w: World, d: Daemon): nat -> Ran {
    (k: nat) => VerifyStop(cfg, w, k, d)
  }

  // ---------- updating one deployment ----------

  predicate Restarted(before: Deployment, now: Deployment) {
    now.observedGeneration != before.observedGeneration && now.updatedReplicas > 0 && now.readyReplicas > 0
  }

  predicate DeadlineExceeded(d: Deployment) {
    exists k | 0 <= k < |d.conditions| :: d.conditions[k] == Condition("Progressing", "ProgressDeadlineExceeded")
  }

  function Attempts(before: Deployment): int {
    match before.progressDeadlineSeconds
    case None => 30
    case Some(seconds) => 2 * Quo(seconds, 2)
  }

  /** The polling loop from its i-th turn on. */
  function Wait(cfg: Config, w: World, n: nat, d: Daemon, before: Deployment, attempts: int, i: nat): Ran
    decreases attempts - i
  {
    if i >= attempts then Ran([], false)
    else match w.deployment(n)
      case None => Ran([Polled(d.deployment, None)], false)
      case Some(now) =>
        var polled := Ran([Polled(d.deployment, Some(now))], false);
        if Restarted(before, now) then Then(polled, VerifyContinue(cfg, w, n + 1, d))
        else if DeadlineExceeded(now) then polled
        else Then(Then(polled, Ran([Slept(2)], false)), Wait(cfg, w, n + 2, d, before, attempts, i + 1))
  }

  function StopChecks(cfg: Config, w: World, n: nat, d: Daemon): Ran {
    Retry(StopAttempt(cfg, w, d), n, cfg.limits.stop, 60)
  }

  /** From the Update call on: annotation, update, wait. */
  function Replace(cfg: Config, w: World, n: nat, d: Daemon, before: Deployment): Ran {
    if !w.annotate(n) then Ran([Annotated(d.deployment, false)], false)
    else if !w.update(n + 1) then Ran([Annotated(d.deployment, true), Updated(d.deployment, false)], false)
    else Then(Ran([Annotated(d.deployment, true), Updated(d.deployment, true)], false),
              Wait(cfg, w, n + 2, d, before, Attempts(before), 0))
  }

  /** UpdateDeploymentAndWait, with the callback of UpdateCephDeploymentAndWait. */
  function UpdateAndWait(cfg: Config, w: World, n: nat, d: Daemon): Ran {
    match w.deployment(n)
    case None => Ran([Fetched(d.deployment, None)], false)
    case Some(before) =>
      var patch := w.patchIsEmpty(n + 1);
      var looked := Ran([Fetched(d.deployment, Some(before)), Diffed(patch)], patch == Some(true));
      if patch != Some(false) then looked
      else
        var stop := StopChecks(cfg, w, n + 2, d);
        if !stop.ok then Then(looked, stop)
        else Then(Then(looked, stop), Replace(cfg, w, n + 2 + |stop.events|, d, before))
  }

  /** One deployment after the other. */
  function Upgrade(cfg: Config, w: World, n: nat, daemons: seq<Daemon>): Ran {
    if daemons == [] then Ran([], true)
    else
      var first := Upgrade(cfg, w, n, daemons[..|daemons|-1]);
      if !first.ok && cfg.stopOnError then first
      else
        var r := UpdateAndWait(cfg, w, n + |first.events|, daemons[|daemons|-1]);
        Ran(first.events + r.events, first.ok && r.ok)
  }

  // ---------- the definitions, one step at a time ----------

  lemma RetryStep(attempt: nat -> Ran, n: nat, retries: nat, delay: int)
    ensures Retry(attempt, n, retries, delay) == (
      var r := attempt(n);
      if r.ok || retries == 0 then r
      else Then(Then(Ran(r.events, false), Ran([Slept(delay)], false)),
        Retry(attempt, n + |r.events| + 1, retries - 1, delay)))
  {
  }

  lemma WaitStep(cfg: Config, w: World, n: nat, d: Daemon, before: Deployment, attempts: int, i: nat)
    requires i < attempts
    ensures Wait(cfg, w, n, d, before, attempts, i) == (
      var now := w.deployment(n);
      if now.Some? && Restarted(before, now.value)
        then Then(Ran([Polled(d.deployment, now)], false), VerifyContinue(cfg, w, n + 1, d))
      else if now.None? || DeadlineExceeded(now.value) then Ran([Polled(d.deployment, now)], false)
      else Then(Then(Ran([Polled(d.deployment, now)], false), Ran([Slept(2)], false)),
        Wait(cfg, w, n + 2, d, before, attempts, i + 1)))
  {
  }

  ghost function CheckedReplace(cfg: Config, w: World, n: nat, d: Daemon, before: Deployment): Ran {
    var stop := StopChecks(cfg, w, n, d);
    if !stop.ok then stop else Then(stop, Replace(cfg, w, n + |stop.events|, d, before))
  }

  lemma UpdateAndWaitSteps(cfg: Config, w: World, n: nat, d: Daemon)
    ensures UpdateAndWait(cfg, w, n, d) == (
      var before, patch := w.deployment(n), w.patchIsEmpty(n + 1);
      if before.None? then Ran([Fetched(d.deployment, before)], false)
      else
        var looked := Ran([Fetched(d.deployment, before), Diffed(patch)], patch == Some(true));
        if patch != Some(false) then looked else Then(looked, CheckedReplace(cfg, w, n + 2, d, before.value)))
  {
    if w.deployment(n).Some? && w.patchIsEmpty(n + 1) == Some(false) {
      var looked, stop := [Fetched(d.deployment, w.deployment(n)), Diffed(Some(false))], StopChecks(cfg, w, n + 2, d);
      var replace := Replace(cfg, w, n + 2 + |stop.events|, d, w.deployment(n).value);
      assert looked + stop.events + replace.events == looked + (stop.events + replace.events);
    }
  }

  lemma UpgradeStep(cfg: Config, w: World, daemons: seq<Daemon>, k: nat)
    requires k < |daemons|
    ensures Upgrade(cfg, w, 0, daemons[..k+1]) == (
      var first := Upgrade(cfg, w, 0, daemons[..k]);
      var r := UpdateAndWait(cfg, w, |first.events|, daemons[k]);
      if !first.ok && cfg.stopOnError then first else Ran(first.events + r.events, first.ok && r.ok))
  {
    assert daemons[..k+1][..k] == daemons[..k];
  }

  lemma ReplaceStep(cfg: Config, w: World, n: nat, d: Daemon, before: Deployment)
    requires w.annotate(n) && w.update(n + 1)
    ensures Replace(cfg, w, n, d, before) == Then(
      Ran([Annotated(d.deployment, true), Updated(d.deployment, true)], false),
      Wait(cfg, w, n + 2, d, before, Attempts(before), 0))
  {
  }
}
