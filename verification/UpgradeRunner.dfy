/** The upgrade code as it runs: calls with effects, bounded retries and a polling loop, each proved to make
    exactly the calls that UpgradeProtocol describes. */
module UpgradeRunner {
  import opened MachineInts
  import opened Wrappers
  import opened CephHealth
  import opened UpgradeProtocol
  import opened UpgradeSafety
  import opened UpgradeTheorems

  /** The functions that are handed to util.Retry. */
  datatype Check = StopCheck(daemon: Daemon) | PgsClean | MdsReady

  /** One call of the function, from call number n on. */
  ghost function AttemptAt(cfg: Config, w: World, c: Check, n: nat): Ran {
    match c
    case StopCheck(d) => StopAttempt(cfg, w, d)(n)
    case PgsClean => CleanAttempt(w)(n)
    case MdsReady => MdsAttempt(w)(n)
  }

  ghost predicate IsAttempt(attempt: nat -> Ran, cfg: Config, w: World, c: Check) {
    forall n: nat {:trigger AttemptAt(cfg, w, c, n)} :: attempt(n) == AttemptAt(cfg, w, c, n)
  }

  /** The outcome of the polling loop if this turn decides it. */
  ghost function Decided(cfg: Config, w: World, n: nat, d: Daemon, before: Deployment): Option<Ran> {
    var now := w.deployment(n);
    var polled := Ran([Polled(d.deployment, now)], false);
    if now.None? then Some(polled)
    else if Restarted(before, now.value) then Some(Then(polled, VerifyContinue(cfg, w, n + 1, d)))
    else if DeadlineExceeded(now.value) then Some(polled)
    else None
  }

  lemma WaitTurn(cfg: Config, w: World, n: nat, d: Daemon, before: Deployment, attempts: int, i: nat)
    requires i < attempts
    ensures Wait(cfg, w, n, d, before, attempts, i) == (
      match Decided(cfg, w, n, d, before)
      case Some(r) => r
      case None =>
        var turn := Then(Ran([Polled(d.deployment, w.deployment(n))], false), Ran([Slept(2)], false));
        Then(turn, Wait(cfg, w, n + 2, d, before, attempts, i + 1)))
  {
    WaitStep(cfg, w, n, d, before, attempts, i);
  }

  class Upgrader {
    const world: World
    const cfg: Config
    var clock: nat
    ghost var trace: Trace

    constructor (world: World, cfg: Config)
      ensures this.world == world && this.cfg == cfg && clock == 0 && trace == []
    {
      this.world, this.cfg := world, cfg;
      clock, trace := 0, [];
    }

    /** Since `before`, the calls of r were made and no others, and the outcome is r's. */
    ghost predicate Did(before: Trace, r: Ran, ok: bool)
      reads this
    {
      clock == |trace| && trace == before + r.events && ok == r.ok
    }

    method Record(ghost e: Event)
      requires clock == |trace|
      modifies this
      ensures clock == |trace| && trace == old(trace) + [e]
    {
      trace := trace + [e];
      clock := clock + 1;
    }

    method OsdListNum() returns (osds: Option<seq<int>>)
      requires clock == |trace|
      modifies this
      ensures clock == |trace| && trace == old(trace) + [OsdsListed(osds)] && osds == world.osdList(old(clock))
    {
      osds := world.osdList(clock);
      Record(OsdsListed(osds));
    }

    method AllOSDsSameHost() returns (r: Result<bool>)
      requires clock == |trace|
      modifies this
      ensures Did(old(trace), SameHostCheck(world, old(clock)), r == Ok(true))
    {
      var tree := world.osdTree(clock);
      Record(TreeRead(tree));
      if tree.None? {
        return Err;
      }
      var osds := OsdListNum();
      if osds.None? {
        return Err;
      }
      r := DecideSameHost(tree.value, osds.value);
    }

    method OsdDoNothing() returns (r: bool)
      requires clock == |trace|
      modifies this
      ensures Did(old(trace), DoNothing(world, old(clock)), r)
    {
      var osds := OsdListNum();
      if osds.None? {
        return false;
      }
      if |osds.value| < 3 {
        return true;
      }
      var aio := AllOSDsSameHost();
      if aio.Err? {
        return false;
      }
      return aio.value;
    }

    method OkToStopDaemon(d: Daemon) returns (ok: bool)
      requires clock == |trace|
      modifies this
      ensures Did(old(trace), StopDaemon(world, old(clock), d), ok)
    {
      ok := true;
      if d.daemonType !in NO_CHECK {
        ok := world.okToStop(clock);
        Record(StopChecked(d.daemonType, d.daemonName, ok));
      }
    }

    method RunOkToStop(d: Daemon) returns (ok: bool)
      requires clock == |trace|
      modifies this
      ensures Did(old(trace), OkToStop(world, old(clock), d), ok)
    {
      var versions := world.monVersions(clock);
      Record(VersionsRead(versions));
      if versions.None? {
        return false;
      }
      if d.daemonType == "mon" {
        if |versions.value| == 1 {
          var v :| v in versions.value;
          SingleVersion(versions.value, v);
          if versions.value[v] < 3 {
            return true;
          }
        }
      } else if d.daemonType == "osd" {
        var nothing := OsdDoNothing();
        if nothing {
          return true;
        }
      }
      ok := OkToStopDaemon(d);
    }

    method IsClusterClean() returns (ok: bool)
      requires clock == |trace|
      modifies this
      ensures Did(old(trace), CleanCheck(world, old(clock)), ok)
    {
      var status := world.status(clock);
      Record(StatusRead(status));
      ok := IsClusterCleanError(status);
    }

    method RunVerifyStop(d: Daemon) returns (ok: bool)
      requires clock == |trace|
      modifies this
      ensures Did(old(trace), VerifyStop(cfg, world, old(clock), d), ok)
    {
      if cfg.skipChecks {
        return true;
      }
      ok := RunOkToStop(d);
      if !ok && cfg.continueIfUnhealthy {
        ok := true;
      }
    }

    method Attempt(c: Check) returns (ok: bool)
      requires clock == |trace|
      modifies this
      ensures Did(old(trace), AttemptAt(cfg, world, c, old(clock)), ok)
    {
      match c
      case StopCheck(d) => ok := RunVerifyStop(d);
      case PgsClean => ok := IsClusterClean();
      case MdsReady =>
        ok := world.mdsReady(clock);
        Record(MdsChecked(ok));
    }

    method AttemptOnce(c: Check, ghost attempt: nat -> Ran) returns (ok: bool)
      requires clock == |trace| && IsAttempt(attempt, cfg, world, c)
      modifies this
      ensures Did(old(trace), attempt(old(clock)), ok)
    {
      ok := Attempt(c);
    }

    /** util.Retry; the sleep between attempts is an event like any other. */
    method RunRetry(maxRetries: nat, delay: int, c: Check, ghost attempt: nat -> Ran) returns (ok: bool)
      requires clock == |trace| && IsAttempt(attempt, cfg, world, c)
      modifies this
      ensures Did(old(trace), Retry(attempt, old(clock), maxRetries, delay), ok)
    {
      ghost var start, whole := trace, Retry(attempt, clock, maxRetries, delay);
      var tries := 0;
      while true
        invariant clock == |trace| && 0 <= tries <= maxRetries
        invariant LeftOf(start, whole, trace, Retry(attempt, clock, maxRetries - tries, delay))
        decreases maxRetries - tries
      {
        ghost var seen, n := trace, clock;
        var isNil := AttemptOnce(c, attempt);
        RetryStep(attempt, n, maxRetries - tries, delay);
        if isNil {
          return true;
        }
        tries := tries + 1;
        if tries > maxRetries {
          return false;
        }
        Record(Slept(delay));
        LeftAfter(start, whole, seen, attempt(n).events, Slept(delay),
          Retry(attempt, clock, maxRetries - tries, delay));
      }
    }

    method RunOkToContinue(d: Daemon) returns (ok: bool)
      requires clock == |trace|
      modifies this
      ensures Did(old(trace), OkToContinue(cfg, world, old(clock), d), ok)
    {
      ok := true;
      if d.daemonType == "osd" {
        var nothing := OsdDoNothing();
        if nothing {
          return true;
        }
        ok := RunRetry(cfg.limits.clean, 60, PgsClean, CleanAttempt(world));
      } else if d.daemonType == "mds" {
        ok := RunRetry(cfg.limits.mds, 15, MdsReady, MdsAttempt(world));
      }
    }

    method RunVerifyContinue(d: Daemon) returns (ok: bool)
      requires clock == |trace|
      modifies this
      ensures Did(old(trace), VerifyContinue(cfg, world, old(clock), d), ok)
    {
      if cfg.skipChecks {
        return true;
      }
      ok := RunOkToContinue(d);
      if !ok && cfg.continueIfUnhealthy {
        ok := true;
      }
    }

    method HasExceeded(dep: Deployment) returns (r: bool)
      ensures r <==> DeadlineExceeded(dep)
    {
      for k := 0 to |dep.conditions|
        invariant forall j | 0 <= j < k :: dep.conditions[j] != Condition("Progressing", "ProgressDeadlineExceeded")
      {
        if dep.conditions[k].conditionType == "Progressing" && dep.conditions[k].reason == "ProgressDeadlineExceeded" {
          return true;
        }
      }
      return false;
    }

    /** One turn of the polling loop: it decides the outcome, or sleeps and leaves the rest to later turns. */
    method PollOnce(d: Daemon, before: Deployment) returns (done: bool, ok: bool)
      requires clock == |trace|
      modifies this
      ensures clock == |trace|
      ensures done <==> Decided(cfg, world, old(clock), d, before).Some?
      ensures done ==> Did(old(trace), Decided(cfg, world, old(clock), d, before).value, ok)
      ensures !done ==> trace == old(trace) + [Polled(d.deployment, world.deployment(old(clock)))] + [Slept(2)]
    {
      var now := world.deployment(clock);
      Record(Polled(d.deployment, now));
      if now.None? {
        return true, false;
      }
      if Restarted(before, now.value) {
        ok := RunVerifyContinue(d);
        done := true;
        return;
      }
      var exceeded := HasExceeded(now.value);
      if exceeded {
        return true, false;
      }
      Record(Slept(2));
      return false, false;
    }

    /** The polling loop of UpdateDeploymentAndWait. */
    method RunWait(d: Daemon, before: Deployment, attempts: int) returns (ok: bool)
      requires clock == |trace|
      modifies this
      ensures Did(old(trace), Wait(cfg, world, old(clock), d, before, attempts, 0), ok)
    {
      ghost var start, whole := trace, Wait(cfg, world, clock, d, before, attempts, 0);
      var i := 0;
      while i < attempts
        invariant clock == |trace| && 0 <= i
        invariant LeftOf(start, whole, trace, Wait(cfg, world, clock, d, before, attempts, i))
      {
        ghost var seen, n := trace, clock;
        WaitTurn(cfg, world, n, d, before, attempts, i);
        var done;
        done, ok := PollOnce(d, before);
        if done {
          return;
        }
        i := i + 1;
        LeftAfter(start, whole, seen, [Polled(d.deployment, world.deployment(n))], Slept(2),
          Wait(cfg, world, clock, d, before, attempts, i));
      }
      return false;
    }

    method RunStopChecks(d: Daemon) returns (ok: bool)
      requires clock == |trace|
      modifies this
      ensures Did(old(trace), StopChecks(cfg, world, old(clock), d), ok)
    {
      ok := RunRetry(cfg.limits.stop, 60, StopCheck(d), StopAttempt(cfg, world, d));
    }

    /** The current deployment, and whether the new one differs from it. */
    method FetchAndDiff(d: Daemon) returns (current: Option<Deployment>, patchIsEmpty: Option<bool>)
      requires clock == |trace|
      modifies this
      ensures clock == |trace| && current == world.deployment(old(clock))
      ensures current.None? ==> trace == old(trace) + [Fetched(d.deployment, None)]
      ensures current.Some? ==> patchIsEmpty == world.patchIsEmpty(old(clock) + 1)
      ensures current.Some? ==> trace == old(trace) + [Fetched(d.deployment, current), Diffed(patchIsEmpty)]
    {
      current, patchIsEmpty := world.deployment(clock), None;
      Record(Fetched(d.deployment, current));
      if current.Some? {
        patchIsEmpty := world.patchIsEmpty(clock);
        Record(Diffed(patchIsEmpty));
      }
    }

    /** The part of UpdateDeploymentAndWait for deployments that differ. */
    method StopAndReplace(d: Daemon, current: Deployment) returns (ok: bool)
      requires clock == |trace|
      modifies this
      ensures Did(old(trace), CheckedReplace(cfg, world, old(clock), d, current), ok)
    {
      ghost var before, stop := trace, StopChecks(cfg, world, clock, d);
      ok := RunStopChecks(d);
      if ok {
        ghost var n := clock;
        assert n == |before| + |stop.events|;
        ok := RunReplace(d, current);
        Regroup(before, stop.events, Replace(cfg, world, n, d, current).events);
      }
    }

    method UpdateDeploymentAndWait(d: Daemon) returns (ok: bool)
      requires clock == |trace|
      modifies this
      ensures Did(old(trace), UpdateAndWait(cfg, world, old(clock), d), ok)
    {
      UpdateAndWaitSteps(cfg, world, clock, d);
      ghost var before := trace;
      var current, patchIsEmpty := FetchAndDiff(d);
      if current.None? || patchIsEmpty.None? {
        return false;
      }
      if patchIsEmpty.value {
        return true;
      }
      ghost var n := clock;
      ok := StopAndReplace(d, current.value);
      Regroup(before, [Fetched(d.deployment, current), Diffed(patchIsEmpty)],
        CheckedReplace(cfg, world, n, d, current.value).events);
    }

    method RunReplace(d: Daemon, current: Deployment) returns (ok: bool)
      requires clock == |trace|
      modifies this
      ensures Did(old(trace), Replace(cfg, world, old(clock), d, current), ok)
    {
      ghost var before, n := trace, clock;
      var annotated := world.annotate(clock);
      Record(Annotated(d.deployment, annotated));
      if !annotated {
        return false;
      }
      var updated := world.update(clock);
      Record(Updated(d.deployment, updated));
      if !updated {
        return false;
      }
      var sleepTime, attempts := 2, 30;
      if current.progressDeadlineSeconds.Some? {
        attempts := 2 * Quo(current.progressDeadlineSeconds.value, sleepTime);
      }
      ReplaceStep(cfg, world, n, d, current);
      assert trace == before + [Annotated(d.deployment, true), Updated(d.deployment, true)];
      ok := RunWait(d, current, attempts);
      Regroup(before, [Annotated(d.deployment, true), Updated(d.deployment, true)],
        Wait(cfg, world, n + 2, d, current, attempts, 0).events);
    }

    /** One turn of the loop over the deployments. */
    method RunNext(daemons: seq<Daemon>, k: nat, sofar: bool) returns (ok: bool)
      requires k < |daemons| && Did([], Upgrade(cfg, world, 0, daemons[..k]), sofar)
      requires sofar || !cfg.stopOnError
      modifies this
      ensures Did([], Upgrade(cfg, world, 0, daemons[..k+1]), ok)
    {
      ghost var first, before, n := Upgrade(cfg, world, 0, daemons[..k]).events, trace, clock;
      UpgradeStep(cfg, world, daemons, k);
      Appended(first, []);
      var one := UpdateDeploymentAndWait(daemons[k]);
      ok := sofar && one;
      Appended(first, UpdateAndWait(cfg, world, n, daemons[k]).events);
      assert before == first && n == |first|;
    }

    /** The loop over the deployments. */
    method RunAll(daemons: seq<Daemon>) returns (ok: bool)
      requires clock == 0 && trace == []
      modifies this
      ensures Did([], Upgrade(cfg, world, 0, daemons), ok)
    {
      ok := true;
      var k := 0;
      while k < |daemons| && (ok || !cfg.stopOnError)
        invariant 0 <= k <= |daemons|
        invariant Did([], Upgrade(cfg, world, 0, daemons[..k]), ok)
      {
        ok := RunNext(daemons, k, ok);
        k := k + 1;
      }
      StoppedEarly(cfg, world, daemons, k);
    }

    /** One deployment at a time. A strict upgrade of distinct OSD deployments is safe, however the cluster
        behaves; if it reports success, every update it made has settled. */
    method RunUpgrade(daemons: seq<Daemon>) returns (ok: bool)
      requires clock == 0 && trace == []
      modifies this
      ensures Did([], Upgrade(cfg, world, 0, daemons), ok)
      ensures Strict(cfg) && OsdUpgrade(daemons) ==> Safe(trace, daemons) && (ok ==> AllSettled(trace))
      ensures ChecksEnforced(cfg) && OsdUpgrade(daemons) ==> AllStopsChecked(trace, daemons)
    {
      ok := RunAll(daemons);
      assert trace == Upgrade(cfg, world, 0, daemons).events;
      if OsdUpgrade(daemons) && ChecksEnforced(cfg) {
        EnforcedChecksGuardUpdates(cfg, world, 0, daemons);
        if cfg.stopOnError {
          StrictUpgradeIsSafe(cfg, world, 0, daemons);
        }
      }
    }
  }

  lemma Regroup(a: Trace, b: Trace, c: Trace)
    ensures (a + b) + c == a + (b + c)
  {
  }

  lemma Appended(a: Trace, b: Trace)
    ensures [] + a == a && [] + (a + b) == a + b
  {
  }

  /** What is still to be done, when a run of `whole` begun at `start` has reached `now`. */
  ghost predicate LeftOf(start: Trace, whole: Ran, now: Trace, rest: Ran) {
    now + rest.events == start + whole.events && rest.ok == whole.ok
  }

  lemma LeftAfter(start: Trace, whole: Ran, now: Trace, did: Trace, slept: Event, rest: Ran)
    requires LeftOf(start, whole, now, Then(Then(Ran(did, false), Ran([slept], false)), rest))
    ensures LeftOf(start, whole, now + did + [slept], rest)
  {
    assert now + (did + [slept] + rest.events) == (now + did + [slept]) + rest.events;
  }

  lemma SingleVersion(versions: map<string, int>, v: string)
    requires |versions| == 1 && v in versions
    ensures versions[v] < 3 <==> FewMons(versions)
  {
    assert versions.Keys == {v} by {
      assert |versions.Keys - {v}| == 0;
    }
  }

  /** Once a strict loop has failed, the deployments left over add nothing. */
  lemma {:induction false} StoppedEarly(cfg: Config, w: World, daemons: seq<Daemon>, k: nat)
    requires k <= |daemons|
    requires k == |daemons| || (!Upgrade(cfg, w, 0, daemons[..k]).ok && cfg.stopOnError)
    ensures Upgrade(cfg, w, 0, daemons) == Upgrade(cfg, w, 0, daemons[..k])
    decreases |daemons|
  {
    if k == |daemons| {
      assert daemons[..k] == daemons;
    } else {
      var init := daemons[..|daemons|-1];
      assert init[..k] == daemons[..k];
      StoppedEarly(cfg, w, init, k);
    }
  }
}
