/** The main results about rolling upgrades: which configurations are safe against every cluster. */
module UpgradeTheorems {
  import opened Wrappers
  import opened UpgradeProtocol
  import opened UpgradeSafety

  /** Checks enforced, and stop at the first error, as the comment on UpdateDeploymentAndWait has it. */
  ghost predicate Strict(cfg: Config) {
    ChecksEnforced(cfg) && cfg.stopOnError
  }

  // ---------- safety ----------

  /** In every run of a strict upgrade of distinct OSD deployments, every Update follows a successful stop
      check, and between two Updates the first deployment restarted and the cluster settled; so each
      deployment is updated at most once. */
  lemma StrictUpgradeIsSafe(cfg: Config, w: World, n: nat, daemons: seq<Daemon>)
    requires Strict(cfg) && OsdUpgrade(daemons)
    ensures Safe(Upgrade(cfg, w, n, daemons).events, daemons)
    ensures Upgrade(cfg, w, n, daemons).ok ==> AllSettled(Upgrade(cfg, w, n, daemons).events)
  {
    UpgradeEvidence(cfg, w, n, daemons);
  }

  /** Whether or not errors stop the loop, enforced checks guard every single Update. */
  lemma EnforcedChecksGuardUpdates(cfg: Config, w: World, n: nat, daemons: seq<Daemon>)
    requires ChecksEnforced(cfg) && OsdUpgrade(daemons)
    ensures AllStopsChecked(Upgrade(cfg, w, n, daemons).events, daemons)
  {
    UpgradeEvidence(cfg, w, n, daemons);
  }

  /** At no point of a safe run are two updated OSDs unsettled. */
  lemma AtMostOneUnsettled(t: Trace, daemons: seq<Daemon>, n: int, i: int, j: int)
    requires Safe(t, daemons) && n <= |t|
    requires IsUpdate(t, i) && i < n && !SettledBy(t, i, n)
    requires IsUpdate(t, j) && j < n && !SettledBy(t, j, n)
    ensures i == j
  {
    if i < j {
      SettledEarlier(t, i, j, n);
    } else if j < i {
      SettledEarlier(t, j, i, n);
    }
  }

  lemma SettledEarlier(t: Trace, i: int, m: int, n: int)
    requires m <= n
    ensures SettledBy(t, i, m) ==> SettledBy(t, i, n)
  {
    if SettledBy(t, i, m) {
      var f, p, b, q :| RestartedAt(t, i, f, p) && SettlesAt(t, b, q) && OneCall(t, f, q) && p < b && q < m;
      assert RestartedAt(t, i, f, p) && SettlesAt(t, b, q) && OneCall(t, f, q) && p < b && q < n;
    }
  }

  // ---------- how often a stop is tried ----------

  /** Every try of a stop check begins by reading the daemon versions. */
  ghost function Tries(t: Trace): nat {
    if t == [] then 0 else Tries(t[..|t|-1]) + if t[|t|-1].VersionsRead? then 1 else 0
  }

  lemma {:induction false} TriesConcat(a: Trace, b: Trace)
    ensures Tries(a + b) == Tries(a) + Tries(b)
  {
    if b == [] {
      assert a + b == a;
    } else {
      assert (a + b)[..|a + b|-1] == a + b[..|b|-1];
      TriesConcat(a, b[..|b|-1]);
    }
  }

  lemma OneTryPerStopCheck(w: World, n: nat, d: Daemon)
    requires d.daemonType == "osd"
    ensures Tries(OkToStop(w, n, d).events) == 1
  {
    var read, nothing := [VersionsRead(w.monVersions(n))], DoNothing(w, n + 1);
    var asked := StopDaemon(w, n + 1 + |nothing.events|, d);
    assert read[..0] == [];
    NoTriesIn(nothing.events);
    NoTriesIn(asked.events);
    TriesConcat(read, nothing.events);
    TriesConcat(read + nothing.events, asked.events);
  }

  lemma {:induction false} NoTriesIn(t: Trace)
    requires forall k | 0 <= k < |t| :: !t[k].VersionsRead?
    ensures Tries(t) == 0
  {
    if t != [] {
      NoTriesIn(t[..|t|-1]);
    }
  }

  lemma {:induction false} RetryTries(attempt: nat -> Ran, n: nat, retries: nat, delay: int)
    requires forall m: nat :: Tries(attempt(m).events) == 1
    ensures 1 <= Tries(Retry(attempt, n, retries, delay).events) <= retries + 1
    ensures !Retry(attempt, n, retries, delay).ok ==> Tries(Retry(attempt, n, retries, delay).events) == retries + 1
    decreases retries
  {
    var r := attempt(n);
    if !r.ok && retries > 0 {
      var rest := Retry(attempt, n + |r.events| + 1, retries - 1, delay);
      RetryTries(attempt, n + |r.events| + 1, retries - 1, delay);
      assert [Slept(delay)][..0] == [];
      TriesConcat(r.events, [Slept(delay)]);
      TriesConcat(r.events + [Slept(delay)], rest.events);
    }
  }

  /** With the limits of the code an OSD's stop check is tried at most six times, and given up only after six. */
  lemma AtMostSixStopTries(cfg: Config, w: World, n: nat, d: Daemon)
    requires ChecksEnforced(cfg) && d.daemonType == "osd" && cfg.limits == LIMITS
    ensures 1 <= Tries(StopChecks(cfg, w, n, d).events) <= 6
    ensures !StopChecks(cfg, w, n, d).ok ==> Tries(StopChecks(cfg, w, n, d).events) == 6
  {
    forall m: nat
      ensures Tries(StopAttempt(cfg, w, d)(m).events) == 1
    {
      OneTryPerStopCheck(w, m, d);
    }
    RetryTries(StopAttempt(cfg, w, d), n, cfg.limits.stop, 60);
  }

  // ---------- only strict configurations are safe ----------

  const UP := Deployment(0, 1, 1, None, [])

  /** A cluster in which Ceph answers nothing and every eighth read of a deployment fails. */
  function Mute(versions: Option<map<string, int>>, stoppable: bool): World {
    World(
      (k: nat) => if k % 8 == 7 then None else Some(UP.(observedGeneration := k)),
      (k: nat) => Some(false), (k: nat) => true, (k: nat) => true,
      (k: nat) => versions, (k: nat) => None, (k: nat) => None, (k: nat) => stoppable,
      (k: nat) => None, (k: nat) => false)
  }

  const A := Daemon("rook-ceph-osd-0", "osd", "0")
  const B := Daemon("rook-ceph-osd-1", "osd", "1")

  lemma UpgradeOfOne(cfg: Config, w: World, d: Daemon)
    ensures Upgrade(cfg, w, 0, [d]) == UpdateAndWait(cfg, w, 0, d)
  {
    assert [d][..0] == [];
    assert Upgrade(cfg, w, 0, []) == Ran([], true);
    assert [] + UpdateAndWait(cfg, w, 0, d).events == UpdateAndWait(cfg, w, 0, d).events;
  }

  /** An Update whose annotation does not come right after a check is unguarded. */
  lemma Unguarded(head: Trace, name: string, tail: Trace, daemons: seq<Daemon>)
    requires head != [] && (head[|head|-1].Diffed? || head[|head|-1].VersionsRead?)
    ensures !AllStopsChecked(head + [Annotated(name, true), Updated(name, true)] + tail, daemons)
  {
    var t := head + [Annotated(name, true), Updated(name, true)] + tail;
    assert t[..|head|] == head;
    assert IsUpdate(t, |head| + 1);
  }

  /** In a cluster that accepts every write, what follows stop checks that returned nil. */
  lemma {:induction false} ReplaceOfWilling(cfg: Config, w: World, n: nat, d: Daemon, before: Deployment, stop: Trace)
    requires StopChecks(cfg, w, n, d) == Ran(stop, true) && w.annotate(n + |stop|) && w.update(n + |stop| + 1)
    ensures CheckedReplace(cfg, w, n, d, before).events == stop +
      ([Annotated(d.deployment, true), Updated(d.deployment, true)] +
       Wait(cfg, w, n + |stop| + 2, d, before, Attempts(before), 0).events)
  {
    ReplaceStep(cfg, w, n + |stop|, d, before);
  }

  /** In such a cluster, an upgrade of one deployment. */
  lemma {:induction false} UpgradeOfWilling(cfg: Config, w: World, d: Daemon, stop: Trace)
    requires w.deployment(0).Some? && w.patchIsEmpty(1) == Some(false) && StopChecks(cfg, w, 2, d) == Ran(stop, true)
    requires w.annotate(2 + |stop|) && w.update(3 + |stop|)
    ensures var before := w.deployment(0); var n := 4 + |stop|;
      Upgrade(cfg, w, 0, [d]).events == [Fetched(d.deployment, before), Diffed(Some(false))] + stop
        + [Annotated(d.deployment, true), Updated(d.deployment, true)]
        + Wait(cfg, w, n, d, before.value, Attempts(before.value), 0).events
  {
    UpgradeOfOne(cfg, w, d);
    UpdateAndWaitSteps(cfg, w, 0, d);
    var before := w.deployment(0);
    var wait := Wait(cfg, w, 4 + |stop|, d, before.value, Attempts(before.value), 0).events;
    ReplaceOfWilling(cfg, w, 2, d, before.value, stop);
    Group4([Fetched(d.deployment, before), Diffed(Some(false))], stop,
           [Annotated(d.deployment, true), Updated(d.deployment, true)], wait);
  }

  lemma {:induction false} Group4(a: Trace, b: Trace, c: Trace, d: Trace)
    ensures a + (b + (c + d)) == a + b + c + d
  {
  }

  lemma MuteStop(cfg: Config)
    ensures cfg.skipChecks ==> StopChecks(cfg, Mute(None, false), 2, A) == Ran([], true)
    ensures !cfg.skipChecks && cfg.continueIfUnhealthy ==>
      StopChecks(cfg, Mute(None, false), 2, A) == Ran([VersionsRead(None)], true)
  {
    RetryStep(StopAttempt(cfg, Mute(None, false), A), 2, cfg.limits.stop, 60);
  }

  /** With the checks skipped, the very first Update is unguarded. */
  lemma SkippingIsUnsafe(cfg: Config)
    requires cfg.skipChecks
    ensures !AllStopsChecked(Upgrade(cfg, Mute(None, false), 0, [A]).events, [A])
  {
    var w := Mute(None, false);
    MuteStop(cfg);
    UpgradeOfWilling(cfg, w, A, []);
    var before := w.deployment(0);
    Unguarded([Fetched(A.deployment, before), Diffed(Some(false))] + [], A.deployment,
      Wait(cfg, w, 4, A, before.value, Attempts(before.value), 0).events, [A]);
  }

  /** With failed checks excused, an Update follows a stop check that failed. */
  lemma ExcusingIsUnsafe(cfg: Config)
    requires !cfg.skipChecks && cfg.continueIfUnhealthy
    ensures !AllStopsChecked(Upgrade(cfg, Mute(None, false), 0, [A]).events, [A])
  {
    var w := Mute(None, false);
    MuteStop(cfg);
    UpgradeOfWilling(cfg, w, A, [VersionsRead(None)]);
    var before := w.deployment(0);
    Unguarded([Fetched(A.deployment, before), Diffed(Some(false))] + [VersionsRead(None)], A.deployment,
      Wait(cfg, w, 5, A, before.value, Attempts(before.value), 0).events, [A]);
  }

  /** What an upgrade of one OSD does in the mute cluster: checked, updated, never seen again. */
  function Lost(d: Daemon, before: Option<Deployment>): (t: Trace)
    ensures |t| == 8 && t[6].Updated? && forall p | 0 <= p < |t| && t[p].Polled? :: t[p].deployment.None?
  {
    [Fetched(d.deployment, before), Diffed(Some(false)), VersionsRead(Some(map[])), OsdsListed(None),
     StopChecked("osd", d.daemonName, true), Annotated(d.deployment, true), Updated(d.deployment, true),
     Polled(d.deployment, None)]
  }

  lemma {:induction false} MuteSegment(cfg: Config, n: nat, d: Daemon)
    requires ChecksEnforced(cfg) && n % 8 == 0 && d.daemonType == "osd"
    ensures var w := Mute(Some(map[]), true); UpdateAndWait(cfg, w, n, d).events == Lost(d, w.deployment(n))
  {
    var w := Mute(Some(map[]), true);
    var before := w.deployment(n).value;
    assert StopChecks(cfg, w, n + 2, d).events ==
      [VersionsRead(Some(map[])), OsdsListed(None), StopChecked("osd", d.daemonName, true)];
    assert Wait(cfg, w, n + 7, d, before, Attempts(before), 0) == Ran([Polled(d.deployment, None)], false);
  }

  /** Two updates and no answered poll: the first cannot have settled. */
  lemma Unsettled(t: Trace, i: int, j: int)
    requires IsUpdate(t, i) && IsUpdate(t, j) && i < j
    requires forall p | 0 <= p < |t| && t[p].Polled? :: t[p].deployment.None?
    ensures !AllSettledBetween(t)
  {
    assert AllSettledBetween(t) ==> SettledBy(t, i, j);
  }

  lemma UpgradeOfTwo(cfg: Config, w: World, c: Daemon, d: Daemon)
    requires !cfg.stopOnError
    ensures var first := UpdateAndWait(cfg, w, 0, c);
      Upgrade(cfg, w, 0, [c, d]).events == first.events + UpdateAndWait(cfg, w, |first.events|, d).events
  {
    assert [c, d][..1] == [c];
    UpgradeOfOne(cfg, w, c);
  }

  /** A loop that goes on after an error, as the one over the OSDs of a node does, updates a second OSD
      while the first has not come back. */
  lemma GoingOnIsUnsafe(cfg: Config)
    requires ChecksEnforced(cfg) && !cfg.stopOnError
    ensures !AllSettledBetween(Upgrade(cfg, Mute(Some(map[]), true), 0, [A, B]).events)
  {
    var w := Mute(Some(map[]), true);
    MuteSegment(cfg, 0, A);
    MuteSegment(cfg, 8, B);
    UpgradeOfTwo(cfg, w, A, B);
    Unsettled(Lost(A, w.deployment(0)) + Lost(B, w.deployment(8)), 6, 14);
  }

  /** An upgrade is safe against every cluster exactly when no check is skipped, no failed check is excused
      and the loop stops at the first error. */
  lemma SafeIffStrict(cfg: Config)
    ensures (forall w, daemons | OsdUpgrade(daemons) :: Safe(Upgrade(cfg, w, 0, daemons).events, daemons)) <==>
      Strict(cfg)
  {
    if Strict(cfg) {
      forall w, daemons | OsdUpgrade(daemons)
        ensures Safe(Upgrade(cfg, w, 0, daemons).events, daemons)
      {
        StrictUpgradeIsSafe(cfg, w, 0, daemons);
      }
    } else {
      assert OsdUpgrade([A]) && OsdUpgrade([A, B]);
      if cfg.skipChecks {
        SkippingIsUnsafe(cfg);
        assert !Safe(Upgrade(cfg, Mute(None, false), 0, [A]).events, [A]);
      } else if cfg.continueIfUnhealthy {
        ExcusingIsUnsafe(cfg);
        assert !Safe(Upgrade(cfg, Mute(None, false), 0, [A]).events, [A]);
      } else {
        GoingOnIsUnsafe(cfg);
        assert !Safe(Upgrade(cfg, Mute(Some(map[]), true), 0, [A, B]).events, [A, B]);
      }
    }
  }
}
