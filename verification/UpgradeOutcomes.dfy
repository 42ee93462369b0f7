/** What the checks, the wait and a whole call come to: exactly when each of them returns nil, in terms of how
    the cluster answered. */
module UpgradeOutcomes {
  import opened Wrappers
  import opened UpgradeProtocol
  import opened UpgradeSafety
  import opened UpgradeTheorems

  // ---------- the checks ----------

  /** osdDoNothing holds if and only if the trace shows that it does. */
  lemma DoNothingIff(w: World, n: nat, before: Event)
    requires !before.TreeRead?
    ensures var r := DoNothing(w, n); r.ok <==> NothingAt([before] + r.events, 1, |r.events|)
  {
    var osds := w.osdList(n);
    var r := DoNothing(w, n);
    if osds.Some? && |osds.value| >= 3 {
      if w.osdTree(n + 1).Some? {
        assert r.events == [OsdsListed(osds), TreeRead(w.osdTree(n + 1)), OsdsListed(w.osdList(n + 2))];
      } else {
        assert r.events == [OsdsListed(osds), TreeRead(None)];
      }
    }
  }

  /** An OSD's stop check passes if and only if ok-to-stop was answered or no check was needed. */
  lemma OsdStopIff(w: World, n: nat, d: Daemon)
    requires d.daemonType == "osd"
    ensures OkToStop(w, n, d).ok <==> StopSeen(OkToStop(w, n, d).events, d)
  {
    var r, read, nothing := OkToStop(w, n, d), VersionsRead(w.monVersions(n)), DoNothing(w, n + 1);
    StopEvidence(w, n, d);
    if w.monVersions(n).Some? && !nothing.ok {
      var asked := StopDaemon(w, n + 1 + |nothing.events|, d);
      assert r.events == [read] + nothing.events + asked.events;
      assert r.events[|r.events|-1] == asked.events[0];
    }
  }

  /** The other daemons: without their versions nothing passes; managers, gateways, mirrors and NFS servers are
      not checked, nor are one or two monitors of one version; everything else has to be ok to stop. */
  lemma OtherStopIff(w: World, n: nat, d: Daemon)
    requires d.daemonType != "osd"
    ensures OkToStop(w, n, d).ok <==> (w.monVersions(n).Some? && (
      || d.daemonType in ["mgr", "rgw", "rbd-mirror", "nfs"]
      || (d.daemonType == "mon" && exists v, count :: w.monVersions(n).value == map[v := count] && count < 3)
      || w.okToStop(n + 1)))
    ensures w.monVersions(n).Some? && w.okToStop(n + 1) ==> OkToStop(w, n, d).ok
  {
    if w.monVersions(n).Some? {
      FewMonsMeans(w.monVersions(n).value);
    }
  }

  lemma FewMonsMeans(versions: map<string, int>)
    ensures FewMons(versions) <==> exists v, count :: versions == map[v := count] && count < 3
  {
    if FewMons(versions) {
      var v :| v in versions && versions[v] < 3;
      var rest := versions.Keys - {v};
      assert versions.Keys == {v} + rest && |versions.Keys| == |versions|;
      assert rest == {};
      assert versions == map[v := versions[v]];
    }
    if v, count :| versions == map[v := count] && count < 3 {
      assert versions[v] < 3;
    }
  }

  /** A retry returns nil if and only if one of its tries does, each try beginning where the one before and the
      sleep after it ended. */
  ghost function TryAt(attempt: nat -> Ran, n: nat, k: nat): nat {
    if k == 0 then n else var before := TryAt(attempt, n, k - 1); before + |attempt(before).events| + 1
  }

  lemma {:induction false} TryAtNext(attempt: nat -> Ran, n: nat, k: nat)
    ensures TryAt(attempt, n + |attempt(n).events| + 1, k) == TryAt(attempt, n, k + 1)
  {
    if k > 0 {
      TryAtNext(attempt, n, k - 1);
    }
  }

  lemma {:induction false} RetryIff(attempt: nat -> Ran, n: nat, retries: nat, delay: int)
    ensures Retry(attempt, n, retries, delay).ok <==> exists k: nat :: k <= retries && attempt(TryAt(attempt, n, k)).ok
    decreases retries
  {
    var r, next := attempt(n), n + |attempt(n).events| + 1;
    assert TryAt(attempt, n, 0) == n;
    if r.ok {
      assert attempt(TryAt(attempt, n, 0)).ok;
    } else if retries > 0 {
      RetryIff(attempt, next, retries - 1, delay);
      if k: nat :| k <= retries - 1 && attempt(TryAt(attempt, next, k)).ok {
        TryAtNext(attempt, n, k);
        assert k + 1 <= retries && attempt(TryAt(attempt, n, k + 1)).ok;
      }
      if k: nat :| k <= retries && attempt(TryAt(attempt, n, k)).ok {
        assert k > 0;
        TryAtNext(attempt, n, k - 1);
        assert attempt(TryAt(attempt, next, k - 1)).ok;
      }
    }
  }

  ghost function Sleeps(t: Trace): nat {
    if t == [] then 0 else Sleeps(t[..|t|-1]) + if t[|t|-1].Slept? then 1 else 0
  }

  lemma {:induction false} SleepsConcat(a: Trace, b: Trace)
    ensures Sleeps(a + b) == Sleeps(a) + Sleeps(b)
  {
    if b == [] {
      assert a + b == a;
    } else {
      assert (a + b)[..|a + b|-1] == a + b[..|b|-1];
      SleepsConcat(a, b[..|b|-1]);
    }
  }

  ghost predicate Awake(t: Trace) {
    forall k | 0 <= k < |t| :: !t[k].Slept?
  }

  lemma {:induction false} AwakeSleepsNot(t: Trace)
    requires Awake(t)
    ensures Sleeps(t) == 0
  {
    if t != [] {
      AwakeSleepsNot(t[..|t|-1]);
    }
  }

  /** So many sleeps at most, of so many seconds each, and all of them taken before giving up. */
  ghost predicate Patient(r: Ran, sleeps: nat, seconds: int) {
    && Sleeps(r.events) <= sleeps && (!r.ok ==> Sleeps(r.events) == sleeps)
    && forall k | 0 <= k < |r.events| && r.events[k].Slept? :: r.events[k].seconds == seconds
  }

  lemma PatientTurn(r: Ran, delay: int, rest: Ran, sleeps: nat)
    requires Awake(r.events) && Patient(rest, sleeps, delay)
    ensures Patient(Then(Then(r, Ran([Slept(delay)], false)), rest), sleeps + 1, delay)
  {
    var head := r.events + [Slept(delay)];
    assert [Slept(delay)][..0] == [];
    AwakeSleepsNot(r.events);
    SleepsConcat(r.events, [Slept(delay)]);
    SleepsConcat(head, rest.events);
  }

  /** Between tries a retry sleeps, and it gives up only after sleeping that often. */
  lemma {:induction false} RetrySleeps(attempt: nat -> Ran, n: nat, retries: nat, delay: int)
    requires forall m: nat :: Awake(attempt(m).events)
    ensures Patient(Retry(attempt, n, retries, delay), retries, delay)
    decreases retries
  {
    var r := attempt(n);
    AwakeSleepsNot(r.events);
    if r.ok || retries == 0 {
      assert Retry(attempt, n, retries, delay) == r;
    } else {
      RetrySleeps(attempt, n + |r.events| + 1, retries - 1, delay);
      PatientTurn(r, delay, Retry(attempt, n + |r.events| + 1, retries - 1, delay), retries - 1);
    }
  }

  lemma StopPatience(cfg: Config, w: World, n: nat, d: Daemon)
    ensures Patient(StopChecks(cfg, w, n, d), cfg.limits.stop, 60)
  {
    forall m: nat
      ensures Awake(StopAttempt(cfg, w, d)(m).events)
    {
    }
    RetrySleeps(StopAttempt(cfg, w, d), n, cfg.limits.stop, 60);
  }

  lemma CleanPatience(cfg: Config, w: World, n: nat)
    ensures Patient(Retry(CleanAttempt(w), n, cfg.limits.clean, 60), cfg.limits.clean, 60)
  {
    RetrySleeps(CleanAttempt(w), n, cfg.limits.clean, 60);
  }

  lemma AwakeBefore(head: Trace, r: Ran, sleeps: nat, seconds: int)
    requires Awake(head) && Patient(r, sleeps, seconds)
    ensures Patient(Ran(head + r.events, r.ok), sleeps, seconds)
  {
    AwakeSleepsNot(head);
    SleepsConcat(head, r.events);
  }

  lemma OsdPatience(cfg: Config, w: World, n: nat, d: Daemon)
    requires d.daemonType == "osd"
    ensures Patient(OkToContinue(cfg, w, n, d), cfg.limits.clean, 60)
  {
    var nothing := DoNothing(w, n);
    assert Awake(nothing.events);
    if nothing.ok {
      AwakeSleepsNot(nothing.events);
    } else {
      var m := n + |nothing.events|;
      CleanPatience(cfg, w, m);
      AwakeBefore(nothing.events, Retry(CleanAttempt(w), m, cfg.limits.clean, 60), cfg.limits.clean, 60);
    }
  }

  lemma MdsPatience(cfg: Config, w: World, n: nat, d: Daemon)
    requires d.daemonType == "mds"
    ensures Patient(OkToContinue(cfg, w, n, d), cfg.limits.mds, 15)
  {
    RetrySleeps(MdsAttempt(w), n, cfg.limits.mds, 15);
  }

  /** With the code's limits: five sleeps of a minute for a stop check, ten of a minute for the placement groups
      to settle, ten of fifteen seconds for a metadata server; never more, and that many before giving up. */
  lemma PatienceOfChecks(cfg: Config, w: World, n: nat, d: Daemon)
    requires cfg.limits == LIMITS
    ensures Patient(StopChecks(cfg, w, n, d), 5, 60)
    ensures d.daemonType == "osd" ==> Patient(OkToContinue(cfg, w, n, d), 10, 60)
    ensures d.daemonType == "mds" ==> Patient(OkToContinue(cfg, w, n, d), 10, 15)
    ensures d.daemonType != "osd" && d.daemonType != "mds" ==> OkToContinue(cfg, w, n, d) == Ran([], true)
  {
    StopPatience(cfg, w, n, d);
    if d.daemonType == "osd" {
      OsdPatience(cfg, w, n, d);
    } else if d.daemonType == "mds" {
      MdsPatience(cfg, w, n, d);
    }
  }

  // ---------- the continue check ----------

  lemma {:induction false} FailedCleanRetry(w: World, n: nat, retries: nat)
    ensures var r := Retry(CleanAttempt(w), n, retries, 60); r.events != [] && r.events[0].StatusRead?
    ensures var r := Retry(CleanAttempt(w), n, retries, 60); r.ok <==> EndsClean(r.events)
    decreases retries
  {
    var attempt := CleanAttempt(w);
    var a := attempt(n);
    if !a.ok && retries > 0 {
      FailedCleanRetry(w, n + |a.events| + 1, retries - 1);
      var rest := Retry(attempt, n + |a.events| + 1, retries - 1, 60);
      var r := Retry(attempt, n, retries, 60);
      assert r.events == a.events + [Slept(60)] + rest.events;
      assert r.events[|r.events|-1] == rest.events[|rest.events|-1];
    }
  }

  /** An OSD's continue check passes if and only if the last status was clean or no check was needed. */
  lemma OsdContinueIff(cfg: Config, w: World, n: nat, d: Daemon, before: Event)
    requires d.daemonType == "osd" && !before.TreeRead?
    ensures var r := OkToContinue(cfg, w, n, d); r.ok <==> ContinueSeen(before, r.events)
  {
    var r, nothing := OkToContinue(cfg, w, n, d), DoNothing(w, n);
    DoNothingIff(w, n, before);
    if !nothing.ok {
      var clean := Retry(CleanAttempt(w), n + |nothing.events|, cfg.limits.clean, 60);
      FailedCleanRetry(w, n + |nothing.events|, cfg.limits.clean);
      assert r.events == nothing.events + clean.events;
      assert r.events[|r.events|-1] == clean.events[|clean.events|-1];
      NothingIsShort(before, nothing.events, clean.events);
    }
  }

  /** What was no osdDoNothing is none with something else after it. */
  lemma NothingIsShort(before: Event, nothing: Trace, more: Trace)
    requires more != [] && more[0].StatusRead? && 1 <= |nothing| <= 3
    requires !NothingAt([before] + nothing, 1, |nothing|)
    ensures !NothingAt([before] + nothing + more, 1, |nothing + more|)
    ensures [before] + nothing + more == [before] + (nothing + more)
  {
    var u := [before] + nothing + more;
    assert u[|nothing| + 1] == more[0];
    assert forall k | 0 <= k <= |nothing| :: u[k] == ([before] + nothing)[k];
  }

  lemma {:induction false} MdsTryAt(w: World, n: nat, k: nat)
    ensures TryAt(MdsAttempt(w), n, k) == n + 2 * k
  {
    if k > 0 {
      MdsTryAt(w, n, k - 1);
    }
  }

  /** A metadata server may be passed by if it is found ready once in the allowed number of tries. */
  lemma MdsContinueIff(cfg: Config, w: World, n: nat, d: Daemon)
    requires d.daemonType == "mds"
    ensures OkToContinue(cfg, w, n, d).ok <==> exists k: nat :: k <= cfg.limits.mds && MdsReadyAt(w, n, k)
  {
    RetryIff(MdsAttempt(w), n, cfg.limits.mds, 15);
    if k: nat :| k <= cfg.limits.mds && MdsAttempt(w)(TryAt(MdsAttempt(w), n, k)).ok {
      MdsTryAt(w, n, k);
      assert MdsReadyAt(w, n, k);
    }
    if k: nat :| k <= cfg.limits.mds && MdsReadyAt(w, n, k) {
      MdsTryAt(w, n, k);
      assert MdsAttempt(w)(TryAt(MdsAttempt(w), n, k)).ok;
    }
  }

  ghost predicate MdsReadyAt(w: World, n: nat, k: nat) {
    w.mdsReady(n + 2 * k)
  }

  /** With failed checks excused, or checks skipped, no check ever fails. */
  lemma ExcusedNeverFails(cfg: Config, w: World, n: nat, d: Daemon)
    ensures cfg.skipChecks ==> VerifyStop(cfg, w, n, d) == VerifyContinue(cfg, w, n, d) == Ran([], true)
    ensures !cfg.skipChecks ==> VerifyStop(cfg, w, n, d).events == OkToStop(w, n, d).events
    ensures !cfg.skipChecks ==> VerifyContinue(cfg, w, n, d).events == OkToContinue(cfg, w, n, d).events
    ensures cfg.continueIfUnhealthy ==> VerifyStop(cfg, w, n, d).ok && VerifyContinue(cfg, w, n, d).ok
    ensures ChecksEnforced(cfg) ==> VerifyStop(cfg, w, n, d) == OkToStop(w, n, d)
    ensures ChecksEnforced(cfg) ==> VerifyContinue(cfg, w, n, d) == OkToContinue(cfg, w, n, d)
  {
  }

  // ---------- the wait ----------

  /** The k-th poll after call n shows new pods, up and ready, and the continue check after it passes. */
  ghost predicate BackAt(cfg: Config, w: World, n: nat, d: Daemon, before: Deployment, k: nat) {
    && w.deployment(n + 2 * k).Some?
    && var now := w.deployment(n + 2 * k).value;
       && now.observedGeneration != before.observedGeneration && now.updatedReplicas > 0 && now.readyReplicas > 0
       && VerifyContinue(cfg, w, n + 2 * k + 1, d).ok
  }

  /** The k-th poll shows neither that, nor that the deployment gave up. */
  ghost predicate StillOutAt(w: World, n: nat, before: Deployment, k: nat) {
    && w.deployment(n + 2 * k).Some?
    && var now := w.deployment(n + 2 * k).value;
       && !(now.observedGeneration != before.observedGeneration && now.updatedReplicas > 0 && now.readyReplicas > 0)
       && forall c | c in now.conditions ::
            !(c.conditionType == "Progressing" && c.reason == "ProgressDeadlineExceeded")
  }

  /** The k-th poll is the first that shows new pods, after others that leave it open. */
  ghost predicate BackFirstAt(cfg: Config, w: World, n: nat, d: Daemon, before: Deployment, k: nat) {
    BackAt(cfg, w, n, d, before, k) && forall j: nat | j < k :: StillOutAt(w, n, before, j)
  }

  lemma ExceededMeans(now: Deployment)
    ensures DeadlineExceeded(now) <==>
      exists c :: c in now.conditions && c.conditionType == "Progressing" && c.reason == "ProgressDeadlineExceeded"
  {
    if c :| c in now.conditions && c.conditionType == "Progressing" && c.reason == "ProgressDeadlineExceeded" {
      var k :| 0 <= k < |now.conditions| && now.conditions[k] == c;
      assert now.conditions[k] == Condition("Progressing", "ProgressDeadlineExceeded");
    }
  }

  lemma LaterPolls(cfg: Config, w: World, n: nat, d: Daemon, before: Deployment, m: nat)
    requires m == n + 2 && StillOutAt(w, n, before, 0)
    ensures forall k: nat :: BackFirstAt(cfg, w, n, d, before, k) ==> k > 0 && BackFirstAt(cfg, w, m, d, before, k - 1)
    ensures forall k: nat :: BackFirstAt(cfg, w, m, d, before, k) ==> BackFirstAt(cfg, w, n, d, before, k + 1)
  {
    forall k: nat
      ensures BackAt(cfg, w, m, d, before, k) <==> BackAt(cfg, w, n, d, before, k + 1)
      ensures StillOutAt(w, m, before, k) <==> StillOutAt(w, n, before, k + 1)
    {
      assert m + 2 * k == n + 2 * (k + 1);
    }
    assert forall j: nat | j > 0 :: StillOutAt(w, n, before, j) <==> StillOutAt(w, m, before, j - 1);
  }

  lemma {:induction false} WaitFromIff(
      cfg: Config, w: World, n: nat, d: Daemon, before: Deployment, attempts: int, i: nat)
    ensures Wait(cfg, w, n, d, before, attempts, i).ok <==>
      exists k: nat :: k < attempts - i && BackFirstAt(cfg, w, n, d, before, k)
    decreases attempts - i
  {
    if i < attempts {
      WaitStep(cfg, w, n, d, before, attempts, i);
      var now := w.deployment(n);
      if now.Some? {
        ExceededMeans(now.value);
      }
      if now.Some? && !Restarted(before, now.value) && !DeadlineExceeded(now.value) {
        var m := n + 2;
        assert StillOutAt(w, n, before, 0);
        WaitFromIff(cfg, w, m, d, before, attempts, i + 1);
        LaterPolls(cfg, w, n, d, before, m);
        if k: nat :| k < attempts - i && BackFirstAt(cfg, w, n, d, before, k) {
          assert k - 1 < attempts - (i + 1) && BackFirstAt(cfg, w, m, d, before, k - 1);
        }
        if k: nat :| k < attempts - (i + 1) && BackFirstAt(cfg, w, m, d, before, k) {
          assert k + 1 < attempts - i && BackFirstAt(cfg, w, n, d, before, k + 1);
        }
      } else {
        WaitEndsNow(cfg, w, n, d, before);
        assert Wait(cfg, w, n, d, before, attempts, i).ok <==> BackFirstAt(cfg, w, n, d, before, 0);
      }
    }
  }

  /** If the first poll decides, no later one does. */
  lemma WaitEndsNow(cfg: Config, w: World, n: nat, d: Daemon, before: Deployment)
    requires !StillOutAt(w, n, before, 0)
    ensures forall k: nat | BackFirstAt(cfg, w, n, d, before, k) :: k == 0
  {
  }

  ghost predicate ComesBack(cfg: Config, w: World, n: nat, d: Daemon, before: Deployment, polls: int) {
    exists k: nat :: k < polls && BackFirstAt(cfg, w, n, d, before, k)
  }

  /** The wait returns nil if and only if, before the attempts run out, some poll shows another generation with
      updated and ready replicas and its continue check passes, every poll before having been answered, not
      showing that, and not showing an exceeded deadline. */
  lemma WaitIff(cfg: Config, w: World, n: nat, d: Daemon, before: Deployment, attempts: int)
    ensures Wait(cfg, w, n, d, before, attempts, 0).ok <==> ComesBack(cfg, w, n, d, before, attempts)
  {
    WaitFromIff(cfg, w, n, d, before, attempts, 0);
  }

  /** The k-th poll is where it should be, two seconds after the one before. */
  ghost predicate PolledAt(t: Trace, k: nat, polled: Event) {
    2 * k < |t| && t[2 * k] == polled && (k > 0 ==> t[2 * k - 1] == Slept(2))
  }

  lemma PolledLater(first: Event, t: Trace, k: nat, polled: Event)
    requires PolledAt(t, k, polled)
    ensures PolledAt([first] + [Slept(2)] + t, k + 1, polled)
  {
  }

  lemma {:induction false} OpenTurn(cfg: Config, w: World, n: nat, d: Daemon, before: Deployment, attempts: int, i: nat)
    requires i < attempts && StillOutAt(w, n, before, 0)
    ensures Wait(cfg, w, n, d, before, attempts, i).events ==
      [Polled(d.deployment, w.deployment(n))] + [Slept(2)] + Wait(cfg, w, n + 2, d, before, attempts, i + 1).events
  {
    WaitStep(cfg, w, n, d, before, attempts, i);
    ExceededMeans(w.deployment(n).value);
  }

  lemma FirstPoll(cfg: Config, w: World, n: nat, d: Daemon, before: Deployment, attempts: int, i: nat)
    requires i < attempts
    ensures PolledAt(Wait(cfg, w, n, d, before, attempts, i).events, 0, Polled(d.deployment, w.deployment(n)))
  {
    WaitStep(cfg, w, n, d, before, attempts, i);
  }

  lemma StillOutLater(w: World, n: nat, before: Deployment, k: nat, m: nat)
    requires k > 0 && m == n + 2 && forall j: nat | j < k :: StillOutAt(w, n, before, j)
    ensures StillOutAt(w, n, before, 0) && forall j: nat | j < k - 1 :: StillOutAt(w, m, before, j)
  {
    forall j: nat | j < k - 1
      ensures StillOutAt(w, m, before, j)
    {
      assert StillOutAt(w, n, before, j + 1) && m + 2 * j == n + 2 * (j + 1);
    }
  }

  /** While nothing is decided, polls go on, two seconds apart. */
  lemma {:induction false} WaitPolls(
      cfg: Config, w: World, n: nat, d: Daemon, before: Deployment, attempts: int, i: nat, k: nat, at: nat)
    requires i + k < attempts && at == n + 2 * k && forall j: nat | j < k :: StillOutAt(w, n, before, j)
    ensures PolledAt(Wait(cfg, w, n, d, before, attempts, i).events, k, Polled(d.deployment, w.deployment(at)))
    decreases k
  {
    if k == 0 {
      FirstPoll(cfg, w, n, d, before, attempts, i);
    } else {
      var m := n + 2;
      StillOutLater(w, n, before, k, m);
      WaitPolls(cfg, w, m, d, before, attempts, i + 1, k - 1, at);
      OpenTurn(cfg, w, n, d, before, attempts, i);
      var later, polled := Wait(cfg, w, m, d, before, attempts, i + 1).events, Polled(d.deployment, w.deployment(at));
      PolledLater(Polled(d.deployment, w.deployment(n)), later, k - 1, polled);
    }
  }

  // ---------- one deployment ----------

  /** How often a deployment is polled, every two seconds: for a minute, or twice its deadline in even seconds. */
  ghost function Polls(before: Deployment): nat {
    match before.progressDeadlineSeconds
    case None => 30
    case Some(seconds) => if seconds <= 0 then 0 else seconds - seconds % 2
  }

  lemma PollsAreAttempts(before: Deployment)
    ensures Polls(before) == if Attempts(before) < 0 then 0 else Attempts(before)
  {
  }

  lemma ReplaceIff(cfg: Config, w: World, n: nat, d: Daemon, before: Deployment)
    ensures Replace(cfg, w, n, d, before).ok <==>
      (w.annotate(n) && w.update(n + 1) && ComesBack(cfg, w, n + 2, d, before, Polls(before)))
  {
    PollsAreAttempts(before);
    WaitIff(cfg, w, n + 2, d, before, Attempts(before));
  }

  /** A call returns nil if and only if the deployment was read and compared, and either there was nothing to
      change, or the stop checks passed, both writes succeeded, and the new pods came up and settled in time. */
  lemma UpdateAndWaitIff(cfg: Config, w: World, n: nat, d: Daemon)
    ensures UpdateAndWait(cfg, w, n, d).ok <==>
      (w.deployment(n).Some? && (w.patchIsEmpty(n + 1) == Some(true) || ReplacedAt(cfg, w, n, d)))
  {
    if w.deployment(n).Some? && w.patchIsEmpty(n + 1) == Some(false) {
      ReplaceIff(cfg, w, n + 2 + |StopChecks(cfg, w, n + 2, d).events|, d, w.deployment(n).value);
    }
  }

  ghost predicate ReplacedAt(cfg: Config, w: World, n: nat, d: Daemon)
    requires w.deployment(n).Some?
  {
    var stop := StopChecks(cfg, w, n + 2, d);
    var m := n + 2 + |stop.events|;
    && w.patchIsEmpty(n + 1) == Some(false)
    && stop.ok && w.annotate(m) && w.update(m + 1)
    && ComesBack(cfg, w, m + 2, d, w.deployment(n).value, Polls(w.deployment(n).value))
  }

  // ---------- a whole upgrade ----------

  /** The deployment is read at f and found to need no change. */
  ghost predicate UnchangedAt(t: Trace, f: int, name: string) {
    0 <= f < |t| - 1 && t[f].Fetched? && t[f].name == name && t[f+1] == Diffed(Some(true))
  }

  ghost predicate ChangedAt(t: Trace, j: int, name: string) {
    0 <= j < |t| && t[j] == Updated(name, true)
  }

  /** The trace shows that the deployment needed no change, or that it was changed. */
  ghost predicate UpToDate(t: Trace, name: string) {
    (exists f :: UnchangedAt(t, f, name)) || (exists j :: ChangedAt(t, j, name))
  }

  lemma SuccessfulCall(cfg: Config, w: World, n: nat, d: Daemon)
    requires UpdateAndWait(cfg, w, n, d).ok
    ensures UpToDate(UpdateAndWait(cfg, w, n, d).events, d.deployment)
  {
    UpdateAndWaitIff(cfg, w, n, d);
    var t := UpdateAndWait(cfg, w, n, d).events;
    if w.patchIsEmpty(n + 1) == Some(true) {
      assert t == [Fetched(d.deployment, w.deployment(n)), Diffed(Some(true))];
      assert UnchangedAt(t, 0, d.deployment);
    } else {
      var before, stop := w.deployment(n).value, StopChecks(cfg, w, n + 2, d);
      var m := n + 2 + |stop.events|;
      ReplaceStep(cfg, w, m, d, before);
      assert ChangedAt(t, |stop.events| + 3, d.deployment);
    }
  }

  lemma UpToDateStays(a: Trace, b: Trace, name: string)
    ensures UpToDate(a, name) || UpToDate(b, name) ==> UpToDate(a + b, name)
  {
    var t := a + b;
    assert forall f | UnchangedAt(a, f, name) :: UnchangedAt(t, f, name);
    assert forall j | ChangedAt(a, j, name) :: ChangedAt(t, j, name);
    assert forall f | UnchangedAt(b, f, name) :: UnchangedAt(t, |a| + f, name);
    assert forall j | ChangedAt(b, j, name) :: ChangedAt(t, |a| + j, name);
  }

  /** The call for the k-th deployment, made where the calls for those before it ended. */
  ghost function CallAt(cfg: Config, w: World, n: nat, daemons: seq<Daemon>, k: nat): Ran
    requires k < |daemons|
  {
    UpdateAndWait(cfg, w, n + |Upgrade(cfg, w, n, daemons[..k]).events|, daemons[k])
  }

  lemma CallAtInit(cfg: Config, w: World, n: nat, daemons: seq<Daemon>, k: nat)
    requires k < |daemons| - 1
    ensures CallAt(cfg, w, n, daemons[..|daemons|-1], k) == CallAt(cfg, w, n, daemons, k)
  {
    assert daemons[..|daemons|-1][..k] == daemons[..k];
  }

  lemma UpgradeOkStep(cfg: Config, w: World, n: nat, daemons: seq<Daemon>)
    requires daemons != []
    ensures Upgrade(cfg, w, n, daemons).ok <==>
      (Upgrade(cfg, w, n, daemons[..|daemons|-1]).ok && CallAt(cfg, w, n, daemons, |daemons| - 1).ok)
    ensures var r, first := Upgrade(cfg, w, n, daemons), Upgrade(cfg, w, n, daemons[..|daemons|-1]);
      r.ok ==> r.events == first.events + CallAt(cfg, w, n, daemons, |daemons| - 1).events
  {
  }

  /** Deployments are taken in order, and a loop that stops at errors makes no call after the first. */
  lemma {:induction false} UpgradeInOrder(cfg: Config, w: World, n: nat, daemons: seq<Daemon>, k: nat)
    requires k <= |daemons|
    ensures var some, all := Upgrade(cfg, w, n, daemons[..k]), Upgrade(cfg, w, n, daemons);
      && some.events <= all.events
      && (all.ok ==> some.ok)
      && (cfg.stopOnError && !some.ok ==> all == some)
    decreases |daemons|
  {
    if k == |daemons| {
      assert daemons[..k] == daemons;
    } else {
      var init := daemons[..|daemons|-1];
      assert init[..k] == daemons[..k];
      UpgradeInOrder(cfg, w, n, init, k);
    }
  }

  lemma {:induction false} SuccessfulCallAt(cfg: Config, w: World, n: nat, daemons: seq<Daemon>, k: nat)
    requires k < |daemons| && CallAt(cfg, w, n, daemons, k).ok
    ensures UpToDate(CallAt(cfg, w, n, daemons, k).events, daemons[k].deployment)
  {
    SuccessfulCall(cfg, w, n + |Upgrade(cfg, w, n, daemons[..k]).events|, daemons[k]);
  }

  lemma AppendedUpToDate(all: Trace, first: Trace, last: Trace, name: string)
    requires all == first + last && UpToDate(last, name)
    ensures UpToDate(all, name)
  {
    UpToDateStays(first, last, name);
  }

  lemma {:induction false} LastIsUpToDate(cfg: Config, w: World, n: nat, daemons: seq<Daemon>)
    requires daemons != [] && Upgrade(cfg, w, n, daemons).ok
    ensures UpToDate(Upgrade(cfg, w, n, daemons).events, daemons[|daemons|-1].deployment)
  {
    var k, first := |daemons| - 1, Upgrade(cfg, w, n, daemons[..|daemons|-1]).events;
    UpgradeOkStep(cfg, w, n, daemons);
    SuccessfulCallAt(cfg, w, n, daemons, k);
    var last := CallAt(cfg, w, n, daemons, k).events;
    AppendedUpToDate(Upgrade(cfg, w, n, daemons).events, first, last, daemons[k].deployment);
  }

  lemma UpToDateInPrefix(some: Trace, all: Trace, name: string)
    requires some <= all && UpToDate(some, name)
    ensures UpToDate(all, name)
  {
    UpToDateStays(some, all[|some|..], name);
    assert some + all[|some|..] == all;
  }

  /** An upgrade that reports success has brought every deployment up to date. */
  lemma {:induction false} SuccessMeansUpToDate(cfg: Config, w: World, n: nat, daemons: seq<Daemon>, k: nat)
    requires k < |daemons| && Upgrade(cfg, w, n, daemons).ok
    ensures UpToDate(Upgrade(cfg, w, n, daemons).events, daemons[k].deployment)
  {
    var part := daemons[..k+1];
    assert part[|part|-1] == daemons[k];
    UpgradeInOrder(cfg, w, n, daemons, k + 1);
    LastIsUpToDate(cfg, w, n, part);
    UpToDateInPrefix(Upgrade(cfg, w, n, part).events, Upgrade(cfg, w, n, daemons).events, daemons[k].deployment);
  }

  /** An upgrade goes well exactly when every single call does. */
  lemma {:induction false} UpgradeIff(cfg: Config, w: World, n: nat, daemons: seq<Daemon>)
    ensures Upgrade(cfg, w, n, daemons).ok <==> forall k: nat | k < |daemons| :: CallAt(cfg, w, n, daemons, k).ok
    decreases |daemons|
  {
    if daemons != [] {
      var init := daemons[..|daemons|-1];
      UpgradeIff(cfg, w, n, init);
      UpgradeOkStep(cfg, w, n, daemons);
      forall k: nat | k < |init|
        ensures CallAt(cfg, w, n, init, k) == CallAt(cfg, w, n, daemons, k)
      {
        CallAtInit(cfg, w, n, daemons, k);
      }
    }
  }
}
