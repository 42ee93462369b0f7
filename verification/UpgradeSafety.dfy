/** Safety of rolling upgrades of OSDs over every run against every cluster. */
module UpgradeSafety {
  import opened Wrappers
  import opened CephHealth
  import opened UpgradeProtocol

  type Trace = seq<Event>

  // ---------- what must have been seen, read off the trace alone ----------

  /** Positions b to q hold the queries of an osdDoNothing that held: fewer than three OSDs, or all on one host. */
  ghost predicate NothingAt(t: Trace, b: int, q: int) {
    && 0 < b <= q < |t| && !t[b-1].TreeRead?
    && t[b].OsdsListed? && t[b].osds.Some?
    && if |t[b].osds.value| < 3 then q == b
       else
         && q == b + 2
         && t[b+1].TreeRead? && t[b+1].tree.Some?
         && t[q].OsdsListed? && t[q].osds.Some?
         && SameHost(t[b+1].tree.value, t[q].osds.value) == Ok(true)
  }

  /** Positions b to q show that the placement groups settled, or that no check was needed. */
  ghost predicate SettlesAt(t: Trace, b: int, q: int) {
    || NothingAt(t, b, q)
    || (0 <= b == q < |t| && t[q].StatusRead? && t[q].status.Some? && ClusterClean(t[q].status.value))
  }

  /** The last thing seen is that this daemon may be stopped. */
  ghost predicate StopSeen(t: Trace, d: Daemon) {
    && t != []
    && (t[|t|-1] == StopChecked(d.daemonType, d.daemonName, true) || exists b, q :: NothingAt(t, b, q) && q == |t| - 1)
  }

  /** The Update at j came right after the annotation, and that right after a successful stop check. */
  ghost predicate StopAllowed(t: Trace, daemons: seq<Daemon>, j: int) {
    && 2 <= j < |t| && t[j].Updated? && t[j-1] == Annotated(t[j].name, true)
    && exists d :: d in daemons && d.deployment == t[j].name && StopSeen(t[..j-1], d)
  }

  /** The deployment updated at i was fetched at f and seen restarted at p. */
  ghost predicate RestartedAt(t: Trace, i: int, f: int, p: int) {
    && 0 <= f < i < p < |t| && t[i].Updated?
    && t[f].Fetched? && t[f].name == t[i].name && t[f].deployment.Some?
    && t[p].Polled? && t[p].name == t[i].name && t[p].deployment.Some?
    && t[p].deployment.value.observedGeneration != t[f].deployment.value.observedGeneration
    && t[p].deployment.value.updatedReplicas > 0 && t[p].deployment.value.readyReplicas > 0
  }

  /** No other deployment was fetched between f and q: what happened there belongs to one call. */
  ghost predicate OneCall(t: Trace, f: int, q: int) {
    0 <= f < q < |t| && forall k | f < k <= q :: !t[k].Fetched?
  }

  /** Before position n, and in the call that fetched it, the deployment updated at i was seen restarted, and
      then the cluster settled. */
  ghost predicate SettledBy(t: Trace, i: int, n: int) {
    exists f, p, b, q :: RestartedAt(t, i, f, p) && SettlesAt(t, b, q) && OneCall(t, f, q) && p < b && q < n
  }

  ghost predicate IsUpdate(t: Trace, j: int) {
    0 <= j < |t| && t[j].Updated?
  }

  ghost predicate AllStopsChecked(t: Trace, daemons: seq<Daemon>) {
    forall j | IsUpdate(t, j) :: StopAllowed(t, daemons, j)
  }

  /** Between two updates, the first succeeded, was of another deployment, and settled. */
  ghost predicate AllSettledBetween(t: Trace) {
    forall i, j | IsUpdate(t, i) && IsUpdate(t, j) && i < j :: t[i].ok && t[i].name != t[j].name && SettledBy(t, i, j)
  }

  ghost predicate Safe(t: Trace, daemons: seq<Daemon>) {
    AllStopsChecked(t, daemons) && AllSettledBetween(t)
  }

  // ---------- evidence survives in a longer trace ----------

  lemma EmbedNothing(pre: Trace, t: Trace, post: Trace, b: int, q: int)
    requires NothingAt(t, b, q)
    ensures NothingAt(pre + t + post, |pre| + b, |pre| + q)
  {
    var u := pre + t + post;
    assert forall k | 0 <= k < |t| :: u[|pre| + k] == t[k];
    assert u[|pre| + b] == t[b] && u[|pre| + b - 1] == t[b-1] && u[|pre| + q] == t[q];
    assert q == b + 2 ==> u[|pre| + b + 1] == t[b+1];
  }

  lemma EmbedSettles(pre: Trace, t: Trace, post: Trace, b: int, q: int)
    requires SettlesAt(t, b, q)
    ensures SettlesAt(pre + t + post, |pre| + b, |pre| + q)
  {
    if NothingAt(t, b, q) {
      EmbedNothing(pre, t, post, b, q);
    } else {
      assert (pre + t + post)[|pre| + q] == t[q];
    }
  }

  lemma EmbedStopSeen(pre: Trace, t: Trace, d: Daemon)
    requires StopSeen(t, d)
    ensures StopSeen(pre + t, d)
  {
    var u := pre + t;
    assert u[|u|-1] == t[|t|-1];
    if b, q :| NothingAt(t, b, q) && q == |t| - 1 {
      EmbedNothing(pre, t, [], b, q);
      assert pre + t + [] == u;
    }
  }

  lemma EmbedStopAllowed(pre: Trace, t: Trace, post: Trace, daemons: seq<Daemon>, more: seq<Daemon>, j: int)
    requires StopAllowed(t, daemons, j) && forall d | d in daemons :: d in more
    ensures StopAllowed(pre + t + post, more, |pre| + j)
  {
    var u := pre + t + post;
    var d :| d in daemons && d.deployment == t[j].name && StopSeen(t[..j-1], d);
    EmbedStopSeen(pre, t[..j-1], d);
    assert u[|pre| + j] == t[j] && u[|pre| + j - 1] == t[j-1];
    assert u[..|pre| + j - 1] == pre + t[..j-1];
  }

  lemma EmbedSettled(pre: Trace, t: Trace, post: Trace, i: int, n: int, m: int)
    requires SettledBy(t, i, n) && |pre| + n <= m
    ensures SettledBy(pre + t + post, |pre| + i, m)
  {
    var u := pre + t + post;
    var f, p, b, q :| RestartedAt(t, i, f, p) && SettlesAt(t, b, q) && OneCall(t, f, q) && p < b && q < n;
    EmbedSettles(pre, t, post, b, q);
    assert forall k | 0 <= k < |t| :: u[|pre| + k] == t[k];
    assert u[|pre| + i] == t[i] && u[|pre| + f] == t[f] && u[|pre| + p] == t[p];
    assert forall k | |pre| + f < k <= |pre| + q :: u[k] == t[k - |pre|];
    assert OneCall(u, |pre| + f, |pre| + q);
    assert RestartedAt(u, |pre| + i, |pre| + f, |pre| + p);
  }

  // ---------- the checks leave evidence ----------

  /** Events of the checks: nothing but queries and sleeps. */
  ghost predicate Quiet(t: Trace) {
    forall k | 0 <= k < |t| :: !t[k].Updated? && !t[k].Fetched?
  }

  /** A whole sequence of events is one osdDoNothing that held. */
  ghost predicate NothingAfter(before: Event, t: Trace) {
    !before.TreeRead? ==> NothingAt([before] + t, 1, |t|)
  }

  lemma DoNothingEvidence(w: World, n: nat, before: Event)
    ensures var r := DoNothing(w, n); Quiet(r.events) && (r.ok ==> NothingAfter(before, r.events))
  {
    var osds := w.osdList(n);
    if osds.Some? && |osds.value| >= 3 && w.osdTree(n + 1).Some? {
      assert DoNothing(w, n).events == [OsdsListed(osds), TreeRead(w.osdTree(n + 1)), OsdsListed(w.osdList(n + 2))];
    }
  }

  lemma StopEvidence(w: World, n: nat, d: Daemon)
    requires d.daemonType == "osd"
    ensures var r := OkToStop(w, n, d); Quiet(r.events) && (r.ok ==> StopSeen(r.events, d))
  {
    var r, read := OkToStop(w, n, d), VersionsRead(w.monVersions(n));
    if w.monVersions(n).Some? {
      var nothing := DoNothing(w, n + 1);
      DoNothingEvidence(w, n + 1, read);
      if nothing.ok {
        assert r.events == [read] + nothing.events;
        assert NothingAt(r.events, 1, |r.events|-1);
      } else {
        var asked := StopDaemon(w, n + 1 + |nothing.events|, d);
        assert r.events == [read] + nothing.events + asked.events;
        assert r.events[|r.events|-1] == asked.events[0];
      }
    }
  }

  /** A retry that succeeds ends with a successful attempt. */
  lemma {:induction false} RetryEndsWell(attempt: nat -> Ran, n: nat, retries: nat, delay: int)
    returns (pre: Trace, k: nat)
    requires forall m: nat :: Quiet(attempt(m).events)
    ensures Quiet(Retry(attempt, n, retries, delay).events)
    ensures Retry(attempt, n, retries, delay).ok ==>
      attempt(k).ok && Retry(attempt, n, retries, delay).events == pre + attempt(k).events
    decreases retries
  {
    var r := attempt(n);
    pre, k := [], n;
    if !r.ok && retries > 0 {
      pre, k := RetryEndsWell(attempt, n + |r.events| + 1, retries - 1, delay);
      var rest := Retry(attempt, n + |r.events| + 1, retries - 1, delay);
      assert rest.ok ==>
        r.events + [Slept(delay)] + rest.events == (r.events + [Slept(delay)] + pre) + attempt(k).events;
      pre := r.events + [Slept(delay)] + pre;
    }
  }

  ghost predicate ChecksEnforced(cfg: Config) {
    !cfg.skipChecks && !cfg.continueIfUnhealthy
  }

  lemma StopChecksEvidence(cfg: Config, w: World, n: nat, d: Daemon)
    requires ChecksEnforced(cfg) && d.daemonType == "osd"
    ensures var r := StopChecks(cfg, w, n, d); Quiet(r.events) && (r.ok ==> StopSeen(r.events, d))
  {
    var attempt := StopAttempt(cfg, w, d);
    forall m: nat
      ensures Quiet(attempt(m).events) && (attempt(m).ok ==> StopSeen(attempt(m).events, d))
    {
      StopEvidence(w, m, d);
    }
    var pre, k := RetryEndsWell(attempt, n, cfg.limits.stop, 60);
    if StopChecks(cfg, w, n, d).ok {
      EmbedStopSeen(pre, attempt(k).events, d);
    }
  }

  lemma QuietConcat(a: Trace, b: Trace)
    ensures Quiet(a + b) <==> Quiet(a) && Quiet(b)
  {
    assert forall k | 0 <= k < |a| :: (a + b)[k] == a[k];
    assert forall k | 0 <= k < |b| :: (a + b)[|a| + k] == b[k];
  }

  ghost predicate EndsClean(t: Trace) {
    t != [] && t[|t|-1].StatusRead? && t[|t|-1].status.Some? && ClusterClean(t[|t|-1].status.value)
  }

  lemma CleanRetryEvidence(cfg: Config, w: World, n: nat)
    ensures var r := Retry(CleanAttempt(w), n, cfg.limits.clean, 60); Quiet(r.events) && (r.ok ==> EndsClean(r.events))
  {
    var attempt := CleanAttempt(w);
    var pre, k := RetryEndsWell(attempt, n, cfg.limits.clean, 60);
    var r := Retry(attempt, n, cfg.limits.clean, 60);
    if r.ok {
      assert r.events[|r.events|-1] == attempt(k).events[0];
    }
  }

  /** What a continue check that passed, made right after `before`, leaves in the trace. */
  ghost predicate ContinueSeen(before: Event, t: Trace) {
    NothingAfter(before, t) || EndsClean(t)
  }

  lemma EndsCleanLater(head: Trace, t: Trace)
    requires Quiet(head) && Quiet(t)
    ensures Quiet(head + t) && (EndsClean(t) ==> EndsClean(head + t))
  {
    QuietConcat(head, t);
    assert t != [] ==> (head + t)[|head + t|-1] == t[|t|-1];
  }

  lemma ContinueSteps(cfg: Config, w: World, n: nat, d: Daemon)
    requires ChecksEnforced(cfg) && d.daemonType == "osd"
    ensures VerifyContinue(cfg, w, n, d) == (
      var nothing := DoNothing(w, n);
      if nothing.ok then nothing else Then(nothing, Retry(CleanAttempt(w), n + |nothing.events|, cfg.limits.clean, 60)))
  {
  }

  lemma {:induction false} ContinueEvidence(cfg: Config, w: World, n: nat, d: Daemon, before: Event)
    requires ChecksEnforced(cfg) && d.daemonType == "osd"
    ensures Quiet(VerifyContinue(cfg, w, n, d).events)
    ensures VerifyContinue(cfg, w, n, d).ok ==> ContinueSeen(before, VerifyContinue(cfg, w, n, d).events)
  {
    var nothing := DoNothing(w, n);
    DoNothingEvidence(w, n, before);
    ContinueSteps(cfg, w, n, d);
    if !nothing.ok {
      var clean := Retry(CleanAttempt(w), n + |nothing.events|, cfg.limits.clean, 60);
      CleanRetryEvidence(cfg, w, n + |nothing.events|);
      EndsCleanLater(nothing.events, clean.events);
      assert VerifyContinue(cfg, w, n, d).events == nothing.events + clean.events;
    }
  }

  lemma SeenSettles(before: Event, t: Trace) returns (b: int)
    requires ContinueSeen(before, t) && !before.TreeRead?
    ensures 1 <= b && SettlesAt([before] + t, b, |t|)
  {
    b := if NothingAfter(before, t) then 1 else |t|;
    assert EndsClean(t) ==> ([before] + t)[|t|] == t[|t|-1];
  }

  /** A wait that succeeds saw the restart and then the cluster settle. */
  ghost predicate WaitSeen(t: Trace, d: Daemon, before: Deployment, p: int, b: int, q: int) {
    && 0 <= p < b && q < |t| && SettlesAt(t, b, q)
    && t[p].Polled? && t[p].name == d.deployment && t[p].deployment.Some? && Restarted(before, t[p].deployment.value)
  }

  lemma WaitSeenLater(head: Trace, t: Trace, d: Daemon, before: Deployment, p: int, b: int, q: int)
    requires WaitSeen(t, d, before, p, b, q)
    ensures WaitSeen(head + t, d, before, |head| + p, |head| + b, |head| + q)
  {
    EmbedSettles(head, t, [], b, q);
    assert head + t + [] == head + t;
  }

  /** The turn that sees the restart. */
  lemma RestartEvidence(cfg: Config, w: World, n: nat, d: Daemon, before: Deployment, polled: Event)
    returns (b: int, q: int)
    requires ChecksEnforced(cfg) && d.daemonType == "osd"
    requires polled.Polled? && polled.name == d.deployment && polled.deployment.Some?
      && Restarted(before, polled.deployment.value)
    ensures var cont := VerifyContinue(cfg, w, n, d);
      Quiet([polled] + cont.events) && (cont.ok ==> WaitSeen([polled] + cont.events, d, before, 0, b, q))
  {
    var cont := VerifyContinue(cfg, w, n, d);
    ContinueEvidence(cfg, w, n, d, polled);
    QuietConcat([polled], cont.events);
    b, q := 0, |cont.events|;
    if cont.ok {
      b := SeenSettles(polled, cont.events);
    }
  }

  /** A turn that sees no restart yet, and the turns after it. */
  lemma LaterTurnEvidence(d: Daemon, before: Deployment, polled: Event, rest: Ran, p: int, b: int, q: int)
    requires polled.Polled? && Quiet(rest.events) && (rest.ok ==> WaitSeen(rest.events, d, before, p, b, q))
    ensures var r := Then(Then(Ran([polled], false), Ran([Slept(2)], false)), rest);
      Quiet(r.events) && (r.ok ==> WaitSeen(r.events, d, before, p + 2, b + 2, q + 2))
  {
    var head := [polled] + [Slept(2)];
    QuietConcat(head, rest.events);
    if rest.ok {
      WaitSeenLater(head, rest.events, d, before, p, b, q);
    }
  }

  lemma {:induction false} WaitEvidence(
      cfg: Config, w: World, n: nat, d: Daemon, before: Deployment, attempts: int, i: nat)
    returns (p: int, b: int, q: int)
    requires ChecksEnforced(cfg) && d.daemonType == "osd"
    ensures Quiet(Wait(cfg, w, n, d, before, attempts, i).events)
    ensures Wait(cfg, w, n, d, before, attempts, i).ok ==>
      WaitSeen(Wait(cfg, w, n, d, before, attempts, i).events, d, before, p, b, q)
    decreases attempts - i
  {
    p, b, q := 0, 0, 0;
    if i < attempts {
      WaitStep(cfg, w, n, d, before, attempts, i);
      var now := w.deployment(n);
      var polled := Polled(d.deployment, now);
      if now.Some? && Restarted(before, now.value) {
        b, q := RestartEvidence(cfg, w, n + 1, d, before, polled);
      } else if now.Some? && !DeadlineExceeded(now.value) {
        p, b, q := WaitEvidence(cfg, w, n + 2, d, before, attempts, i + 1);
        LaterTurnEvidence(d, before, polled, Wait(cfg, w, n + 2, d, before, attempts, i + 1), p, b, q);
        p, b, q := p + 2, b + 2, q + 2;
      }
    }
  }

  // ---------- one deployment ----------

  /** The only Update in a trace. */
  ghost predicate OnlyUpdate(t: Trace, u: int) {
    forall j :: IsUpdate(t, j) <==> j == u
  }

  ghost predicate NoUpdate(t: Trace) {
    forall j :: !IsUpdate(t, j)
  }

  /** At most one Update, at u: of this deployment and after a stop check. When the call returned nil, the
      update succeeded and the cluster settled. */
  ghost predicate SegmentSafe(t: Trace, d: Daemon, ok: bool, u: int) {
    || NoUpdate(t)
    || (OnlyUpdate(t, u) && t[u].name == d.deployment && StopAllowed(t, [d], u)
        && (ok ==> t[u].ok && SettledBy(t, u, |t|)))
  }

  lemma FailedUpdateIsSafe(d: Daemon, fetched: Event, pre: Trace, tail: Trace)
    requires Quiet(pre) && StopSeen([fetched] + pre, d) && fetched.Fetched?
    requires tail == [Annotated(d.deployment, true), Updated(d.deployment, false)]
    ensures SegmentSafe([fetched] + pre + tail, d, false, |pre| + 2)
  {
    var t := [fetched] + pre + tail;
    assert t[..|pre|+1] == [fetched] + pre;
  }

  lemma WaitedUpdateIsSafe(d: Daemon, before: Deployment, pre: Trace, wait: Trace, ok: bool, p: int, b: int, q: int)
    requires Quiet(pre) && StopSeen([Fetched(d.deployment, Some(before))] + pre, d)
    requires Quiet(wait) && (ok ==> WaitSeen(wait, d, before, p, b, q))
    ensures var update := [Annotated(d.deployment, true), Updated(d.deployment, true)];
      SegmentSafe([Fetched(d.deployment, Some(before))] + pre + update + wait, d, ok, |pre| + 2)
  {
    var head := [Fetched(d.deployment, Some(before))] + pre;
    var middle := head + [Annotated(d.deployment, true), Updated(d.deployment, true)];
    var t, u := middle + wait, |pre| + 2;
    assert t[..u-1] == head;
    assert t[u] == Updated(d.deployment, true) && t[u-1] == Annotated(d.deployment, true) && t[0] == head[0];
    OneUpdate(head[0], pre, d.deployment, wait);
    if ok {
      WaitSeenLater(middle, wait, d, before, p, b, q);
      assert RestartedAt(t, u, 0, |middle| + p) && OneCall(t, 0, |middle| + q);
    }
  }

  lemma OneUpdate(fetched: Event, pre: Trace, name: string, wait: Trace)
    requires fetched.Fetched? && Quiet(pre) && Quiet(wait)
    ensures var t := [fetched] + pre + [Annotated(name, true), Updated(name, true)] + wait;
      OnlyUpdate(t, |pre| + 2) && forall k | 0 < k < |t| :: !t[k].Fetched?
  {
    var t := [fetched] + pre + [Annotated(name, true), Updated(name, true)] + wait;
    assert forall k | 0 < k < |pre| + 1 :: t[k] == pre[k-1];
    assert t[|pre|+1] == Annotated(name, true) && t[|pre|+2] == Updated(name, true);
    assert forall k | |pre| + 3 <= k < |t| :: t[k] == wait[k - |pre| - 3];
  }

  lemma ReplaceEvidence(cfg: Config, w: World, n: nat, d: Daemon, before: Deployment, pre: Trace) returns (u: int)
    requires ChecksEnforced(cfg) && d.daemonType == "osd"
    requires Quiet(pre) && StopSeen([Fetched(d.deployment, Some(before))] + pre, d)
    ensures var r := Replace(cfg, w, n, d, before);
      SegmentSafe([Fetched(d.deployment, Some(before))] + pre + r.events, d, r.ok, u)
  {
    var fetched := Fetched(d.deployment, Some(before));
    u := |pre| + 2;
    if !w.annotate(n) {
      QuietConcat(pre, [Annotated(d.deployment, false)]);
      assert NoUpdate([fetched] + pre + [Annotated(d.deployment, false)]);
    } else if !w.update(n + 1) {
      FailedUpdateIsSafe(d, fetched, pre, [Annotated(d.deployment, true), Updated(d.deployment, false)]);
    } else {
      var wait := Wait(cfg, w, n + 2, d, before, Attempts(before), 0);
      var p, b, q := WaitEvidence(cfg, w, n + 2, d, before, Attempts(before), 0);
      WaitedUpdateIsSafe(d, before, pre, wait.events, wait.ok, p, b, q);
      var mid := [Annotated(d.deployment, true), Updated(d.deployment, true)];
      assert [fetched] + pre + (mid + wait.events) == [fetched] + pre + mid + wait.events;
    }
  }

  lemma SegmentEvidence(cfg: Config, w: World, n: nat, d: Daemon) returns (u: int)
    requires ChecksEnforced(cfg) && d.daemonType == "osd"
    ensures SegmentSafe(UpdateAndWait(cfg, w, n, d).events, d, UpdateAndWait(cfg, w, n, d).ok, u)
  {
    u := -1;
    if w.deployment(n).Some? && w.patchIsEmpty(n + 1) == Some(false) {
      var before := w.deployment(n).value;
      var fetched, diffed := Fetched(d.deployment, Some(before)), Diffed(Some(false));
      var stop := StopChecks(cfg, w, n + 2, d);
      StopChecksEvidence(cfg, w, n + 2, d);
      QuietConcat([diffed], stop.events);
      if stop.ok {
        EmbedStopSeen([fetched, diffed], stop.events, d);
        assert [fetched] + ([diffed] + stop.events) == [fetched, diffed] + stop.events;
        u := ReplaceEvidence(cfg, w, n + 2 + |stop.events|, d, before, [diffed] + stop.events);
      } else {
        assert [fetched] + ([diffed] + stop.events) == [fetched, diffed] + stop.events;
        assert NoUpdate([fetched] + ([diffed] + stop.events));
      }
    }
  }

  // ---------- a whole upgrade ----------

  /** Distinct deployments, all of them OSDs. */
  ghost predicate OsdUpgrade(daemons: seq<Daemon>) {
    && (forall k | 0 <= k < |daemons| :: daemons[k].daemonType == "osd")
    && (forall i, j | 0 <= i < j < |daemons| :: daemons[i].deployment != daemons[j].deployment)
  }

  ghost predicate AllSettled(t: Trace) {
    forall i | IsUpdate(t, i) :: t[i].ok && SettledBy(t, i, |t|)
  }

  ghost predicate UpdatesOnly(t: Trace, daemons: seq<Daemon>) {
    forall j | IsUpdate(t, j) :: exists k :: 0 <= k < |daemons| && daemons[k].deployment == t[j].name
  }

  lemma StopsStayChecked(t: Trace, ev: Trace, daemons: seq<Daemon>, d: Daemon, u: int)
    requires AllStopsChecked(t, daemons)
    requires NoUpdate(ev) || (OnlyUpdate(ev, u) && StopAllowed(ev, [d], u))
    ensures AllStopsChecked(t + ev, daemons + [d])
  {
    forall j | IsUpdate(t + ev, j)
      ensures StopAllowed(t + ev, daemons + [d], j)
    {
      if j < |t| {
        assert IsUpdate(t, j);
        EmbedStopAllowed([], t, ev, daemons, daemons + [d], j);
        assert [] + t + ev == t + ev;
      } else {
        assert IsUpdate(ev, j - |t|);
        EmbedStopAllowed(t, ev, [], [d], daemons + [d], j - |t|);
        assert t + ev + [] == t + ev;
      }
    }
  }

  lemma SettledStays(t: Trace, ev: Trace, i: int, n: int)
    requires IsUpdate(t, i) && SettledBy(t, i, n)
    ensures forall m | n <= m :: SettledBy(t + ev, i, m)
  {
    forall m | n <= m
      ensures SettledBy(t + ev, i, m)
    {
      EmbedSettled([], t, ev, i, n, m);
      assert [] + t + ev == t + ev;
    }
  }

  lemma SettledBetweenStays(t: Trace, ev: Trace, daemons: seq<Daemon>, d: Daemon, u: int)
    requires AllSettledBetween(t) && AllSettled(t) && UpdatesOnly(t, daemons) && OsdUpgrade(daemons + [d])
    requires NoUpdate(ev) || (OnlyUpdate(ev, u) && ev[u].name == d.deployment)
    ensures AllSettledBetween(t + ev)
  {
    forall i, j | IsUpdate(t + ev, i) && IsUpdate(t + ev, j) && i < j
      ensures (t + ev)[i].ok && (t + ev)[i].name != (t + ev)[j].name && SettledBy(t + ev, i, j)
    {
      assert j >= |t| ==> IsUpdate(ev, j - |t|);
      assert i >= |t| ==> IsUpdate(ev, i - |t|);
      assert IsUpdate(t, i);
      if j < |t| {
        assert IsUpdate(t, j);
        SettledStays(t, ev, i, j);
      } else {
        SettledStays(t, ev, i, |t|);
        var k :| 0 <= k < |daemons| && daemons[k].deployment == t[i].name;
        assert (daemons + [d])[k] == daemons[k] && (daemons + [d])[|daemons|] == d;
      }
    }
  }

  lemma AllSettledStays(t: Trace, ev: Trace, u: int)
    requires AllSettled(t)
    requires NoUpdate(ev) || (OnlyUpdate(ev, u) && ev[u].ok && SettledBy(ev, u, |ev|))
    ensures AllSettled(t + ev)
  {
    forall i | IsUpdate(t + ev, i)
      ensures (t + ev)[i].ok && SettledBy(t + ev, i, |t + ev|)
    {
      if i < |t| {
        assert IsUpdate(t, i);
        SettledStays(t, ev, i, |t|);
      } else {
        assert IsUpdate(ev, i - |t|);
        EmbedSettled(t, ev, [], i - |t|, |ev|, |t + ev|);
        assert t + ev + [] == t + ev;
      }
    }
  }

  /** What holds of every trace of an upgrade with the checks enforced. */
  ghost predicate UpgradeSafe(t: Trace, daemons: seq<Daemon>, ok: bool, stopOnError: bool) {
    && AllStopsChecked(t, daemons) && UpdatesOnly(t, daemons)
    && (stopOnError ==> AllSettledBetween(t) && (ok ==> AllSettled(t)))
  }

  lemma UpgradeStops(t: Trace, daemons: seq<Daemon>, d: Daemon)
    requires UpgradeSafe(t, daemons, false, true)
    ensures UpgradeSafe(t, daemons + [d], false, true)
  {
    assert t + [] == t;
    StopsStayChecked(t, [], daemons, d, -1);
    UpdatesStayNamed(t, [], daemons, d, -1);
  }

  lemma UpgradeGoesOn(
      t: Trace, daemons: seq<Daemon>, ok: bool, d: Daemon, ev: Trace, evOk: bool, u: int, stopOnError: bool)
    requires UpgradeSafe(t, daemons, ok, stopOnError) && SegmentSafe(ev, d, evOk, u) && OsdUpgrade(daemons + [d])
    requires stopOnError ==> ok
    ensures UpgradeSafe(t + ev, daemons + [d], ok && evOk, stopOnError)
  {
    StopsStayChecked(t, ev, daemons, d, u);
    UpdatesStayNamed(t, ev, daemons, d, u);
    if stopOnError {
      SettledBetweenStays(t, ev, daemons, d, u);
      if evOk {
        AllSettledStays(t, ev, u);
      }
    }
  }

  /** One more deployment. */
  lemma UpgradeStepEvidence(cfg: Config, w: World, n: nat, init: seq<Daemon>, d: Daemon, first: Ran)
    requires ChecksEnforced(cfg) && OsdUpgrade(init + [d]) && UpgradeSafe(first.events, init, first.ok, cfg.stopOnError)
    ensures var r := UpdateAndWait(cfg, w, n, d);
      var all := if !first.ok && cfg.stopOnError then first else Ran(first.events + r.events, first.ok && r.ok);
      UpgradeSafe(all.events, init + [d], all.ok, cfg.stopOnError)
  {
    if !first.ok && cfg.stopOnError {
      UpgradeStops(first.events, init, d);
    } else {
      assert (init + [d])[|init|] == d;
      var u := SegmentEvidence(cfg, w, n, d);
      var r := UpdateAndWait(cfg, w, n, d);
      UpgradeGoesOn(first.events, init, first.ok, d, r.events, r.ok, u, cfg.stopOnError);
    }
  }

  lemma {:induction false} UpgradeEvidence(cfg: Config, w: World, n: nat, daemons: seq<Daemon>)
    requires ChecksEnforced(cfg) && OsdUpgrade(daemons)
    ensures UpgradeSafe(Upgrade(cfg, w, n, daemons).events, daemons, Upgrade(cfg, w, n, daemons).ok, cfg.stopOnError)
  {
    if daemons != [] {
      var init, d := daemons[..|daemons|-1], daemons[|daemons|-1];
      assert init + [d] == daemons;
      var first := Upgrade(cfg, w, n, init);
      UpgradeEvidence(cfg, w, n, init);
      UpgradeStepEvidence(cfg, w, n + |first.events|, init, d, first);
    }
  }

  lemma UpdatesStayNamed(t: Trace, ev: Trace, daemons: seq<Daemon>, d: Daemon, u: int)
    requires UpdatesOnly(t, daemons)
    requires NoUpdate(ev) || (OnlyUpdate(ev, u) && ev[u].name == d.deployment)
    ensures UpdatesOnly(t + ev, daemons + [d])
  {
    forall j | IsUpdate(t + ev, j)
      ensures exists k :: 0 <= k < |daemons + [d]| && (daemons + [d])[k].deployment == (t + ev)[j].name
    {
      if j < |t| {
        assert IsUpdate(t, j);
        var k :| 0 <= k < |daemons| && daemons[k].deployment == t[j].name;
        assert (daemons + [d])[k] == daemons[k];
      } else {
        assert IsUpdate(ev, j - |t|);
        assert (daemons + [d])[|daemons|] == d;
      }
    }
  }
}
