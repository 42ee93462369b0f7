/** The udev event debouncer and the probe loop it feeds, as one timed state machine: every interleaving of
    events, timers and the receiver (udevBlockMonitor and Run in daemon/discover/discover.go). */
module UdevDebounce {
  import opened Wrappers

  /** The debouncing period and the probe interval. */
  datatype Timing = Timing(period: nat, probeInterval: nat)

  /** Where udevBlockMonitor is: not started, at its outer receive, in the inner select, at the send, or returned. */
  datatype Phase = NotStarted | Idle | Waiting(event: string, deadline: int) | Emitting(event: string) | Returned

  /** Where Run is: in its first updateDeviceCM, at its select since some time, in updateDeviceCM, or returned. */
  datatype Runner = Starting | Selecting(since: int) | Probing | Exited

  datatype Receipt = Receipt(event: string, time: int)

  /** A probe, and how many events had been received when it started. */
  datatype Probe = Probe(time: int, seen: nat)

  /** An event handed to Run, the number of events received by then, and the probe it set off. */
  datatype Emission = Emission(event: string, time: int, covered: nat, probe: nat)

  datatype State = State(
    now: int, phase: Phase, runner: Runner, listening: bool, sourceOpen: bool,
    received: seq<Receipt>, emissions: seq<Emission>, probes: seq<Probe>)

  datatype Action =
    | Tick(d: nat)
    | FirstProbeDone(ok: bool)
    | Receive(event: string)
    | CloseSource
    | SeeSourceClosed
    | Fire
    | Emit
    | ProbeTimer
    | ProbeDone
    | SeeReturned
    | Terminate

  /** Run begins with a probe; only when that succeeds does it start the monitor. */
  const INIT := State(0, NotStarted, Starting, true, true, [], [], [Probe(0, 0)])

  function StartProbe(s: State): State {
    s.(runner := Probing, probes := s.probes + [Probe(s.now, |s.received|)])
  }

  /** One step; None when it is not possible. A select takes any branch that is ready. */
  function Step(tm: Timing, s: State, a: Action): Option<State> {
    match a
    case Tick(d) => Some(s.(now := s.now + d))
    case FirstProbeDone(ok) =>
      if !s.runner.Starting? then None
      else if ok then Some(s.(runner := Selecting(s.now), phase := Idle))
      else Some(s.(runner := Exited))
    case Receive(e) =>
      if !s.sourceOpen then None
      else if s.phase.Idle? then
        Some(s.(phase := Waiting(e, s.now + tm.period), received := s.received + [Receipt(e, s.now)]))
      else if s.phase.Waiting? then Some(s.(received := s.received + [Receipt(e, s.now)]))
      else None
    case CloseSource => if s.sourceOpen then Some(s.(sourceOpen := false)) else None
    case SeeSourceClosed =>
      if !s.sourceOpen && (s.phase.Idle? || s.phase.Waiting?) then Some(s.(phase := Returned)) else None
    case Fire =>
      if s.phase.Waiting? && s.now >= s.phase.deadline then Some(s.(phase := Emitting(s.phase.event))) else None
    case Emit =>
      if s.phase.Emitting? && s.runner.Selecting? && s.listening then
        var emission := Emission(s.phase.event, s.now, |s.received|, |s.probes|);
        Some(StartProbe(s).(phase := Idle, emissions := s.emissions + [emission]))
      else None
    case ProbeTimer =>
      if s.runner.Selecting? && s.now >= s.runner.since + tm.probeInterval then Some(StartProbe(s)) else None
    case ProbeDone => if s.runner.Probing? then Some(s.(runner := Selecting(s.now))) else None
    case SeeReturned =>
      if s.runner.Selecting? && s.listening && s.phase.Returned? then
        Some(s.(listening := false, runner := Selecting(s.now)))
      else None
    case Terminate => if s.runner.Selecting? then Some(s.(runner := Exited)) else None
  }

  /** The state after a sequence of steps, if all were possible. */
  function Run(tm: Timing, actions: seq<Action>): Option<State> {
    if actions == [] then Some(INIT)
    else match Run(tm, actions[..|actions|-1])
      case None => None
      case Some(s) => Step(tm, s, actions[|actions|-1])
  }

  // ---------- what holds in every reachable state ----------

  /** How many of the received events the first k emissions account for. */
  ghost function CoveredBy(s: State, k: int): nat
    requires 0 <= k <= |s.emissions|
  {
    if k == 0 then 0 else s.emissions[k-1].covered
  }

  ghost function Covered(s: State): nat {
    CoveredBy(s, |s.emissions|)
  }

  /** Emission k stands for the burst of events received since the emission before: it carries the first of
      them, at least a period after that one was received, and sets off a probe at that very moment. */
  ghost predicate EmissionOk(tm: Timing, s: State, k: int)
    requires 0 <= k < |s.emissions|
  {
    var e, first := s.emissions[k], CoveredBy(s, k);
    && first < e.covered <= |s.received|
    && e.event == s.received[first].event
    && s.received[first].time + tm.period <= e.time <= s.now
    && (k > 0 ==> s.emissions[k-1].time <= s.received[first].time)
    && e.probe < |s.probes| && s.probes[e.probe] == Probe(e.time, e.covered)
    && forall i | 0 <= i < e.covered :: s.received[i].time <= e.time
  }

  ghost predicate PhaseOk(tm: Timing, s: State) {
    match s.phase
    case NotStarted => s.received == [] && s.emissions == [] && !s.runner.Selecting? && !s.runner.Probing?
    case Idle => Covered(s) == |s.received|
    case Waiting(e, deadline) =>
      Covered(s) < |s.received| && s.received[Covered(s)] == Receipt(e, deadline - tm.period)
    case Emitting(e) =>
      Covered(s) < |s.received| && s.received[Covered(s)].event == e && s.received[Covered(s)].time + tm.period <= s.now
    case Returned => Covered(s) <= |s.received| && !s.sourceOpen
  }

  ghost predicate Inv(tm: Timing, s: State) {
    && (forall k | 0 <= k < |s.emissions| :: EmissionOk(tm, s, k))
    && PhaseOk(tm, s)
    && (forall i | 0 <= i < |s.received| :: s.received[i].time <= s.now)
    && (!s.listening ==> s.phase.Returned?)
    && (s.runner.Starting? ==> s.phase.NotStarted?)
    && (s.emissions != [] && Covered(s) < |s.received| ==>
      s.emissions[|s.emissions|-1].time <= s.received[Covered(s)].time)
  }

  /** A longer history keeps old emissions in order. */
  lemma EmissionStays(tm: Timing, s: State, s': State, k: int)
    requires 0 <= k < |s.emissions| && EmissionOk(tm, s, k) && s.now <= s'.now
    requires s.received <= s'.received && s.emissions <= s'.emissions && s.probes <= s'.probes
    ensures EmissionOk(tm, s', k)
  {
    assert s'.received[..|s.received|] == s.received;
    assert CoveredBy(s', k) == CoveredBy(s, k);
  }

  lemma OldEmissionsStay(tm: Timing, s: State, a: Action)
    requires Inv(tm, s) && Step(tm, s, a).Some?
    ensures forall k | 0 <= k < |s.emissions| :: EmissionOk(tm, Step(tm, s, a).value, k)
    ensures s.emissions != [] ==> s.emissions[|s.emissions|-1].time <= s.now
  {
    forall k | 0 <= k < |s.emissions|
      ensures EmissionOk(tm, Step(tm, s, a).value, k)
    {
      EmissionStays(tm, s, Step(tm, s, a).value, k);
    }
    assert s.emissions != [] ==> EmissionOk(tm, s, |s.emissions|-1);
  }

  lemma ReceiveKeepsInv(tm: Timing, s: State, e: string)
    requires Inv(tm, s) && Step(tm, s, Receive(e)).Some?
    ensures Inv(tm, Step(tm, s, Receive(e)).value)
  {
    OldEmissionsStay(tm, s, Receive(e));
  }

  lemma EmitKeepsInv(tm: Timing, s: State)
    requires Inv(tm, s) && Step(tm, s, Emit).Some?
    ensures Inv(tm, Step(tm, s, Emit).value)
  {
    OldEmissionsStay(tm, s, Emit);
    assert EmissionOk(tm, Step(tm, s, Emit).value, |s.emissions|);
  }

  lemma FireKeepsInv(tm: Timing, s: State, a: Action)
    requires Inv(tm, s) && Step(tm, s, a).Some? && (a.Fire? || a.SeeSourceClosed? || a.CloseSource?)
    ensures Inv(tm, Step(tm, s, a).value)
  {
    OldEmissionsStay(tm, s, a);
  }

  lemma StepKeepsInv(tm: Timing, s: State, a: Action)
    requires Inv(tm, s) && Step(tm, s, a).Some?
    ensures Inv(tm, Step(tm, s, a).value)
  {
    if a.Receive? {
      ReceiveKeepsInv(tm, s, a.event);
    } else if a.Emit? {
      EmitKeepsInv(tm, s);
    } else if a.Fire? || a.SeeSourceClosed? || a.CloseSource? {
      FireKeepsInv(tm, s, a);
    } else {
      OldEmissionsStay(tm, s, a);
    }
  }

  lemma {:induction false} ReachableInv(tm: Timing, actions: seq<Action>)
    requires Run(tm, actions).Some?
    ensures Inv(tm, Run(tm, actions).value)
  {
    if actions != [] {
      ReachableInv(tm, actions[..|actions|-1]);
      StepKeepsInv(tm, Run(tm, actions[..|actions|-1]).value, actions[|actions|-1]);
    }
  }

  /** Emissions are at least a period apart, in every run. */
  lemma {:induction false} EmissionsAreSpaced(tm: Timing, actions: seq<Action>, j: int, k: int)
    requires Run(tm, actions).Some? && 0 <= j < k < |Run(tm, actions).value.emissions|
    ensures var es := Run(tm, actions).value.emissions; es[j].time + tm.period <= es[k].time
    decreases k
  {
    var s := Run(tm, actions).value;
    ReachableInv(tm, actions);
    assert EmissionOk(tm, s, k);
    if j < k - 1 {
      EmissionsAreSpaced(tm, actions, j, k - 1);
    }
  }

  /** Emission k accounts for received event i: the event arrived in the burst that the emission stands for,
      before the emission and before the probe that the emission set off. */
  ghost predicate Answered(s: State, i: int, k: int) {
    && 0 <= i < |s.received| && 0 <= k < |s.emissions|
    && CoveredBy(s, k) <= i < s.emissions[k].covered
    && s.received[i].time <= s.emissions[k].time
    && s.emissions[k].probe < |s.probes|
    && s.probes[s.emissions[k].probe] == Probe(s.emissions[k].time, s.emissions[k].covered)
  }

  lemma {:induction false} CoveredIsAnswered(tm: Timing, s: State, i: int, n: int) returns (k: int)
    requires Inv(tm, s) && 0 <= n <= |s.emissions| && 0 <= i < CoveredBy(s, n)
    ensures Answered(s, i, k)
    decreases n
  {
    assert EmissionOk(tm, s, n - 1);
    if CoveredBy(s, n - 1) <= i {
      k := n - 1;
    } else {
      k := CoveredIsAnswered(tm, s, i, n - 1);
    }
  }

  /** In every reachable state every received event has been answered by an emission and its probe, or is
      pending in the current burst, or the monitor has returned because its source closed. */
  lemma EventsAreAnswered(tm: Timing, actions: seq<Action>, i: int)
    requires Run(tm, actions).Some? && 0 <= i < |Run(tm, actions).value.received|
    ensures var s := Run(tm, actions).value;
      || (exists k :: Answered(s, i, k))
      || ((s.phase.Waiting? || s.phase.Emitting?) && Covered(s) <= i)
      || (s.phase.Returned? && !s.sourceOpen)
  {
    var s := Run(tm, actions).value;
    ReachableInv(tm, actions);
    if i < Covered(s) {
      var k := CoveredIsAnswered(tm, s, i, |s.emissions|);
    }
  }

  /** What is emitted is the first event of its burst, and a burst is emitted once. */
  lemma EmissionsAreFirstOfBurst(tm: Timing, actions: seq<Action>, k: int)
    requires Run(tm, actions).Some? && 0 <= k < |Run(tm, actions).value.emissions|
    ensures var s := Run(tm, actions).value;
      && CoveredBy(s, k) < s.emissions[k].covered <= |s.received|
      && s.emissions[k].event == s.received[CoveredBy(s, k)].event
      && s.received[CoveredBy(s, k)].time + tm.period <= s.emissions[k].time
  {
    ReachableInv(tm, actions);
    assert EmissionOk(tm, Run(tm, actions).value, k);
  }

  // ---------- runs without end ----------

  /** A run that goes on for ever: time passes, every probe ends, and the selects do not pass over for ever a
      branch that is ready again and again. */
  ghost predicate Fair(tm: Timing, states: nat -> State, actions: nat -> Action) {
    && states(0) == INIT
    && (forall i: nat :: Step(tm, states(i), actions(i)) == Some(states(i + 1)))
    && (forall i: nat, t: int :: TimeReaches(states, i, t))
    && (forall i: nat :: ProbeEnds(states, i))
    && SelectIsFair(tm, states, actions, Fire)
    && SelectIsFair(tm, states, actions, Emit)
    && SelectIsFair(tm, states, actions, ProbeTimer)
    && SelectIsFair(tm, states, actions, SeeSourceClosed)
    && SelectIsFair(tm, states, actions, SeeReturned)
  }

  /** A step that is possible infinitely often is taken infinitely often. */
  ghost predicate SelectIsFair(tm: Timing, states: nat -> State, actions: nat -> Action, a: Action) {
    (forall i: nat :: PossibleLater(tm, states, i, a)) ==> forall i: nat :: TakenLater(actions, i, a)
  }

  ghost predicate PossibleLater(tm: Timing, states: nat -> State, i: nat, a: Action) {
    exists j: nat :: i <= j && Step(tm, states(j), a).Some?
  }

  ghost predicate TakenLater(actions: nat -> Action, i: nat, a: Action) {
    exists j: nat :: i <= j && actions(j) == a
  }

  /** No probe that runs at i runs for ever. */
  ghost predicate ProbeEnds(states: nat -> State, i: nat) {
    exists j: nat :: i <= j && !states(j).runner.Probing?
  }

  ghost predicate TimeReaches(states: nat -> State, i: nat, t: int) {
    exists j: nat :: i <= j && states(j).now >= t
  }

  ghost predicate TimerExpired(s: State) {
    s.phase.Waiting? && s.now >= s.phase.deadline
  }

  // A fair run that starts, receives an event, waits, sends it, ends the probe, and then probes on its interval.

  function SampleAction(tm: Timing, e: string, i: nat, s: State): Action {
    if i == 0 then FirstProbeDone(true) else if i == 1 then Receive(e) else if i == 2 then Tick(tm.period)
    else if i == 3 then Fire else if i == 4 then Emit
    else if s.runner.Probing? then ProbeDone
    else if Due(tm, s) then ProbeTimer
    else Tick(tm.probeInterval + 1)
  }

  predicate Due(tm: Timing, s: State) {
    s.runner.Selecting? && s.now > s.runner.since && s.now >= s.runner.since + tm.probeInterval
  }

  function SampleState(tm: Timing, e: string, i: nat): State {
    if i == 0 then INIT
    else
      var s := SampleState(tm, e, i - 1);
      match Step(tm, s, SampleAction(tm, e, i - 1, s))
      case Some(s') => s'
      case None => s
  }

  lemma SampleStep(tm: Timing, e: string, i: nat, s: State, s': State)
    requires SampleState(tm, e, i) == s && Step(tm, s, SampleAction(tm, e, i, s)) == Some(s')
    ensures SampleState(tm, e, i + 1) == s'
  {
  }

  /** The sixth state and all after it: nothing pending, and Run at its select or in a probe. */
  ghost predicate Quiescent(s: State) {
    && s.phase.Idle? && s.sourceOpen && s.listening
    && (s.runner.Probing? || (s.runner.Selecting? && s.runner.since <= s.now))
  }

  ghost predicate SampleSteps(tm: Timing, e: string, i: nat) {
    Step(tm, SampleState(tm, e, i), SampleAction(tm, e, i, SampleState(tm, e, i))) == Some(SampleState(tm, e, i + 1))
  }

  lemma SampleStart(tm: Timing, e: string)
    ensures forall i: nat | i < 5 :: SampleSteps(tm, e, i)
    ensures Quiescent(SampleState(tm, e, 5))
  {
    var s1 := INIT.(runner := Selecting(0), phase := Idle);
    var s2 := s1.(phase := Waiting(e, tm.period), received := s1.received + [Receipt(e, 0)]);
    var s3 := s2.(now := tm.period);
    var s4 := s3.(phase := Emitting(e));
    var s5 := StartProbe(s4).(phase := Idle, emissions := s4.emissions + [Emission(e, tm.period, 1, 1)]);
    SampleStep(tm, e, 0, INIT, s1);
    SampleStep(tm, e, 1, s1, s2);
    SampleStep(tm, e, 2, s2, s3);
    SampleStep(tm, e, 3, s3, s4);
    SampleStep(tm, e, 4, s4, s5);
  }

  /** What a quiescent state leads to. */
  ghost predicate Turn(tm: Timing, s: State, s': State) {
    && Quiescent(s') && s.now <= s'.now
    && (s.runner.Probing? ==> s'.runner == Selecting(s'.now))
    && (Due(tm, s) ==> s'.runner.Probing?)
    && (!s.runner.Probing? && !Due(tm, s) ==> Due(tm, s') && s.now < s'.now)
  }

  lemma {:induction false} SampleTurn(tm: Timing, e: string, i: nat)
    requires i >= 5
    ensures Quiescent(SampleState(tm, e, i)) && SampleSteps(tm, e, i)
    ensures Turn(tm, SampleState(tm, e, i), SampleState(tm, e, i + 1))
  {
    if i == 5 {
      SampleStart(tm, e);
    } else {
      SampleTurn(tm, e, i - 1);
    }
    var s := SampleState(tm, e, i);
    SampleStep(tm, e, i, s, Step(tm, s, SampleAction(tm, e, i, s)).value);
  }

  /** The interval runs out again and again. */
  lemma SampleDue(tm: Timing, e: string, i: nat) returns (j: nat)
    requires i >= 5
    ensures i <= j && Due(tm, SampleState(tm, e, j)) && SampleAction(tm, e, j, SampleState(tm, e, j)) == ProbeTimer
    ensures i < j ==> SampleState(tm, e, j).now >= SampleState(tm, e, i).now
  {
    j := i;
    SampleTurn(tm, e, j);
    if SampleState(tm, e, j).runner.Probing? {
      j := j + 1;
      SampleTurn(tm, e, j);
    }
    if !Due(tm, SampleState(tm, e, j)) {
      j := j + 1;
      SampleTurn(tm, e, j);
    }
  }

  lemma {:induction false} SampleTime(tm: Timing, e: string, i: nat, t: int) returns (j: nat)
    requires i >= 5
    ensures i <= j && SampleState(tm, e, j).now >= t
    decreases t - SampleState(tm, e, i).now
  {
    j := i;
    if SampleState(tm, e, i).now < t {
      var k := SampleDue(tm, e, i);
      SampleTurn(tm, e, k);
      SampleTurn(tm, e, k + 1);
      SampleTurn(tm, e, k + 2);
      j := SampleTime(tm, e, k + 3, t);
    }
  }

  lemma SampleNeverTakes(tm: Timing, e: string, j: nat, a: Action)
    requires j >= 5 && (a.Fire? || a.Emit? || a.SeeSourceClosed? || a.SeeReturned?)
    ensures Step(tm, SampleState(tm, e, j), a).None?
  {
    SampleTurn(tm, e, j);
  }

  function SampleActions(tm: Timing, e: string): nat -> Action {
    (i: nat) => SampleAction(tm, e, i, SampleState(tm, e, i))
  }

  function SampleStates(tm: Timing, e: string): nat -> State {
    (i: nat) => SampleState(tm, e, i)
  }

  lemma SampleIsFair(tm: Timing, e: string, a: Action)
    requires a.Fire? || a.Emit? || a.SeeSourceClosed? || a.SeeReturned?
    ensures SelectIsFair(tm, SampleStates(tm, e), SampleActions(tm, e), a)
  {
    if PossibleLater(tm, SampleStates(tm, e), 5, a) {
      var j: nat :| 5 <= j && Step(tm, SampleStates(tm, e)(j), a).Some?;
      SampleNeverTakes(tm, e, j, a);
    }
  }

  lemma SampleTakesTimer(tm: Timing, e: string, i: nat)
    ensures TakenLater(SampleActions(tm, e), i, ProbeTimer)
  {
    var j := SampleDue(tm, e, 5 + i);
    assert SampleActions(tm, e)(j) == ProbeTimer;
  }

  lemma SampleProbeEnds(tm: Timing, e: string, i: nat)
    ensures ProbeEnds(SampleStates(tm, e), i)
  {
    var j := SampleDue(tm, e, 5 + i);
    assert !SampleStates(tm, e)(j).runner.Probing?;
  }

  lemma SampleTimePasses(tm: Timing, e: string, i: nat, t: int)
    ensures TimeReaches(SampleStates(tm, e), i, t)
  {
    var j := SampleTime(tm, e, 5 + i, t);
    assert SampleStates(tm, e)(j).now >= t;
  }

  lemma SampleRuns(tm: Timing, e: string, i: nat)
    ensures Step(tm, SampleStates(tm, e)(i), SampleActions(tm, e)(i)) == Some(SampleStates(tm, e)(i + 1))
  {
    if i < 5 {
      SampleStart(tm, e);
    } else {
      SampleTurn(tm, e, i);
    }
    assert SampleSteps(tm, e, i);
  }

  /** Fair runs in which events arrive do exist. */
  lemma {:induction false} FairRunsExist(tm: Timing, e: string)
    ensures Fair(tm, SampleStates(tm, e), SampleActions(tm, e)) && SampleActions(tm, e)(1) == Receive(e)
  {
    assert forall i: nat ::
        Step(tm, SampleStates(tm, e)(i), SampleActions(tm, e)(i)) == Some(SampleStates(tm, e)(i + 1)) by {
      forall i: nat
        ensures Step(tm, SampleStates(tm, e)(i), SampleActions(tm, e)(i)) == Some(SampleStates(tm, e)(i + 1))
      {
        SampleRuns(tm, e, i);
      }
    }
    forall i: nat, t: int
      ensures TimeReaches(SampleStates(tm, e), i, t)
    {
      SampleTimePasses(tm, e, i, t);
    }
    forall i: nat
      ensures ProbeEnds(SampleStates(tm, e), i)
    {
      SampleProbeEnds(tm, e, i);
    }
    forall i: nat
      ensures TakenLater(SampleActions(tm, e), i, ProbeTimer)
    {
      SampleTakesTimer(tm, e, i);
    }
    SampleIsFair(tm, e, Fire);
    SampleIsFair(tm, e, Emit);
    SampleIsFair(tm, e, SeeSourceClosed);
    SampleIsFair(tm, e, SeeReturned);
  }

  lemma {:induction false} FairInv(tm: Timing, states: nat -> State, actions: nat -> Action, i: nat)
    requires Fair(tm, states, actions)
    ensures Inv(tm, states(i))
  {
    if i > 0 {
      FairInv(tm, states, actions, i - 1);
      assert Step(tm, states(i - 1), actions(i - 1)) == Some(states(i));
      StepKeepsInv(tm, states(i - 1), actions(i - 1));
    }
  }

  /** The n-th received event is dealt with: an emission covers it, or the monitor has returned. */
  ghost predicate Done(s: State, n: nat) {
    n < Covered(s) || s.phase.Returned?
  }

  /** Received event n was answered by an emission and its probe, or the source closed, or the daemon exited. */
  ghost predicate Settled(s: State, n: nat) {
    (exists k :: Answered(s, n, k)) || (s.phase.Returned? && !s.sourceOpen) || s.runner.Exited?
  }

  lemma StepFromWaiting(tm: Timing, s: State, a: Action, n: nat)
    requires Inv(tm, s) && n < |s.received| && Step(tm, s, a).Some?
    ensures var s' := Step(tm, s, a).value;
      && n < |s'.received| && s.now <= s'.now
      && (Done(s, n) ==> Done(s', n))
      && (s.phase.Waiting? ==> Done(s', n) || s'.phase == s.phase || s'.phase.Emitting?)
      && (s.phase.Emitting? ==> Done(s', n) || s'.phase.Emitting?)
  {
    StepKeepsInv(tm, s, a);
  }

  /** Between i and j: still waiting for the same timer, or sending, or done. */
  lemma {:induction false} WhileWaiting(
      tm: Timing, states: nat -> State, actions: nat -> Action, i: nat, j: nat, n: nat)
    requires Fair(tm, states, actions) && i <= j && n < |states(i).received|
    ensures n < |states(j).received| && states(i).now <= states(j).now
    ensures Done(states(i), n) ==> Done(states(j), n)
    ensures states(i).phase.Waiting? ==>
      Done(states(j), n) || states(j).phase == states(i).phase || states(j).phase.Emitting?
    ensures states(i).phase.Emitting? ==> Done(states(j), n) || states(j).phase.Emitting?
    decreases j - i
  {
    if i < j {
      WhileWaiting(tm, states, actions, i, j - 1, n);
      FairInv(tm, states, actions, j - 1);
      assert Step(tm, states(j - 1), actions(j - 1)) == Some(states(j));
      StepFromWaiting(tm, states(j - 1), actions(j - 1), n);
    }
  }

  lemma {:induction false} StaysWaiting(tm: Timing, states: nat -> State, actions: nat -> Action, i: nat, j: nat)
    requires Fair(tm, states, actions) && i <= j && forall k: nat | i <= k <= j :: states(k).phase.Waiting?
    ensures states(j).phase == states(i).phase && states(i).now <= states(j).now
    decreases j - i
  {
    if i < j {
      StaysWaiting(tm, states, actions, i, j - 1);
      assert Step(tm, states(j - 1), actions(j - 1)) == Some(states(j));
    }
  }

  lemma WaitingForEverFires(tm: Timing, states: nat -> State, actions: nat -> Action, i: nat)
    requires Fair(tm, states, actions) && TimerExpired(states(i)) && forall j: nat | i <= j :: states(j).phase.Waiting?
    ensures TakenLater(actions, i, Fire)
  {
    forall m: nat
      ensures PossibleLater(tm, states, m, Fire)
    {
      var j := if m < i then i else m;
      StaysWaiting(tm, states, actions, i, j);
      assert Step(tm, states(j), Fire).Some?;
    }
  }

  lemma TakenStepMoves(tm: Timing, states: nat -> State, actions: nat -> Action, i: nat, a: Action) returns (j: nat)
    requires Fair(tm, states, actions) && TakenLater(actions, i, a) && (a.Fire? || a.Emit?)
    ensures i <= j && if a.Fire? then states(j).phase.Emitting? else states(j).phase.Idle?
  {
    var k: nat :| i <= k && actions(k) == a;
    assert Step(tm, states(k), actions(k)) == Some(states(k + 1));
    j := k + 1;
  }

  /** An expired timer is served, or the source is seen closed. */
  lemma ExpiredTimerIsServed(tm: Timing, states: nat -> State, actions: nat -> Action, i: nat)
    requires Fair(tm, states, actions) && TimerExpired(states(i))
    ensures exists j: nat :: i <= j && !states(j).phase.Waiting?
  {
    if forall j: nat | i <= j :: states(j).phase.Waiting? {
      WaitingForEverFires(tm, states, actions, i);
      var j := TakenStepMoves(tm, states, actions, i, Fire);
    }
  }

  /** Whatever Run is doing, it comes back to its select unless it exits. */
  lemma RunSelectsAgain(tm: Timing, states: nat -> State, actions: nat -> Action, i: nat) returns (j: nat)
    requires Fair(tm, states, actions)
    ensures i <= j && !states(j).runner.Probing?
  {
    assert ProbeEnds(states, i);
    j :| i <= j && !states(j).runner.Probing?;
  }

  lemma SendingForEverEmits(tm: Timing, states: nat -> State, actions: nat -> Action, i: nat)
    requires Fair(tm, states, actions)
    requires forall j: nat | i <= j :: states(j).phase.Emitting? && !states(j).runner.Exited?
    ensures TakenLater(actions, i, Emit)
  {
    forall m: nat
      ensures PossibleLater(tm, states, m, Emit)
    {
      var j := RunSelectsAgain(tm, states, actions, if m < i then i else m);
      FairInv(tm, states, actions, j);
      assert Step(tm, states(j), Emit).Some?;
    }
  }

  /** A pending send goes through, unless Run exits: Run is ready for it again and again. */
  lemma PendingSendGoesThrough(tm: Timing, states: nat -> State, actions: nat -> Action, i: nat)
    requires Fair(tm, states, actions) && states(i).phase.Emitting?
    ensures exists j: nat :: i <= j && (!states(j).phase.Emitting? || states(j).runner.Exited?)
  {
    if forall j: nat | i <= j :: states(j).phase.Emitting? && !states(j).runner.Exited? {
      SendingForEverEmits(tm, states, actions, i);
      var j := TakenStepMoves(tm, states, actions, i, Emit);
    }
  }

  /** Every received event is eventually answered by an emission and a probe that starts after it, unless the
      source closes or the daemon is told to exit. */
  lemma EveryEventIsProbed(tm: Timing, states: nat -> State, actions: nat -> Action, i: nat)
    requires Fair(tm, states, actions) && actions(i).Receive?
    ensures exists j: nat :: i < j && Settled(states(j), |states(i).received|)
  {
    var n := |states(i).received|;
    assert Step(tm, states(i), actions(i)) == Some(states(i + 1));
    assert TimeReaches(states, i + 1, states(i + 1).phase.deadline);
    var j1: nat :| i + 1 <= j1 && states(j1).now >= states(i + 1).phase.deadline;
    WhileWaiting(tm, states, actions, i + 1, j1, n);
    var j2 := j1;
    if states(j1).phase.Waiting? && !Done(states(j1), n) {
      ExpiredTimerIsServed(tm, states, actions, j1);
      j2 :| j1 <= j2 && !states(j2).phase.Waiting?;
      WhileWaiting(tm, states, actions, j1, j2, n);
    }
    var j3 := j2;
    if !Done(states(j2), n) {
      PendingSendGoesThrough(tm, states, actions, j2);
      j3 :| j2 <= j3 && (!states(j3).phase.Emitting? || states(j3).runner.Exited?);
      WhileWaiting(tm, states, actions, j2, j3, n);
    }
    FairInv(tm, states, actions, j3);
    if n < Covered(states(j3)) {
      var k := CoveredIsAnswered(tm, states(j3), n, |states(j3).emissions|);
    }
    assert i < j3 && Settled(states(j3), n);
  }

  // ---------- the probes ----------

  lemma {:induction false} StartsOnce(tm: Timing, states: nat -> State, actions: nat -> Action, i: nat)
    requires Fair(tm, states, actions)
    ensures states(i).runner.Starting? ==> states(i).phase.NotStarted?
  {
    if i > 0 {
      StartsOnce(tm, states, actions, i - 1);
      assert Step(tm, states(i - 1), actions(i - 1)) == Some(states(i));
    }
  }

  /** What never goes back. */
  ghost predicate Later(s: State, s': State) {
    && s.now <= s'.now && s.probes <= s'.probes
    && (s.runner.Exited? ==> s'.runner.Exited?)
    && (!s.phase.NotStarted? ==> !s'.phase.NotStarted?)
    && (!s.runner.Starting? ==> !s'.runner.Starting?)
    && (s.phase.Returned? ==> s'.phase.Returned?)
    && (!s.listening ==> !s'.listening)
    && (!s.sourceOpen ==> !s'.sourceOpen)
  }

  lemma StepIsLater(tm: Timing, s: State, a: Action)
    requires Step(tm, s, a).Some? && (s.runner.Starting? ==> s.phase.NotStarted?)
    ensures Later(s, Step(tm, s, a).value)
  {
  }

  lemma {:induction false} Moves(tm: Timing, states: nat -> State, actions: nat -> Action, i: nat, j: nat)
    requires Fair(tm, states, actions) && i <= j
    ensures Later(states(i), states(j))
    decreases j - i
  {
    if i < j {
      Moves(tm, states, actions, i, j - 1);
      StartsOnce(tm, states, actions, j - 1);
      assert Step(tm, states(j - 1), actions(j - 1)) == Some(states(j));
      StepIsLater(tm, states(j - 1), actions(j - 1));
    }
  }

  /** From i on Run neither probes nor exits. */
  ghost predicate Stalled(states: nat -> State, i: nat) {
    forall j: nat | i <= j :: |states(j).probes| == |states(i).probes| && !states(j).runner.Exited?
  }

  /** A stalled Run that has come to its select stays there, with the timer it has unless it learns in between
      that the monitor returned. */
  lemma {:induction false} StalledSelects(tm: Timing, states: nat -> State, actions: nat -> Action, i: nat, j: nat)
    requires Fair(tm, states, actions) && Stalled(states, i) && i <= j && states(i).runner.Selecting?
    ensures states(j).runner.Selecting?
    ensures states(j).listening == states(i).listening ==> states(j).runner == states(i).runner
    decreases j - i
  {
    if i < j {
      StalledSelects(tm, states, actions, i, j - 1);
      Moves(tm, states, actions, i, j - 1);
      Moves(tm, states, actions, j - 1, j);
      assert Step(tm, states(j - 1), actions(j - 1)) == Some(states(j));
      assert |states(j).probes| == |states(j - 1).probes|;
    }
  }

  lemma TimerRunsOut(tm: Timing, states: nat -> State, actions: nat -> Action, i: nat) returns (j: nat)
    requires Fair(tm, states, actions) && Stalled(states, i) && states(i).runner.Selecting?
    ensures i <= j && states(j).runner.Selecting?
    ensures states(j).listening == states(i).listening ==> Step(tm, states(j), ProbeTimer).Some?
    ensures !states(i).listening ==> !states(j).listening
  {
    var due := states(i).runner.since + tm.probeInterval;
    assert TimeReaches(states, i, due);
    j :| i <= j && states(j).now >= due;
    StalledSelects(tm, states, actions, i, j);
    Moves(tm, states, actions, i, j);
  }

  lemma StalledTimerExpires(tm: Timing, states: nat -> State, actions: nat -> Action, i: nat, m: nat)
    requires Fair(tm, states, actions) && Stalled(states, i) && states(i).runner.Selecting?
    ensures PossibleLater(tm, states, m, ProbeTimer)
  {
    var k := if m < i then i else m;
    StalledSelects(tm, states, actions, i, k);
    assert Stalled(states, k);
    var j := TimerRunsOut(tm, states, actions, k);
    if states(j).listening != states(k).listening {
      assert Stalled(states, j);
      Moves(tm, states, actions, k, j);
      j := TimerRunsOut(tm, states, actions, j);
    }
  }

  /** Once the first probe is over, a further probe always comes, events or not and monitor or not, unless Run
      exits. */
  lemma AnotherProbe(tm: Timing, states: nat -> State, actions: nat -> Action, i: nat)
    requires Fair(tm, states, actions) && !states(i).runner.Starting?
    ensures exists j: nat :: i < j && (|states(j).probes| > |states(i).probes| || states(j).runner.Exited?)
  {
    if Stalled(states, i) {
      var k := RunSelectsAgain(tm, states, actions, i);
      Moves(tm, states, actions, i, k);
      assert |states(k).probes| == |states(i).probes| && !states(k).runner.Exited?;
      assert Stalled(states, k);
      forall m: nat
        ensures PossibleLater(tm, states, m, ProbeTimer)
      {
        StalledTimerExpires(tm, states, actions, k, m);
      }
      var j := TimerProbes(tm, states, actions, i);
    } else {
      var j: nat :| i <= j && (|states(j).probes| != |states(i).probes| || states(j).runner.Exited?);
      Moves(tm, states, actions, i, j);
      Moves(tm, states, actions, i, i + 1);
      if j == i {
        assert states(i + 1).runner.Exited?;
      }
    }
  }

  lemma TimerProbes(tm: Timing, states: nat -> State, actions: nat -> Action, i: nat) returns (j: nat)
    requires Fair(tm, states, actions) && TakenLater(actions, i, ProbeTimer)
    ensures i < j && |states(j).probes| > |states(i).probes|
  {
    var k: nat :| i <= k && actions(k) == ProbeTimer;
    Moves(tm, states, actions, i, k);
    assert Step(tm, states(k), actions(k)) == Some(states(k + 1));
    j := k + 1;
  }

  /** So the probes go on without end. */
  lemma {:induction false} ProbesGoOn(tm: Timing, states: nat -> State, actions: nat -> Action, i: nat, n: nat)
    requires Fair(tm, states, actions) && !states(i).runner.Starting?
    ensures exists j: nat :: i <= j && (|states(j).probes| >= n || states(j).runner.Exited?)
  {
    if n == 0 {
      assert |states(i).probes| >= n;
    } else {
      ProbesGoOn(tm, states, actions, i, n - 1);
      var j: nat :| i <= j && (|states(j).probes| >= n - 1 || states(j).runner.Exited?);
      Moves(tm, states, actions, i, j);
      AnotherProbe(tm, states, actions, j);
      var k: nat :| j < k && (|states(k).probes| > |states(j).probes| || states(k).runner.Exited?);
      Moves(tm, states, actions, j, k);
      assert i <= k && (|states(k).probes| >= n || states(k).runner.Exited?);
    }
  }

  /** Every probe but the first is set off by an emission, or comes an interval or more after the one before. */
  ghost predicate ProbeOk(tm: Timing, s: State, p: int)
    requires 0 < p < |s.probes|
  {
    || (exists k :: 0 <= k < |s.emissions| && s.emissions[k].probe == p)
    || s.probes[p-1].time + tm.probeInterval <= s.probes[p].time
  }

  ghost predicate ProbesInv(tm: Timing, s: State) {
    && s.probes != [] && s.probes[0].time == 0 && s.probes[|s.probes|-1].time <= s.now
    && (s.runner.Selecting? ==> s.probes[|s.probes|-1].time <= s.runner.since <= s.now)
    && forall p | 0 < p < |s.probes| :: ProbeOk(tm, s, p)
  }

  lemma StepKeepsProbes(tm: Timing, s: State, a: Action)
    requires ProbesInv(tm, s) && Step(tm, s, a).Some?
    ensures ProbesInv(tm, Step(tm, s, a).value)
  {
    var s' := Step(tm, s, a).value;
    forall p | 0 < p < |s'.probes|
      ensures ProbeOk(tm, s', p)
    {
      if p < |s.probes| {
        assert ProbeOk(tm, s, p);
        if k :| 0 <= k < |s.emissions| && s.emissions[k].probe == p {
          assert s'.emissions[k].probe == p;
        }
      } else if a.Emit? {
        assert s'.emissions[|s.emissions|].probe == p;
      }
    }
  }

  lemma {:induction false} ProbesAreSpaced(tm: Timing, actions: seq<Action>)
    requires Run(tm, actions).Some?
    ensures ProbesInv(tm, Run(tm, actions).value)
  {
    if actions != [] {
      ProbesAreSpaced(tm, actions[..|actions|-1]);
      StepKeepsProbes(tm, Run(tm, actions[..|actions|-1]).value, actions[|actions|-1]);
    }
  }

  // ---------- the ends ----------

  lemma {:induction false} Exits(tm: Timing, actions: seq<Action>, more: seq<Action>)
    requires Run(tm, actions).Some? && Run(tm, actions).value.runner.Exited? && Run(tm, actions + more).Some?
    ensures var s, s' := Run(tm, actions).value, Run(tm, actions + more).value;
      s'.runner.Exited? && s'.probes == s.probes && s'.emissions == s.emissions
  {
    if more == [] {
      assert actions + more == actions;
    } else {
      var init := more[..|more|-1];
      assert (actions + more)[..|actions + more|-1] == actions + init;
      Exits(tm, actions, init);
    }
  }

  /** Run can be shut down whenever it is at its select, and then nothing is probed or emitted any more. */
  lemma ShutdownIsHeeded(tm: Timing, actions: seq<Action>, more: seq<Action>)
    requires Run(tm, actions).Some? && Run(tm, actions).value.runner.Selecting?
    ensures Run(tm, actions + [Terminate]).Some?
    ensures Run(tm, actions + [Terminate] + more).Some? ==>
      var s, s' := Run(tm, actions).value, Run(tm, actions + [Terminate] + more).value;
      s'.runner.Exited? && s'.probes == s.probes && s'.emissions == s.emissions
  {
    assert (actions + [Terminate])[..|actions|] == actions;
    if Run(tm, actions + [Terminate] + more).Some? {
      Exits(tm, actions + [Terminate], more);
    }
  }

  /** If the first probe fails, Run exits, and the monitor has received nothing and never will. */
  lemma {:induction false} FailedStartIsTheEnd(tm: Timing, actions: seq<Action>, k: nat)
    requires Run(tm, actions).Some? && k < |actions| && actions[k] == FirstProbeDone(false)
    ensures var s := Run(tm, actions).value;
      s.runner.Exited? && s.phase.NotStarted? && s.received == [] && s.emissions == [] && |s.probes| == 1
    decreases |actions|
  {
    var init := actions[..|actions|-1];
    if k < |init| {
      FailedStartIsTheEnd(tm, init, k);
    } else {
      FirstProbeRuns(tm, init);
    }
  }

  lemma {:induction false} FirstProbeRuns(tm: Timing, actions: seq<Action>)
    requires Run(tm, actions).Some? && Run(tm, actions).value.runner.Starting?
    ensures var s := Run(tm, actions).value;
      s.phase.NotStarted? && s.received == [] && s.emissions == [] && s.probes == [Probe(0, 0)]
  {
    if actions != [] {
      var init := actions[..|actions|-1];
      assert Step(tm, Run(tm, init).value, actions[|actions|-1]) == Run(tm, actions);
      FirstProbeRuns(tm, init);
    }
  }

  /** When the source has closed, the monitor returns, unless Run exits before taking what it has to send. */
  lemma ClosedSourceEndsTheMonitor(tm: Timing, states: nat -> State, actions: nat -> Action, i: nat)
    requires Fair(tm, states, actions) && !states(i).sourceOpen && !states(i).phase.NotStarted?
    ensures exists j: nat :: i <= j && (states(j).phase.Returned? || states(j).runner.Exited?)
  {
    if forall j: nat | i <= j :: !states(j).phase.Returned? && !states(j).runner.Exited? {
      forall m: nat
        ensures PossibleLater(tm, states, m, SeeSourceClosed)
      {
        var k := if m < i then i else m;
        if states(k).phase.Emitting? {
          PendingSendGoesThrough(tm, states, actions, k);
          k :| (if m < i then i else m) <= k && (!states(k).phase.Emitting? || states(k).runner.Exited?);
        }
        Moves(tm, states, actions, i, k);
        assert Step(tm, states(k), SeeSourceClosed).Some?;
      }
      assert TakenLater(actions, i, SeeSourceClosed);
      var j := SourceClosedSeen(tm, states, actions, i);
    }
  }

  lemma SourceClosedSeen(tm: Timing, states: nat -> State, actions: nat -> Action, i: nat) returns (j: nat)
    requires Fair(tm, states, actions) && TakenLater(actions, i, SeeSourceClosed)
    ensures i <= j && states(j).phase.Returned?
  {
    var k: nat :| i <= k && actions(k) == SeeSourceClosed;
    assert Step(tm, states(k), actions(k)) == Some(states(k + 1));
    j := k + 1;
  }

  /** When the monitor has returned, Run stops listening to it, unless it exits. */
  lemma RunStopsListening(tm: Timing, states: nat -> State, actions: nat -> Action, i: nat)
    requires Fair(tm, states, actions) && states(i).phase.Returned?
    ensures exists j: nat :: i <= j && (!states(j).listening || states(j).runner.Exited?)
  {
    if forall j: nat | i <= j :: states(j).listening && !states(j).runner.Exited? {
      forall m: nat
        ensures PossibleLater(tm, states, m, SeeReturned)
      {
        var k := RunSelectsAgain(tm, states, actions, if m < i then i else m);
        Moves(tm, states, actions, i, k);
        FairInv(tm, states, actions, k);
        assert Step(tm, states(k), SeeReturned).Some?;
      }
      assert TakenLater(actions, i, SeeReturned);
      var j := ReturnSeen(tm, states, actions, i);
    }
  }

  lemma ReturnSeen(tm: Timing, states: nat -> State, actions: nat -> Action, i: nat) returns (j: nat)
    requires Fair(tm, states, actions) && TakenLater(actions, i, SeeReturned)
    ensures i <= j && !states(j).listening
  {
    var k: nat :| i <= k && actions(k) == SeeReturned;
    assert Step(tm, states(k), actions(k)) == Some(states(k + 1));
    j := k + 1;
  }

  /** Unless it is busy sending, the monitor takes every event there is, and none of them moves its deadline. */
  lemma EventsAreTaken(tm: Timing, actions: seq<Action>, e: string)
    requires Run(tm, actions).Some? && Run(tm, actions).value.sourceOpen
    requires Run(tm, actions).value.phase.Idle? || Run(tm, actions).value.phase.Waiting?
    ensures var s, r := Run(tm, actions).value, Run(tm, actions + [Receive(e)]);
      && r.Some? && r.value.received == s.received + [Receipt(e, s.now)]
      && r.value.phase == if s.phase.Waiting? then s.phase else Waiting(e, s.now + tm.period)
  {
    assert (actions + [Receive(e)])[..|actions|] == actions;
  }
}
