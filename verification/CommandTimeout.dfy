/** Running a command with a timeout: interrupt first, kill on the second expiry (util/exec/exec.go). */
module CommandTimeout {

  /** How one `select` of the loop is decided: the timer fires, and the signal then sent succeeds or
      not, or the process has been reaped with a clean or a failed exit. */
  datatype Select = TimerExpired(signalSent: bool) | Exited(clean: bool)

  /** What the loop did, in order. */
  datatype Action = Interrupt(ok: bool) | Kill(ok: bool) | Reaped(clean: bool)

  datatype Outcome = Success | StartFailed | ExitFailed | TimedOut | KillFailed

  /** For every way the selects can go: at most two timer expiries, a kill only right after an
      interrupt, and success exactly when a clean exit came first. */
  method ExecuteCommandWithTimeout(started: bool, selects: nat -> Select) returns (r: Outcome, log: seq<Action>)
    ensures |log| <= 2
    ensures forall k | 0 <= k < |log| && log[k].Kill? :: k == 1 && log[0].Interrupt?
    ensures forall k | 0 <= k < |log| ::
      (log[k].Reaped? <==> selects(k).Exited?) && (log[k].Reaped? ==> log[k].clean == selects(k).clean)
    ensures forall k | 0 <= k < |log| && !log[k].Reaped? :: log[k].ok == selects(k).signalSent
    ensures r == Success <==> log == [Reaped(true)]
    ensures r == StartFailed <==> log == []
    ensures r == StartFailed <==> !started
    ensures r == ExitFailed <==> log != [] && log[|log|-1] == Reaped(false)
    ensures r == KillFailed <==> log != [] && log[|log|-1] == Kill(false)
    ensures r == TimedOut <==> |log| == 2 && (log[1] == Kill(true) || log[1] == Reaped(true))
  {
    log := [];
    if !started {
      return StartFailed, log;
    }
    var interruptSent := false;
    while true
      invariant !interruptSent ==> log == []
      invariant interruptSent ==> selects(0).TimerExpired? && log == [Interrupt(selects(0).signalSent)]
      decreases !interruptSent
    {
      match selects(|log|)
      case TimerExpired(signalSent) =>
        if interruptSent {
          log := log + [Kill(signalSent)];
          return if signalSent then TimedOut else KillFailed, log;
        }
        log := log + [Interrupt(signalSent)];
        interruptSent := true;
      case Exited(clean) =>
        log := log + [Reaped(clean)];
        if !clean {
          return ExitFailed, log;
        }
        return if interruptSent then TimedOut else Success, log;
    }
  }
}
