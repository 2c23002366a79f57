/** The handlers of the deferred-work driver in their own form: the fields of the shared state are
    assigned one after another between lock and unlock. */
module DelayedWorkDevice {
  import opened Common
  import opened DelayedWork
  import opened DelayedWorkCalls

  /** The fields once a running work function, if there is one, has finished. */
  function AfterWork(running: bool, f: Fields): Fields {
    if running then AssignAll(f, Updates(RunWork)) else f
  }

  class State {
    var lastActualNs: nat
    var lastRequested: nat
    var lastWorkDelayMs: nat
    var workRuns: nat
    var workPending: bool
    var lastCmd: LastCmd
    var locked: bool
    var queued: bool
    var running: bool           // the work function is on its worker, before its critical section

    function Abs(): Fields
      reads this
    {
      Fields(lastActualNs, lastRequested, lastWorkDelayMs, workRuns, workPending, lastCmd)
    }

    constructor ()
      ensures Abs() == INITIAL && !locked && !queued && !running
    {
      lastActualNs, lastRequested, lastWorkDelayMs, workRuns := 0, 0, 0, 0;
      workPending, lastCmd := false, NoCmd;
      locked, queued, running := false, false, false;
    }

    method Lock()
      requires !locked
      modifies this`locked
      ensures locked
    {
      locked := true;
    }

    method Unlock()
      requires locked
      modifies this`locked
      ensures !locked
    {
      locked := false;
    }

    /** A delay command that took from `startNs` to `endNs`. */
    method RecordDelay(kind: LastCmd, value: nat, startNs: nat, endNs: nat)
      requires !locked && startNs <= endNs
      modifies this
      ensures !locked && queued == old(queued) && running == old(running)
      ensures Abs() == AssignAll(old(Abs()), Updates(Delay(kind, value, endNs - startNs)))
    {
      AssignThree(Abs(), SetRequested(value), SetActual(endNs - startNs), SetCmd(kind));
      Lock();
      lastRequested := value;
      lastActualNs := endNs - startNs;
      lastCmd := kind;
      Unlock();
    }

    /** The write handler, with the clock readings around the delay of a delay command. A cancel
        command lets a running work function finish, which it can as the mutex is free, before it
        takes the mutex itself. */
    method MyWrite(cmd: Command, startNs: nat, endNs: nat) returns (ret: int)
      requires !locked && startNs <= endNs && !cmd.Status?
      requires cmd.DelayFor? ==> cmd.ns == endNs - startNs
      modifies this
      ensures !locked
      ensures ret == if Accepted(cmd) then 0 else -22
      ensures !Accepted(cmd) ==> Abs() == old(Abs())
      ensures Accepted(cmd) ==>
                match cmd
                case DelayFor(kind, value, ns) => Abs() == AssignAll(old(Abs()), Updates(Delay(kind, value, ns)))
                case Work(ms) => Abs() == AssignAll(old(Abs()), Updates(Queue(ms)))
                case _ => Abs() == AssignAll(AfterWork(old(running), old(Abs())), Updates(Cancel))
      ensures queued <==> cmd.Work? || (old(queued) && !cmd.CancelWork?)
      ensures running <==> old(running) && !cmd.CancelWork?
    {
      ret := 0;
      match cmd {
        case DelayFor(kind, value, ns) =>
          if value == 0 || (kind == Udelay && value > 1000) {
            return -EINVAL;
          }
          RecordDelay(kind, value, startNs, endNs);
        case Work(ms) =>
          AssignThree(Abs(), SetDelay(ms), SetPending(true), SetCmd(WorkQueued));
          Lock();
          lastWorkDelayMs := ms;
          workPending := true;
          lastCmd := WorkQueued;
          Unlock();
          queued := true;
        case CancelWork =>
          CancelWorkSync();
          ghost var before := Abs();
          Lock();
          lastCmd := WorkCancelled;
          Unlock();
          assert AssignAll(Abs(), []) == AssignAll(before, [SetCmd(WorkCancelled)]);
        case Unknown =>
          ret := -EINVAL;
      }
    }

    /** The kernel's cancel: take the work off the queue and wait for the work function. */
    method CancelWorkSync()
      requires !locked
      modifies this
      ensures !locked && !queued && !running
      ensures Abs() == AfterWork(old(running), old(Abs()))
    {
      queued := false;
      if running {
        WorkFn();
      }
    }

    /** The worker takes the queued work and starts the work function. */
    method StartWork()
      requires queued && !running
      modifies this`queued, this`running
      ensures !queued && running
    {
      queued, running := false, true;
    }

    /** The work function after its sleep. */
    method WorkFn()
      requires !locked && running
      modifies this
      ensures !locked && queued == old(queued) && !running
      ensures Abs() == AssignAll(old(Abs()), Updates(RunWork))
    {
      AssignThree(Abs(), CountRun, SetPending(false), SetCmd(WorkRan));
      Lock();
      workRuns := (workRuns + 1) % WORD32;
      workPending := false;
      lastCmd := WorkRan;
      Unlock();
      running := false;
    }

    /** The status read copies every field under the mutex. */
    method MyRead() returns (copy: Fields)
      requires !locked
      modifies this`locked
      ensures !locked && copy == Abs() == old(Abs())
    {
      Lock();
      var lastNs := lastActualNs;
      var lastReq := lastRequested;
      var lastDelay := lastWorkDelayMs;
      var runs := workRuns;
      var pending := workPending;
      var cmd := lastCmd;
      Unlock();
      copy := Fields(lastNs, lastReq, lastDelay, runs, pending, cmd);
    }
  }
}
