/**
 What the cancel command may rely on when it returns from the kernel, and that it does return: the
 wait inside it holds no mutex, so the work function it waits for can always finish.
 */
module DelayedWorkCancel {
  import opened DelayedWork

  // ---------- cancel is final ----------

  /** Nothing is queued while some thread is inside the kernel's cancel call. */
  predicate Barred(s: System) {
    && (s.cancelling != {} ==> !s.queued)
    && (forall t | t in s.threads && s.threads[t].CancelWaiting? :: t in s.cancelling)
  }

  lemma {:induction false} BarredRun(s: System, actions: seq<Action>)
    requires Barred(s)
    ensures Barred(Run(s, actions))
    decreases actions
  {
    if actions != [] {
      BarredRun(Step(s, actions[0]), actions[1..]);
    }
  }

  /** No thread queues the work during the run. */
  predicate NoQueueing(s: System, actions: seq<Action>)
    decreases actions
  {
    actions == [] ||
    (!(actions[0].Move? && ThreadOf(s, actions[0].tid).Queueing?) && NoQueueing(Step(s, actions[0]), actions[1..]))
  }

  lemma {:induction false} StaysIdle(s: System, actions: seq<Action>)
    requires !s.queued && s.worker.Resting? && NoQueueing(s, actions)
    ensures !Run(s, actions).queued && Run(s, actions).worker.Resting?
    ensures Run(s, actions).tally.counted == s.tally.counted
    decreases actions
  {
    if actions != [] {
      StaysIdle(Step(s, actions[0]), actions[1..]);
    }
  }

  /** In every run from loading, whoever queues or cancels meanwhile: at the moment a thread's cancel
      call returns, no work is queued or executing; and for as long as nobody queues work after that,
      none is, and no run is counted. */
  lemma CancelIsFinal(during: seq<Action>, tid: nat, after: seq<Action>)
    requires var s := Run(Load(), during);
      && ThreadOf(s, tid).CancelWaiting? && !ThreadOf(Step(s, Move(tid)), tid).CancelWaiting?
      && NoQueueing(Step(s, Move(tid)), after)
    ensures var s := Step(Run(Load(), during), Move(tid));
      && !s.queued && s.worker.Resting?
      && !Run(s, after).queued && Run(s, after).worker.Resting?
      && Run(s, after).tally.counted == s.tally.counted
  {
    BarredRun(Load(), during);
    StaysIdle(Step(Run(Load(), during), Move(tid)), after);
  }

  // ---------- cancel returns ----------

  /** Statements the work function still has to execute. */
  function WorkerRank(w: Worker): nat {
    match w
    case Resting => 0
    case WorkReturning => 1
    case WorkUpdating(todo) => 2 + |todo|
    case WorkLocking => 6
    case Sleeping => 7
  }

  /** Statements the mutex holder, a command or a status read, has left before it unlocks. */
  function HolderRank(s: System): nat {
    match s.owner
    case Writer(t) => if ThreadOf(s, t).Updating? then 1 + |ThreadOf(s, t).todo| else 0
    case Reader(t) => if ThreadOf(s, t).Reading? && ThreadOf(s, t).done <= 6 then 7 - ThreadOf(s, t).done else 0
    case _ => 0
  }

  /** The work function and whoever holds the mutex can always move on until the worker rests. */
  lemma {:induction false} WorkFinishes(s: System, tid: nat) returns (rest: seq<Action>)
    requires OwnersInv(s) && ThreadOf(s, tid).CancelWaiting?
    ensures forall a | a in rest :: a.WorkerMove? || (a.Move? && a.tid != tid)
    ensures Run(s, rest).worker.Resting? && ThreadOf(Run(s, rest), tid).CancelWaiting?
    decreases WorkerRank(s.worker), HolderRank(s)
  {
    if s.worker.Resting? {
      rest := [];
    } else {
      assert ThreadInv(s, tid);
      var a := WorkerMove;
      if s.worker.WorkLocking? && !s.owner.Nobody? {
        assert s.owner != TheWorker;
        a := Move(s.owner.tid);
        assert ThreadInv(s, s.owner.tid);
        OwnersThreadStep(s, s.owner.tid);
      } else {
        OwnersWorkerStep(s);
      }
      rest := WorkFinishes(Step(s, a), tid);
      rest := [a] + rest;
    }
  }

  /** In every run: a waiting cancel call can be brought to return by moves of others alone. */
  lemma CancelReturns(during: seq<Action>, tid: nat) returns (rest: seq<Action>)
    requires ThreadOf(Run(Load(), during), tid).CancelWaiting?
    ensures forall a | a in rest :: a.WorkerMove? || (a.Move? && a.tid != tid)
    ensures ThreadOf(Step(Run(Run(Load(), during), rest), Move(tid)), tid) == Locking(Cancel)
  {
    LoadKept();
    MutexRun(Load(), during);
    rest := WorkFinishes(Run(Load(), during), tid);
  }
}
