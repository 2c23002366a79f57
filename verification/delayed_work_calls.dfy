/**
 What a whole command, status read or work function does when its thread is not kept waiting, whatever
 other threads are in the middle of, and how many of the work commands have reached the queue.
 */
module DelayedWorkCalls {
  import opened Common
  import opened DelayedWork

  lemma Unroll(s: System, a: Action, k: nat)
    requires k > 0
    ensures Run(s, Repeat([a], k)) == Run(Step(s, a), Repeat([a], k - 1))
  {
    assert Repeat([a], k)[0] == a && Repeat([a], k)[1..] == Repeat([a], k - 1);
  }

  /** A command, and then `k` moves of its thread. */
  function Whole(s: System, tid: nat, cmd: Command, k: nat): System {
    Run(Step(s, Invoke(tid, cmd)), Repeat([Move(tid)], k))
  }

  // ---------- one critical section ----------

  /** A thread that finds the mutex free makes its section's assignments and gives the mutex back. */
  lemma {:induction false} FinishUpdating(s: System, tid: nat, todo: seq<Update>, queueNext: bool)
    requires ThreadOf(s, tid) == Updating(todo, queueNext)
    ensures Run(s, Repeat([Move(tid)], |todo| + 1)) ==
            At(s, tid, if queueNext then Queueing else Idle).(owner := Nobody, fields := AssignAll(s.fields, todo))
    decreases |todo|
  {
    Unroll(s, Move(tid), |todo| + 1);
    if todo != [] {
      var s' := Step(s, Move(tid));
      FinishUpdating(s', tid, todo[1..], queueNext);
      assert At(s', tid, if queueNext then Queueing else Idle).threads ==
             At(s, tid, if queueNext then Queueing else Idle).threads;
    }
  }

  lemma SectionAlone(s: System, tid: nat, section: Section)
    requires ThreadOf(s, tid) == Locking(section) && s.owner.Nobody?
    ensures Run(s, Repeat([Move(tid)], |Updates(section)| + 2)) ==
            At(s, tid, if section.Queue? then Queueing else Idle).(
              sections := s.sections + [section], fields := AssignAll(s.fields, Updates(section)))
  {
    Unroll(s, Move(tid), |Updates(section)| + 2);
    var s' := Step(s, Move(tid));
    FinishUpdating(s', tid, Updates(section), section.Queue?);
    var th := if section.Queue? then Queueing else Idle;
    assert At(s', tid, th).threads == At(s, tid, th).threads;
  }

  lemma AssignOne(f: Fields, x: Update)
    ensures AssignAll(f, [x]) == Assign(f, x)
  {
    assert AssignAll(Assign(f, x), []) == Assign(f, x);
  }

  /** What each critical section leaves in the fields, one field at a time. */
  lemma SectionEffect(f: Fields, section: Section)
    ensures AssignAll(f, Updates(section)) ==
            match section
            case Delay(kind, value, ns) => f.(requested := value, actualNs := ns, lastCmd := kind)
            case Queue(ms) => f.(workDelayMs := ms, workPending := true, lastCmd := WorkQueued)
            case RunWork =>
              f.(workRuns := (f.workRuns + 1) % 0x1_0000_0000, workPending := false, lastCmd := WorkRan)
            case Cancel => f.(lastCmd := WorkCancelled)
  {
    match section
    case Delay(kind, value, ns) => AssignThree(f, SetRequested(value), SetActual(ns), SetCmd(kind));
    case Queue(ms) => AssignThree(f, SetDelay(ms), SetPending(true), SetCmd(WorkQueued));
    case RunWork => AssignThree(f, CountRun, SetPending(false), SetCmd(WorkRan));
    case Cancel => AssignOne(f, SetCmd(WorkCancelled));
  }

  // ---------- what the fields mean ----------

  /** The delay of the latest work command. */
  function LatestWorkDelay(sections: seq<Section>): nat
    decreases |sections|
  {
    if sections == [] then 0
    else
      var last := sections[|sections| - 1];
      if last.Queue? then last.ms else LatestWorkDelay(sections[..|sections| - 1])
  }

  function RunsOf(sections: seq<Section>): nat
    decreases |sections|
  {
    if sections == [] then 0
    else RunsOf(sections[..|sections| - 1]) + One(sections[|sections| - 1].RunWork?)
  }

  /** The latest of the work commands and runs was a work command; cancels do not count. */
  predicate WorkAskedLast(sections: seq<Section>)
    decreases |sections|
  {
    sections != [] &&
    var last := sections[|sections| - 1];
    last.Queue? || (!last.RunWork? && WorkAskedLast(sections[..|sections| - 1]))
  }

  function NameOf(section: Section): LastCmd {
    match section
    case Delay(kind, value, ns) => kind
    case Queue(ms) => WorkQueued
    case RunWork => WorkRan
    case Cancel => WorkCancelled
  }

  lemma {:induction false} RunsMean(sections: seq<Section>)
    ensures Serial(sections).workRuns == RunsOf(sections) % 0x1_0000_0000
    decreases |sections|
  {
    if sections != [] {
      var before := sections[..|sections| - 1];
      RunsMean(before);
      SectionEffect(Serial(before), sections[|sections| - 1]);
    }
  }

  /** After any critical sections, every status field is told by the latest section that concerns it:
      zeros, "false" and no command before the first. */
  lemma {:induction false} FieldsMean(sections: seq<Section>)
    ensures var f := Serial(sections);
      && (f.requested, f.actualNs) == LatestDelay(sections)
      && f.workDelayMs == LatestWorkDelay(sections)
      && f.workRuns == RunsOf(sections) % 0x1_0000_0000
      && f.workPending == WorkAskedLast(sections)
      && f.lastCmd == if sections == [] then NoCmd else NameOf(sections[|sections| - 1])
    decreases |sections|
  {
    PairOfOneCommand(sections);
    RunsMean(sections);
    if sections != [] {
      var before := sections[..|sections| - 1];
      FieldsMean(before);
      SectionEffect(Serial(before), sections[|sections| - 1]);
    }
  }

  // ---------- whole commands ----------

  /** A busy wait takes 1 to 1000 microseconds, a sleep at least 1 of its unit; work may be asked for
      with any delay. What is not so is refused and changes nothing. */
  predicate Accepted(cmd: Command) {
    match cmd
    case DelayFor(kind, value, ns) => 1 <= value && (kind == Udelay ==> value <= 1000)
    case Work(ms) => true
    case CancelWork => true
    case Status => true
    case Unknown => false
  }

  lemma OnlyAcceptedBegin(s: System, tid: nat, cmd: Command)
    requires ThreadOf(s, tid).Idle?
    ensures if Accepted(cmd) then !ThreadOf(Step(s, Invoke(tid, cmd)), tid).Idle? else Step(s, Invoke(tid, cmd)) == s
  {
  }

  lemma SplitRepeat(s: System, a: Action, j: nat, k: nat)
    ensures Run(s, Repeat([a], j + k)) == Run(Run(s, Repeat([a], j)), Repeat([a], k))
    decreases j
  {
    if j > 0 {
      Unroll(s, a, j + k);
      Unroll(s, a, j);
      SplitRepeat(Step(s, a), a, j - 1, k);
    }
  }

  /** A work command records its delay, and then the work is queued unless a cancel call is under way. */
  lemma WorkAlone(s: System, tid: nat, ms: nat)
    requires ThreadOf(s, tid).Idle? && s.owner.Nobody?
    ensures Whole(s, tid, Work(ms), 6) ==
            At(s, tid, Idle).(
              sections := s.sections + [Queue(ms)],
              fields := s.fields.(workDelayMs := ms, workPending := true, lastCmd := WorkQueued),
              queued := s.queued || s.cancelling == {},
              tally := s.tally.(requests := s.tally.requests + 1,
                                effective := s.tally.effective + One(!s.queued && s.cancelling == {})))
  {
    var begun := Step(s, Invoke(tid, Work(ms)));
    SectionAlone(begun, tid, Queue(ms));
    SectionEffect(s.fields, Queue(ms));
    SplitRepeat(begun, Move(tid), 5, 1);
    var queueing := Run(begun, Repeat([Move(tid)], 5));
    Unroll(queueing, Move(tid), 1);
    assert Step(queueing, Move(tid)).threads == At(s, tid, Idle).threads;
  }

  /** A delay command records what was asked for and what it took. */
  lemma DelayAlone(s: System, tid: nat, kind: LastCmd, value: nat, ns: nat)
    requires ThreadOf(s, tid).Idle? && s.owner.Nobody? && Accepted(DelayFor(kind, value, ns))
    ensures Whole(s, tid, DelayFor(kind, value, ns), 5) ==
            At(s, tid, Idle).(
              sections := s.sections + [Delay(kind, value, ns)],
              fields := s.fields.(requested := value, actualNs := ns, lastCmd := kind))
  {
    var begun := Step(s, Invoke(tid, DelayFor(kind, value, ns)));
    SectionAlone(begun, tid, Delay(kind, value, ns));
    SectionEffect(s.fields, Delay(kind, value, ns));
    assert At(begun, tid, Idle).threads == At(s, tid, Idle).threads;
  }

  lemma CancelWaited(s: System, tid: nat)
    requires ThreadOf(s, tid).Cancelling? && s.worker.Resting? && tid !in s.cancelling
    ensures Run(s, Repeat([Move(tid)], 2)) ==
            At(s, tid, Locking(Cancel)).(
              queued := false, tally := s.tally.(cancelled := s.tally.cancelled + One(s.queued)))
  {
    Unroll(s, Move(tid), 2);
    var s1 := Step(s, Move(tid));
    Unroll(s1, Move(tid), 1);
    assert s1.cancelling - {tid} == s.cancelling;
  }

  /** A cancel command takes queued work off the queue and counts it as cancelled. */
  lemma CancelAlone(s: System, tid: nat)
    requires ThreadOf(s, tid).Idle? && s.owner.Nobody? && s.worker.Resting? && tid !in s.cancelling
    ensures Whole(s, tid, CancelWork, 5) ==
            At(s, tid, Idle).(
              sections := s.sections + [Cancel], fields := s.fields.(lastCmd := WorkCancelled),
              queued := false, tally := s.tally.(cancelled := s.tally.cancelled + One(s.queued)))
  {
    var s0 := Step(s, Invoke(tid, CancelWork));
    CancelWaited(s0, tid);
    SplitRepeat(s0, Move(tid), 2, 3);
    var s2 := Run(s0, Repeat([Move(tid)], 2));
    SectionAlone(s2, tid, Cancel);
    SectionEffect(s.fields, Cancel);
    assert At(s2, tid, Idle).threads == At(s, tid, Idle).threads;
  }

  /** Copying the six fields. */
  lemma {:induction false} FinishReading(s: System, tid: nat, done: nat, copy: Fields, seen: nat)
    requires ThreadOf(s, tid) == Reading(done, copy, seen) && done <= 6 && Copied(done, s.fields, copy)
    ensures Run(s, Repeat([Move(tid)], 7 - done)) ==
            At(s, tid, Idle).(owner := Nobody, snapshots := s.snapshots + [Snapshot(seen, s.fields)])
    decreases 6 - done
  {
    Unroll(s, Move(tid), 7 - done);
    if done < 6 {
      var s' := Step(s, Move(tid));
      FinishReading(s', tid, done + 1, CopyField(done, s.fields, copy), seen);
      assert At(s', tid, Idle).threads == At(s, tid, Idle).threads;
    } else {
      assert copy == s.fields;
    }
  }

  /** A status read shows all fields as they are. */
  lemma StatusAlone(s: System, tid: nat)
    requires ThreadOf(s, tid).Idle? && s.owner.Nobody?
    ensures Whole(s, tid, Status, 8) ==
            At(s, tid, Idle).(snapshots := s.snapshots + [Snapshot(|s.sections|, s.fields)])
  {
    var s0 := Step(s, Invoke(tid, Status));
    Unroll(s0, Move(tid), 8);
    var s1 := Step(s0, Move(tid));
    FinishReading(s1, tid, 0, INITIAL, |s.sections|);
    assert At(s1, tid, Idle).threads == At(s, tid, Idle).threads;
  }

  // ---------- the work function ----------

  lemma {:induction false} FinishWork(s: System, todo: seq<Update>)
    requires s.worker == WorkUpdating(todo) && CountRun !in todo
    ensures Run(s, Repeat([WorkerMove], |todo| + 1)) ==
            s.(owner := Nobody, worker := WorkReturning, fields := AssignAll(s.fields, todo))
    decreases |todo|
  {
    Unroll(s, WorkerMove, |todo| + 1);
    if todo != [] {
      FinishWork(Step(s, WorkerMove), todo[1..]);
    }
  }

  /** Queued work is run once: it leaves the queue, counts its run and clears the pending flag. */
  lemma WorkRuns(s: System)
    requires s.queued && s.worker.Resting? && s.owner.Nobody?
    ensures Run(s, Repeat([WorkerMove], 8)) ==
            s.(queued := false, sections := s.sections + [RunWork],
               fields := s.fields.(workRuns := (s.fields.workRuns + 1) % 0x1_0000_0000,
                                   workPending := false, lastCmd := WorkRan),
               tally := s.tally.(counted := s.tally.counted + 1, finished := s.tally.finished + 1))
  {
    SplitRepeat(s, WorkerMove, 4, 4);
    WorkStarts(s);
    var s4 := Run(s, Repeat([WorkerMove], 4));
    SplitRepeat(s4, WorkerMove, 3, 1);
    FinishWork(s4, [SetPending(false), SetCmd(WorkRan)]);
    SectionEffect(s.fields, RunWork);
    assert AssignAll(s.fields, Updates(RunWork)) == AssignAll(s4.fields, [SetPending(false), SetCmd(WorkRan)]);
    Unroll(Run(s4, Repeat([WorkerMove], 3)), WorkerMove, 1);
  }

  /** Off the queue, asleep, awake, in the mutex with its run counted. */
  lemma WorkStarts(s: System)
    requires s.queued && s.worker.Resting? && s.owner.Nobody?
    ensures Run(s, Repeat([WorkerMove], 4)) ==
            s.(queued := false, owner := TheWorker, worker := WorkUpdating([SetPending(false), SetCmd(WorkRan)]),
               sections := s.sections + [RunWork], fields := Assign(s.fields, CountRun),
               tally := s.tally.(counted := s.tally.counted + 1))
  {
    var s1 := Step(s, WorkerMove);
    var s2 := Step(s1, WorkerMove);
    var s3 := Step(s2, WorkerMove);
    Unroll(s, WorkerMove, 4);
    Unroll(s1, WorkerMove, 3);
    Unroll(s2, WorkerMove, 2);
    Unroll(s3, WorkerMove, 1);
  }

  // ---------- every accepted work command asks the kernel to queue the work ----------

  function WorkSections(sections: seq<Section>): nat
    decreases |sections|
  {
    if sections == [] then 0
    else WorkSections(sections[..|sections| - 1]) + One(sections[|sections| - 1].Queue?)
  }

  /** How many work commands have been accepted. */
  function WorkCommands(s: System, actions: seq<Action>): nat
    decreases actions
  {
    if actions == [] then 0
    else
      var a := actions[0];
      One(a.Invoke? && a.cmd.Work? && ThreadOf(s, a.tid).Idle?) + WorkCommands(Step(s, a), actions[1..])
  }

  /** Between the beginning of its section and the kernel call that queues the work. */
  predicate ToQueue(th: Thread) {
    th.Queueing? || (th.Updating? && th.queueNext)
  }

  predicate ToWork(th: Thread) {
    ToQueue(th) || (th.Locking? && th.section.Queue?)
  }

  function Queuers(s: System): set<nat> {
    set t | t in s.threads && ToQueue(s.threads[t])
  }

  function Workers(s: System): set<nat> {
    set t | t in s.threads && ToWork(s.threads[t])
  }

  predicate RequestInv(s: System, commands: nat) {
    && WorkSections(s.sections) == s.tally.requests + |Queuers(s)|
    && commands == s.tally.requests + |Workers(s)|
  }

  /** Only `tid` may come or go. */
  lemma SetChange(x: set<nat>, y: set<nat>, tid: nat)
    requires x - {tid} == y - {tid}
    ensures |y| + One(tid in x) == |x| + One(tid in y)
  {
    assert |x| == |x - {tid}| + One(tid in x);
    assert |y| == |y - {tid}| + One(tid in y);
  }

  lemma ThreadsChange(s: System, s': System, tid: nat)
    requires forall t | t != tid :: ThreadOf(s', t) == ThreadOf(s, t)
    ensures |Queuers(s')| + One(ToQueue(ThreadOf(s, tid))) == |Queuers(s)| + One(ToQueue(ThreadOf(s', tid)))
    ensures |Workers(s')| + One(ToWork(ThreadOf(s, tid))) == |Workers(s)| + One(ToWork(ThreadOf(s', tid)))
  {
    assert forall t :: t in Queuers(s) <==> ToQueue(ThreadOf(s, t));
    assert forall t :: t in Queuers(s') <==> ToQueue(ThreadOf(s', t));
    assert forall t :: t in Workers(s) <==> ToWork(ThreadOf(s, t));
    assert forall t :: t in Workers(s') <==> ToWork(ThreadOf(s', t));
    SetChange(Queuers(s), Queuers(s'), tid);
    SetChange(Workers(s), Workers(s'), tid);
  }

  /** A step moves a thread towards the queue as the sections and the requests say. */
  lemma SectionTowardsQueue(s: System, tid: nat)
    ensures var s' := ThreadStep(s, tid);
      WorkSections(s'.sections) + s.tally.requests + One(ToQueue(ThreadOf(s, tid)))
      == WorkSections(s.sections) + s'.tally.requests + One(ToQueue(ThreadOf(s', tid)))
  {
    if ThreadOf(s, tid).Locking? && s.owner.Nobody? {
      SectionCounted(s.sections, ThreadOf(s, tid).section);
    } else {
      assert ThreadStep(s, tid).sections == s.sections;
    }
  }

  lemma SectionCounted(sections: seq<Section>, section: Section)
    ensures WorkSections(sections + [section]) == WorkSections(sections) + One(section.Queue?)
  {
  }

  lemma CommandTowardsQueue(s: System, tid: nat)
    ensures var s' := ThreadStep(s, tid);
      s.tally.requests + One(ToWork(ThreadOf(s, tid))) == s'.tally.requests + One(ToWork(ThreadOf(s', tid)))
  {
  }

  lemma OnlyItMoves(s: System, tid: nat, t: nat)
    requires t != tid
    ensures ThreadOf(ThreadStep(s, tid), t) == ThreadOf(s, t)
  {
  }

  lemma MoveRequests(s: System, tid: nat, commands: nat)
    requires RequestInv(s, commands)
    ensures RequestInv(ThreadStep(s, tid), commands)
  {
    var s' := ThreadStep(s, tid);
    forall t | t != tid ensures ThreadOf(s', t) == ThreadOf(s, t) {
      OnlyItMoves(s, tid, t);
    }
    ThreadsChange(s, s', tid);
    SectionTowardsQueue(s, tid);
    CommandTowardsQueue(s, tid);
  }

  lemma InvokeRequests(s: System, tid: nat, cmd: Command, commands: nat)
    requires RequestInv(s, commands)
    ensures RequestInv(Step(s, Invoke(tid, cmd)), commands + One(cmd.Work? && ThreadOf(s, tid).Idle?))
  {
    var s' := Step(s, Invoke(tid, cmd));
    ThreadsChange(s, s', tid);
    assert s'.sections == s.sections && s'.tally == s.tally;
  }

  lemma WorkerAsksNothing(s: System)
    ensures WorkSections(WorkerStep(s).sections) == WorkSections(s.sections)
    ensures WorkerStep(s).threads == s.threads && WorkerStep(s).tally.requests == s.tally.requests
  {
  }

  lemma WorkerRequests(s: System, commands: nat)
    requires RequestInv(s, commands)
    ensures RequestInv(WorkerStep(s), commands)
  {
    WorkerAsksNothing(s);
  }

  lemma RequestStep(s: System, a: Action, commands: nat)
    requires RequestInv(s, commands)
    ensures RequestInv(Step(s, a), commands + One(a.Invoke? && a.cmd.Work? && ThreadOf(s, a.tid).Idle?))
  {
    match a
    case Invoke(tid, cmd) => InvokeRequests(s, tid, cmd, commands);
    case Move(tid) => MoveRequests(s, tid, commands);
    case WorkerMove => WorkerRequests(s, commands);
  }

  lemma {:induction false} RequestRun(s: System, actions: seq<Action>, commands: nat)
    requires RequestInv(s, commands)
    ensures RequestInv(Run(s, actions), commands + WorkCommands(s, actions))
    decreases actions
  {
    if actions != [] {
      var a := actions[0];
      RequestStep(s, a, commands);
      RequestRun(Step(s, a), actions[1..], commands + One(a.Invoke? && a.cmd.Work? && ThreadOf(s, a.tid).Idle?));
    }
  }

  /** In every run: the accepted work commands are the requests made to the kernel and the commands still
      on their way there; and so are the work sections that have taken the mutex. */
  lemma RequestsCounted(actions: seq<Action>)
    ensures var s := Run(Load(), actions);
      && WorkCommands(Load(), actions) == s.tally.requests + |Workers(s)|
      && WorkSections(s.sections) == s.tally.requests + |Queuers(s)|
  {
    assert Queuers(Load()) == {} && Workers(Load()) == {};
    RequestRun(Load(), actions, 0);
  }
}
