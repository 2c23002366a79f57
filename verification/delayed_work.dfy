/**
 The delay and deferred-work driver: commands, a sleeping work function and status reads that share
 one mutex. Threads move one field assignment at a time; the mutex, the work queue and the work item
 are explicit.
 */
module DelayedWork {
  import opened Common

  datatype LastCmd = NoCmd | Udelay | UsleepRange | Msleep | WorkQueued | WorkRan | WorkCancelled

  /** The status fields behind the mutex. */
  datatype Fields = Fields(
    actualNs: nat, requested: nat, workDelayMs: nat, workRuns: nat, workPending: bool, lastCmd: LastCmd)

  const INITIAL := Fields(0, 0, 0, 0, false, NoCmd)

  datatype Update =
    | SetRequested(v: nat) | SetActual(ns: nat) | SetCmd(cmd: LastCmd)
    | SetDelay(ms: nat) | SetPending(b: bool) | CountRun

  function Assign(f: Fields, u: Update): Fields {
    match u
    case SetRequested(v) => f.(requested := v)
    case SetActual(ns) => f.(actualNs := ns)
    case SetCmd(cmd) => f.(lastCmd := cmd)
    case SetDelay(ms) => f.(workDelayMs := ms)
    case SetPending(b) => f.(workPending := b)
    case CountRun => f.(workRuns := (f.workRuns + 1) % WORD32)
  }

  function AssignAll(f: Fields, us: seq<Update>): Fields
    decreases us
  {
    if us == [] then f else AssignAll(Assign(f, us[0]), us[1..])
  }

  /** The critical sections that change fields. A delay command brings the request and the duration
      it measured before taking the mutex. */
  datatype Section = Delay(kind: LastCmd, value: nat, ns: nat) | Queue(ms: nat) | RunWork | Cancel

  function Updates(s: Section): seq<Update> {
    match s
    case Delay(kind, value, ns) => [SetRequested(value), SetActual(ns), SetCmd(kind)]
    case Queue(ms) => [SetDelay(ms), SetPending(true), SetCmd(WorkQueued)]
    case RunWork => [CountRun, SetPending(false), SetCmd(WorkRan)]
    case Cancel => [SetCmd(WorkCancelled)]
  }

  /** The fields after whole sections, one after another. */
  function Serial(sections: seq<Section>): Fields
    decreases |sections|
  {
    if sections == [] then INITIAL
    else AssignAll(Serial(sections[..|sections| - 1]), Updates(sections[|sections| - 1]))
  }

  // ---------- threads, worker, mutex ----------

  datatype Command =
    | DelayFor(kind: LastCmd, value: nat, ns: nat) | Work(ms: nat) | CancelWork | Status | Unknown

  datatype Thread =
    | Idle
    | Locking(section: Section)
    | Updating(todo: seq<Update>, queueNext: bool)
    | Queueing
    | Cancelling
    | CancelWaiting
    | LockingToRead
    | Reading(done: nat, copy: Fields, seen: nat)

  /** The work function on its worker; one execution at a time. */
  datatype Worker = Resting | Sleeping | WorkLocking | WorkUpdating(todo: seq<Update>) | WorkReturning

  datatype Owner = Nobody | Writer(tid: nat) | Reader(tid: nat) | TheWorker

  /** A status read's result, and how many sections had taken the mutex before it. */
  datatype Snapshot = Snapshot(seen: nat, fields: Fields)

  /** What has happened to the work item so far. `requests` counts the calls that queue the work,
      `effective` those that the kernel accepted: it was neither queued already nor being cancelled. */
  datatype Tally = Tally(requests: nat, effective: nat, cancelled: nat, counted: nat, finished: nat)

  /** `cancelling` are the threads inside the kernel's cancel call. While there is one, the work item
      cannot be queued. */
  datatype System = System(
    fields: Fields, owner: Owner, threads: map<nat, Thread>, queued: bool, cancelling: set<nat>,
    worker: Worker, sections: seq<Section>, snapshots: seq<Snapshot>, tally: Tally)

  datatype Action = Invoke(tid: nat, cmd: Command) | Move(tid: nat) | WorkerMove

  function Load(): System {
    System(INITIAL, Nobody, map[], false, {}, Resting, [], [], Tally(0, 0, 0, 0, 0))
  }

  function ThreadOf(s: System, tid: nat): Thread {
    if tid in s.threads then s.threads[tid] else Idle
  }

  function At(s: System, tid: nat, th: Thread): System {
    s.(threads := s.threads[tid := th])
  }

  /** A delay of zero is rejected, and a busy wait of more than a thousand microseconds. */
  predicate Rejected(cmd: Command) {
    || cmd.Unknown?
    || (cmd.DelayFor? && (cmd.value == 0 || (cmd.kind == Udelay && cmd.value > 1000)))
  }

  function Begin(cmd: Command): Thread {
    match cmd
    case DelayFor(kind, value, ns) => Locking(Delay(kind, value, ns))
    case Work(ms) => Locking(Queue(ms))
    case CancelWork => Cancelling
    case Status => LockingToRead
    case Unknown => Idle
  }

  /** Copying the status fields one by one. */
  function CopyField(k: nat, f: Fields, copy: Fields): Fields {
    if k == 0 then copy.(actualNs := f.actualNs)
    else if k == 1 then copy.(requested := f.requested)
    else if k == 2 then copy.(workDelayMs := f.workDelayMs)
    else if k == 3 then copy.(workRuns := f.workRuns)
    else if k == 4 then copy.(workPending := f.workPending)
    else copy.(lastCmd := f.lastCmd)
  }

  /** A step of a thread; one that waits for the mutex or the worker changes nothing. */
  function ThreadStep(s: System, tid: nat): System {
    match ThreadOf(s, tid)
    case Idle => s
    case Locking(section) =>
      if s.owner.Nobody? then
        At(s, tid, Updating(Updates(section), section.Queue?))
          .(owner := Writer(tid), sections := s.sections + [section])
      else s
    case Updating(todo, queueNext) =>
      if todo == [] then At(s, tid, if queueNext then Queueing else Idle).(owner := Nobody)
      else At(s, tid, Updating(todo[1..], queueNext)).(fields := Assign(s.fields, todo[0]))
    case Queueing =>
      At(s, tid, Idle).(
        queued := s.queued || s.cancelling == {},
        tally := s.tally.(requests := s.tally.requests + 1,
                          effective := s.tally.effective + if s.queued || s.cancelling != {} then 0 else 1))
    case Cancelling =>
      At(s, tid, CancelWaiting).(
        queued := false,
        cancelling := s.cancelling + {tid},
        tally := s.tally.(cancelled := s.tally.cancelled + if s.queued then 1 else 0))
    case CancelWaiting =>
      if s.worker.Resting? then At(s, tid, Locking(Cancel)).(cancelling := s.cancelling - {tid}) else s
    case LockingToRead =>
      if s.owner.Nobody? then At(s, tid, Reading(0, INITIAL, |s.sections|)).(owner := Reader(tid)) else s
    case Reading(done, copy, seen) =>
      if done < 6 then At(s, tid, Reading(done + 1, CopyField(done, s.fields, copy), seen))
      else At(s, tid, Idle).(owner := Nobody, snapshots := s.snapshots + [Snapshot(seen, copy)])
  }

  /** A step of the worker: take the queued item, sleep, update the fields under the mutex, return. */
  function WorkerStep(s: System): System {
    match s.worker
    case Resting => if s.queued then s.(queued := false, worker := Sleeping) else s
    case Sleeping => s.(worker := WorkLocking)
    case WorkLocking =>
      if s.owner.Nobody? then
        s.(owner := TheWorker, worker := WorkUpdating(Updates(RunWork)), sections := s.sections + [RunWork])
      else s
    case WorkUpdating(todo) =>
      if todo == [] then s.(owner := Nobody, worker := WorkReturning)
      else s.(fields := Assign(s.fields, todo[0]), worker := WorkUpdating(todo[1..]),
              tally := s.tally.(counted := s.tally.counted + if todo[0].CountRun? then 1 else 0))
    case WorkReturning => s.(worker := Resting, tally := s.tally.(finished := s.tally.finished + 1))
  }

  function Step(s: System, a: Action): System {
    match a
    case Invoke(tid, cmd) =>
      if ThreadOf(s, tid).Idle? && !Rejected(cmd) then At(s, tid, Begin(cmd)) else s
    case Move(tid) => ThreadStep(s, tid)
    case WorkerMove => WorkerStep(s)
  }

  function Run(s: System, actions: seq<Action>): System
    decreases actions
  {
    if actions == [] then s else Run(Step(s, actions[0]), actions[1..])
  }

  // ---------- conservation of queued work ----------

  function One(b: bool): nat {
    if b then 1 else 0
  }

  /** A counted run that has yet to return. */
  predicate CountedNow(w: Worker) {
    w.WorkReturning? || (w.WorkUpdating? && |w.todo| < 3)
  }

  predicate WorkerInv(w: Worker) {
    w.WorkUpdating? ==>
      || w.todo == [CountRun, SetPending(false), SetCmd(WorkRan)]
      || w.todo == [SetPending(false), SetCmd(WorkRan)]
      || w.todo == [SetCmd(WorkRan)]
      || w.todo == []
  }

  predicate TallyInv(s: System) {
    && s.tally.effective == s.tally.finished + s.tally.cancelled + One(s.queued) + One(!s.worker.Resting?)
    && s.tally.effective <= s.tally.requests
    && s.tally.counted == s.tally.finished + One(CountedNow(s.worker))
    && s.fields.workRuns == s.tally.counted % WORD32
  }

  /** Only the worker counts runs. */
  predicate NeverCounts(th: Thread) {
    && (th.Locking? ==> !th.section.RunWork?)
    && (th.Updating? ==> CountRun !in th.todo)
  }

  predicate WorkInv(s: System) {
    TallyInv(s) && WorkerInv(s.worker) && forall t | t in s.threads :: NeverCounts(s.threads[t])
  }

  lemma TallyThreadStep(s: System, tid: nat)
    requires TallyInv(s) && NeverCounts(ThreadOf(s, tid))
    ensures TallyInv(ThreadStep(s, tid)) && ThreadStep(s, tid).worker == s.worker
  {
    var th := ThreadOf(s, tid);
    if th.Updating? && th.todo != [] {
      assert th.todo[0] in th.todo;
    }
  }

  lemma WorkThreadStep(s: System, tid: nat)
    requires WorkInv(s)
    ensures WorkInv(ThreadStep(s, tid))
  {
    var s' := ThreadStep(s, tid);
    TallyThreadStep(s, tid);
    forall t | t in s'.threads ensures NeverCounts(s'.threads[t]) {
      if t != tid {
        assert s'.threads[t] == s.threads[t];
      } else {
        assert s'.threads[t] == ThreadOf(s', tid);
      }
    }
  }

  lemma WorkUpdate(s: System)
    requires TallyInv(s) && WorkerInv(s.worker) && s.worker.WorkUpdating? && s.worker.todo != []
    ensures TallyInv(WorkerStep(s)) && WorkerInv(WorkerStep(s).worker)
  {
  }

  lemma WorkWorkerStep(s: System)
    requires WorkInv(s)
    ensures WorkInv(WorkerStep(s))
  {
    if s.worker.WorkUpdating? && s.worker.todo != [] {
      WorkUpdate(s);
    }
    assert WorkerStep(s).threads == s.threads;
  }

  lemma {:induction false} WorkRun(s: System, actions: seq<Action>)
    requires WorkInv(s)
    ensures WorkInv(Run(s, actions))
    decreases actions
  {
    if actions != [] {
      var a := actions[0];
      if a.Move? {
        WorkThreadStep(s, a.tid);
      } else if a.WorkerMove? {
        WorkWorkerStep(s);
      } else {
        assert WorkInv(Step(s, a));
      }
      WorkRun(Step(s, a), actions[1..]);
    }
  }

  /** In every run with any number of writers: each effective queueing has ended in a finished run or
      a cancellation, or is still queued or executing; and the displayed run counter is the number of
      counted runs, which never exceeds the accepted work commands. */
  lemma WorkConserved(actions: seq<Action>)
    ensures var s := Run(Load(), actions);
      && s.tally.effective == s.tally.finished + s.tally.cancelled + One(s.queued) + One(!s.worker.Resting?)
      && s.fields.workRuns == s.tally.counted % WORD32
      && s.tally.counted <= s.tally.effective <= s.tally.requests
  {
    WorkRun(Load(), actions);
  }

  // ---------- status reads ----------

  /** What the fields will be when the current critical section is over. */
  function Settled(s: System): Fields {
    match s.owner
    case Writer(tid) =>
      if ThreadOf(s, tid).Updating? then AssignAll(s.fields, ThreadOf(s, tid).todo) else s.fields
    case TheWorker => if s.worker.WorkUpdating? then AssignAll(s.fields, s.worker.todo) else s.fields
    case _ => s.fields
  }

  /** The fields of `copy` before `k` are those of `f`. */
  predicate Copied(k: nat, f: Fields, copy: Fields) {
    && (k > 0 ==> copy.actualNs == f.actualNs)
    && (k > 1 ==> copy.requested == f.requested)
    && (k > 2 ==> copy.workDelayMs == f.workDelayMs)
    && (k > 3 ==> copy.workRuns == f.workRuns)
    && (k > 4 ==> copy.workPending == f.workPending)
    && (k > 5 ==> copy.lastCmd == f.lastCmd)
  }

  /** A thread between lock and unlock owns the mutex; a reader has so far copied the fields of the
      sections that took the mutex before it. */
  predicate ThreadInv(s: System, tid: nat) {
    match ThreadOf(s, tid)
    case Updating(todo, queueNext) => s.owner == Writer(tid)
    case Reading(done, copy, seen) =>
      s.owner == Reader(tid) && done <= 6 && seen == |s.sections| && Copied(done, s.fields, copy)
    case _ => s.owner != Writer(tid) && s.owner != Reader(tid)
  }

  predicate SnapshotOk(s: System, x: Snapshot) {
    x.seen <= |s.sections| && x.fields == Serial(s.sections[..x.seen])
  }

  ghost predicate OwnersInv(s: System) {
    (forall t :: ThreadInv(s, t)) && WorkerOwns(s)
  }

  predicate WorkerOwns(s: System) {
    s.owner == TheWorker <==> s.worker.WorkUpdating?
  }

  predicate SnapshotsInv(s: System) {
    forall x | x in s.snapshots :: SnapshotOk(s, x)
  }

  ghost predicate MutexInv(s: System) {
    OwnersInv(s) && Settled(s) == Serial(s.sections) && SnapshotsInv(s)
  }

  lemma SnapshotsKept(s: System, s': System)
    requires SnapshotsInv(s) && s.sections <= s'.sections && s'.snapshots == s.snapshots
    ensures SnapshotsInv(s')
  {
    forall x | x in s'.snapshots ensures SnapshotOk(s', x) {
      assert SnapshotOk(s, x);
      assert s'.sections[..x.seen] == s.sections[..x.seen];
    }
  }

  lemma ThreadInvKept(s: System, tid: nat, t: nat)
    requires ThreadInv(s, tid) && ThreadInv(s, t)
    ensures ThreadInv(ThreadStep(s, tid), t)
  {
    if t != tid {
      assert ThreadOf(ThreadStep(s, tid), t) == ThreadOf(s, t);
    }
  }

  lemma OwnersThreadStep(s: System, tid: nat)
    requires OwnersInv(s)
    ensures OwnersInv(ThreadStep(s, tid))
  {
    assert ThreadInv(s, tid);
    forall t: nat ensures ThreadInv(ThreadStep(s, tid), t) {
      ThreadInvKept(s, tid, t);
    }
  }

  lemma ThreadInvKeptByWorker(s: System, t: nat)
    requires ThreadInv(s, t) && WorkerOwns(s)
    ensures ThreadInv(WorkerStep(s), t)
  {
  }

  lemma OwnersWorkerStep(s: System)
    requires OwnersInv(s)
    ensures OwnersInv(WorkerStep(s))
  {
    forall t: nat ensures ThreadInv(WorkerStep(s), t) {
      ThreadInvKeptByWorker(s, t);
    }
  }

  lemma SettledThreadStep(s: System, tid: nat)
    requires OwnersInv(s) && Settled(s) == Serial(s.sections)
    ensures Settled(ThreadStep(s, tid)) == Serial(ThreadStep(s, tid).sections)
  {
    assert ThreadInv(s, tid);
  }

  lemma SettledWorkerStep(s: System)
    requires OwnersInv(s) && Settled(s) == Serial(s.sections)
    ensures Settled(WorkerStep(s)) == Serial(WorkerStep(s).sections)
  {
    match s.worker
    case WorkLocking =>
    case WorkUpdating(todo) =>
      assert Settled(s) == AssignAll(s.fields, todo);
    case _ =>
      assert WorkerStep(s).fields == s.fields && WorkerStep(s).sections == s.sections;
  }

  /** The read that ends has copied all six fields of the sections before it. */
  lemma ReadEnds(s: System, tid: nat)
    requires MutexInv(s) && ThreadOf(s, tid).Reading? && ThreadOf(s, tid).done == 6
    ensures SnapshotsInv(ThreadStep(s, tid))
  {
    assert ThreadInv(s, tid);
    assert s.sections[..|s.sections|] == s.sections;
    assert ThreadOf(s, tid).copy == s.fields;
    forall x | x in ThreadStep(s, tid).snapshots ensures SnapshotOk(ThreadStep(s, tid), x) {
      assert x in s.snapshots ==> SnapshotOk(s, x);
    }
  }

  lemma MutexThreadStep(s: System, tid: nat)
    requires MutexInv(s)
    ensures MutexInv(ThreadStep(s, tid))
  {
    OwnersThreadStep(s, tid);
    SettledThreadStep(s, tid);
    assert ThreadInv(s, tid);
    if ThreadOf(s, tid).Reading? && ThreadOf(s, tid).done == 6 {
      ReadEnds(s, tid);
    } else {
      SnapshotsKept(s, ThreadStep(s, tid));
    }
  }

  lemma MutexWorkerStep(s: System)
    requires MutexInv(s)
    ensures MutexInv(WorkerStep(s))
  {
    OwnersWorkerStep(s);
    SettledWorkerStep(s);
    SnapshotsKept(s, WorkerStep(s));
  }

  lemma MutexInvoke(s: System, a: Action)
    requires MutexInv(s) && a.Invoke?
    ensures MutexInv(Step(s, a))
  {
    var s' := Step(s, a);
    assert ThreadInv(s, a.tid);
    forall t ensures ThreadInv(s', t) {
      assert ThreadInv(s, t);
    }
    SnapshotsKept(s, s');
  }

  lemma LoadKept()
    ensures MutexInv(Load())
  {
    forall t ensures ThreadInv(Load(), t) {
    }
  }

  lemma {:induction false} MutexRun(s: System, actions: seq<Action>)
    requires MutexInv(s)
    ensures MutexInv(Run(s, actions))
    decreases actions
  {
    if actions != [] {
      var a := actions[0];
      match a {
        case Invoke(tid, cmd) => MutexInvoke(s, a);
        case Move(tid) => MutexThreadStep(s, tid);
        case WorkerMove => MutexWorkerStep(s);
      }
      MutexRun(Step(s, a), actions[1..]);
    }
  }

  /** Request and duration of the latest delay command among some sections. */
  function LatestDelay(sections: seq<Section>): (nat, nat)
    decreases |sections|
  {
    if sections == [] then (0, 0)
    else
      var last := sections[|sections| - 1];
      if last.Delay? then (last.value, last.ns) else LatestDelay(sections[..|sections| - 1])
  }

  lemma AssignThree(f: Fields, x: Update, y: Update, z: Update)
    ensures AssignAll(f, [x, y, z]) == Assign(Assign(Assign(f, x), y), z)
  {
    var f1, f2 := Assign(f, x), Assign(Assign(f, x), y);
    assert [x, y, z][1..] == [y, z];
    assert AssignAll(f1, [y, z]) == AssignAll(f2, [z]);
    assert AssignAll(f2, [z]) == AssignAll(Assign(f2, z), []);
  }

  lemma {:induction false} PairOfOneCommand(sections: seq<Section>)
    ensures (Serial(sections).requested, Serial(sections).actualNs) == LatestDelay(sections)
    decreases |sections|
  {
    if sections != [] {
      var before := sections[..|sections| - 1];
      PairOfOneCommand(before);
      match sections[|sections| - 1]
      case Delay(kind, value, ns) => AssignThree(Serial(before), SetRequested(value), SetActual(ns), SetCmd(kind));
      case Queue(ms) => AssignThree(Serial(before), SetDelay(ms), SetPending(true), SetCmd(WorkQueued));
      case RunWork => AssignThree(Serial(before), CountRun, SetPending(false), SetCmd(WorkRan));
      case Cancel =>
        assert AssignAll(Assign(Serial(before), SetCmd(WorkCancelled)), []) ==
               AssignAll(Serial(before), [SetCmd(WorkCancelled)]);
    }
  }

  /** However readers, commands and the work function interleave, field by field: a status read
      returns the fields as they were after whole critical sections, namely those that took the mutex
      before it; so its request and duration come from the same delay command, the latest one, or
      are the initial zeros. */
  lemma ConsistentSnapshots(actions: seq<Action>, x: Snapshot)
    requires x in Run(Load(), actions).snapshots
    ensures var done := Run(Load(), actions).sections;
      && x.seen <= |done|
      && x.fields == Serial(done[..x.seen])
      && (x.fields.requested, x.fields.actualNs) == LatestDelay(done[..x.seen])
  {
    LoadKept();
    MutexRun(Load(), actions);
    PairOfOneCommand(Run(Load(), actions).sections[..x.seen]);
  }
}
