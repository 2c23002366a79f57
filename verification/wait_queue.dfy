/**
 The wait-queue mailbox: any number of readers waiting for the flag and of writers setting it,
 interleaved at the grain of enqueue, test and sleep against set flag and wake.
 */
module WaitQueue {

  /** A reader tests the flag once without queueing, then loops: enqueue and become sleepable, test
      again, call the scheduler. A signal seen at the enqueue ends the wait unless data has come. */
  datatype Thread =
    | Idle
    | FirstTest
    | Enqueueing
    | Testing
    | LastTest         // not queued because of a signal
    | Scheduling       // has seen no data and calls the scheduler
    | Asleep           // taken off the processor
    | Leaving          // has seen data while on the queue
    | Consuming
    | Filling          // a writer, before it sets the flag
    | Waking           // a writer between setting the flag and waking

  /** `queue` holds the readers on the wait queue, `sleepable` those whose task state lets the
      scheduler keep them off the processor, `signalled` those with a pending signal. */
  datatype System = System(
    dataAvailable: bool, queue: set<nat>, sleepable: set<nat>, signalled: set<nat>,
    threads: map<nat, Thread>)

  /** `ok` is the outcome of the user copy, for the steps that make one. */
  datatype Action = Read(tid: nat) | Write(tid: nat) | Signal(tid: nat) | Move(tid: nat, ok: bool)

  function ThreadOf(s: System, tid: nat): Thread {
    if tid in s.threads then s.threads[tid] else Idle
  }

  function At(s: System, tid: nat, th: Thread): System {
    s.(threads := s.threads[tid := th])
  }

  function Load(): System {
    System(false, {}, {}, {}, map[])
  }

  /** A call returns; a pending signal is delivered then, and at once if no call is under way. */
  function Return(s: System, tid: nat): System {
    At(s, tid, Idle).(signalled := s.signalled - {tid})
  }

  /** A step of a thread; a sleeping one that nobody has woken changes nothing. */
  function ThreadStep(s: System, tid: nat, ok: bool): System {
    match ThreadOf(s, tid)
    case Idle => s
    case FirstTest => At(s, tid, if s.dataAvailable then Consuming else Enqueueing)
    case Enqueueing =>
      if tid in s.signalled then At(s, tid, LastTest).(queue := s.queue - {tid})
      else At(s, tid, Testing).(queue := s.queue + {tid}, sleepable := s.sleepable + {tid})
    case LastTest =>
      if s.dataAvailable then At(s, tid, Consuming) else Return(s, tid)
    case Testing => At(s, tid, if s.dataAvailable then Leaving else Scheduling)
    case Scheduling =>
      if tid in s.sleepable && tid !in s.signalled then At(s, tid, Asleep)
      else At(s, tid, Enqueueing).(sleepable := s.sleepable - {tid})
    case Asleep => if tid in s.sleepable then s else At(s, tid, Enqueueing)
    case Leaving => At(s, tid, Consuming).(queue := s.queue - {tid}, sleepable := s.sleepable - {tid})
    case Consuming => Return(s, tid).(dataAvailable := if ok then false else s.dataAvailable)
    case Filling => if ok then At(s, tid, Waking).(dataAvailable := true) else Return(s, tid)
    case Waking =>
      // Every queued reader that can sleep becomes runnable and leaves the queue.
      Return(s, tid).(queue := s.queue - s.sleepable, sleepable := s.sleepable - s.queue)
  }

  function Step(s: System, a: Action): System {
    match a
    case Read(tid) => if ThreadOf(s, tid).Idle? then At(s, tid, FirstTest) else s
    case Write(tid) => if ThreadOf(s, tid).Idle? then At(s, tid, Filling) else s
    case Signal(tid) =>
      if ThreadOf(s, tid).Idle? then s
      else s.(signalled := s.signalled + {tid}, sleepable := s.sleepable - {tid})
    case Move(tid, ok) => ThreadStep(s, tid, ok)
  }

  function Run(s: System, actions: seq<Action>): System
    decreases actions
  {
    if actions == [] then s else Run(Step(s, actions[0]), actions[1..])
  }

  // ---------- no lost wake-up ----------

  /** A reader that will not test the flag again unless somebody wakes it. */
  predicate Sleeps(s: System, tid: nat) {
    ThreadOf(s, tid) in {Scheduling, Asleep} && tid in s.sleepable
  }

  ghost predicate WakeComing(s: System) {
    exists w :: ThreadOf(s, w).Waking?
  }

  /** Who can sleep is on the queue and between its enqueue and its dequeue. */
  predicate QueueInv(s: System, tid: nat) {
    tid in s.sleepable ==> tid in s.queue && ThreadOf(s, tid) in {Testing, Scheduling, Asleep, Leaving}
  }

  ghost predicate Inv(s: System) {
    && (forall t :: QueueInv(s, t))
    && (s.dataAvailable && (exists t :: Sleeps(s, t)) ==> WakeComing(s))
  }

  lemma QueueKept(s: System, a: Action, t: nat)
    requires QueueInv(s, t)
    ensures QueueInv(Step(s, a), t)
  {
  }

  /** A wake-up reaches every sleeper and takes it off the queue; who is awake stays on it. */
  lemma WakeReachesAll(s: System, w: nat, ok: bool, t: nat)
    requires QueueInv(s, t) && ThreadOf(s, w).Waking?
    ensures !Sleeps(ThreadStep(s, w, ok), t)
    ensures t in ThreadStep(s, w, ok).queue <==> t in s.queue && t !in s.sleepable
  {
  }

  /** Nobody falls asleep on a set flag: who sleeps after a step slept before it, or the flag is off. */
  lemma SleeperWasThere(s: System, a: Action, t: nat)
    requires Sleeps(Step(s, a), t)
    ensures Sleeps(s, t) || !Step(s, a).dataAvailable
  {
  }

  /** A step that sets the flag leaves its writer about to wake; other wakers stay. */
  lemma WakerStays(s: System, a: Action, w: nat)
    requires ThreadOf(s, w).Waking? && !(a.Move? && a.tid == w)
    ensures ThreadOf(Step(s, a), w).Waking?
  {
  }

  lemma InvStep(s: System, a: Action)
    requires Inv(s)
    ensures Inv(Step(s, a))
  {
    var s' := Step(s, a);
    forall t: nat ensures QueueInv(s', t) {
      assert QueueInv(s, t);
      QueueKept(s, a, t);
    }
    if a.Move? && ThreadOf(s, a.tid).Waking? {
      forall t: nat ensures !Sleeps(s', t) {
        assert QueueInv(s, t);
        WakeReachesAll(s, a.tid, a.ok, t);
      }
    } else if s'.dataAvailable && exists t :: Sleeps(s', t) {
      var t :| Sleeps(s', t);
      SleeperWasThere(s, a, t);
      if s.dataAvailable {
        var w :| ThreadOf(s, w).Waking?;
        WakerStays(s, a, w);
      } else {
        assert ThreadOf(s', a.tid).Waking?;
      }
    }
  }

  lemma {:induction false} InvRun(s: System, actions: seq<Action>)
    requires Inv(s)
    ensures Inv(Run(s, actions))
    decreases actions
  {
    if actions != [] {
      InvStep(s, actions[0]);
      InvRun(Step(s, actions[0]), actions[1..]);
    }
  }

  /** In every run with any readers, writers and signals: a reader sleeps only while there is no data
      or some writer is between setting the flag and waking; and it sleeps on the queue, where that
      writer will find it. */
  lemma NoLostWakeup(actions: seq<Action>, t: nat)
    requires Sleeps(Run(Load(), actions), t)
    ensures t in Run(Load(), actions).queue
    ensures !Run(Load(), actions).dataAvailable || WakeComing(Run(Load(), actions))
  {
    InvRun(Load(), actions);
    assert QueueInv(Run(Load(), actions), t);
  }

  // ---------- waiting ends ----------

  predicate Waits(s: System, tid: nat) {
    ThreadOf(s, tid) in {FirstTest, Enqueueing, Testing, LastTest, Scheduling, Asleep, Leaving}
  }

  /** Own steps a waiting reader needs until it consumes, once it need not sleep and data is there. */
  function StepsLeft(th: Thread): nat {
    match th
    case FirstTest => 1
    case Leaving => 1
    case LastTest => 1
    case Testing => 2
    case Enqueueing => 3
    case Scheduling => 4
    case Asleep => 4
    case _ => 0
  }

  lemma {:induction false} RunnableReaderConsumes(s: System, t: nat) returns (rest: seq<Action>)
    requires Waits(s, t) && s.dataAvailable && !Sleeps(s, t)
    ensures ThreadOf(Run(s, rest), t).Consuming?
    ensures |rest| <= StepsLeft(ThreadOf(s, t)) && forall a | a in rest :: a == Move(t, true)
    decreases StepsLeft(ThreadOf(s, t))
  {
    var a := Move(t, true);
    var s' := Step(s, a);
    var tail: seq<Action> := [];
    if ThreadOf(s', t).Consuming? {
      assert Run(s', []) == s';
    } else {
      tail := RunnableReaderConsumes(s', t);
    }
    rest := [a] + tail;
    assert rest[1..] == tail;
  }

  /** After any run, if data is available, a waiting reader gets to it in at most one step of a
      writer and four of its own. */
  lemma WaiterIsServed(actions: seq<Action>, t: nat) returns (rest: seq<Action>)
    requires Waits(Run(Load(), actions), t) && Run(Load(), actions).dataAvailable
    ensures ThreadOf(Run(Run(Load(), actions), rest), t).Consuming? && |rest| <= 5
  {
    var s := Run(Load(), actions);
    InvRun(Load(), actions);
    if Sleeps(s, t) {
      assert QueueInv(s, t);
      var w :| ThreadOf(s, w).Waking?;
      WakeReachesAll(s, w, true, t);
      var tail := RunnableReaderConsumes(Step(s, Move(w, true)), t);
      rest := [Move(w, true)] + tail;
      assert rest[1..] == tail;
    } else {
      rest := RunnableReaderConsumes(s, t);
    }
  }

  // ---------- data is consumed ----------

  /** No writer sets the flag during the run. */
  predicate NoFilling(s: System, actions: seq<Action>)
    decreases actions
  {
    actions == [] ||
    (!(actions[0].Move? && ThreadOf(s, actions[0].tid).Filling?) && NoFilling(Step(s, actions[0]), actions[1..]))
  }

  /** Has not seen data since its call began. */
  predicate Unserved(s: System, tid: nat) {
    ThreadOf(s, tid) !in {Leaving, Consuming}
  }

  /** Once a read has taken the data, nobody who had not already seen it gets any until another write
      sets the flag. */
  lemma {:induction false} NextReadWaits(s: System, actions: seq<Action>, t: nat)
    requires !s.dataAvailable && Unserved(s, t) && NoFilling(s, actions)
    ensures !Run(s, actions).dataAvailable && Unserved(Run(s, actions), t)
    decreases actions
  {
    if actions != [] {
      NextReadWaits(Step(s, actions[0]), actions[1..], t);
    }
  }

  lemma ConsumedOnce(s: System, r: nat, actions: seq<Action>, t: nat)
    requires ThreadOf(s, r).Consuming? && Unserved(Step(s, Move(r, true)), t)
    requires NoFilling(Step(s, Move(r, true)), actions)
    ensures Unserved(Run(Step(s, Move(r, true)), actions), t)
  {
    NextReadWaits(Step(s, Move(r, true)), actions, t);
  }
}
