/**
 What a whole call on the mailbox does while any other readers and writers are anywhere in theirs: a
 write sets the flag and wakes everybody, a read that finds data takes it, and failing calls leave the
 flag alone.
 */
module WaitQueueCalls {
  import opened WaitQueue

  lemma Run2(s: System, a: Action, b: Action)
    ensures Run(s, [a, b]) == Step(Step(s, a), b)
  {
    assert [a, b][1..] == [b];
    assert Run(Step(s, a), [b]) == Run(Step(Step(s, a), b), []);
  }

  lemma Run3(s: System, a: Action, b: Action, d: Action)
    ensures Run(s, [a, b, d]) == Step(Step(Step(s, a), b), d)
  {
    assert [a, b, d][1..] == [b, d];
    Run2(Step(s, a), b, d);
  }

  // ---------- writes ----------

  /** A write: the call, the copy with the setting of the flag, the wake-up. */
  function WholeWrite(w: nat): seq<Action> {
    [Write(w), Move(w, true), Move(w, true)]
  }

  /** In every state of a run, a write by an idle thread makes data available and leaves nobody asleep;
      no other thread has been moved on. */
  lemma WriteWakes(actions: seq<Action>, w: nat, t: nat)
    requires ThreadOf(Run(Load(), actions), w).Idle?
    ensures var s := Run(Load(), actions);
      var s' := Run(s, WholeWrite(w));
      && s'.dataAvailable && ThreadOf(s', w).Idle? && !Sleeps(s', t)
      && (t != w ==> ThreadOf(s', t) == ThreadOf(s, t))
  {
    var s := Run(Load(), actions);
    InvRun(Load(), actions);
    Run3(s, Write(w), Move(w, true), Move(w, true));
    InvStep(s, Write(w));
    InvStep(Step(s, Write(w)), Move(w, true));
    var s2 := Step(Step(s, Write(w)), Move(w, true));
    assert QueueInv(s2, t);
    WakeReachesAll(s2, w, true, t);
  }

  /** A write whose copy faults changes nothing for anybody. */
  lemma FaultingWrite(s: System, w: nat)
    requires ThreadOf(s, w).Idle?
    ensures Run(s, [Write(w), Move(w, false)]) == Return(s, w)
  {
    Run2(s, Write(w), Move(w, false));
  }

  // ---------- reads ----------

  /** A read is waiting as soon as it is called, and with data there it takes it, and only then clears
      the flag. */
  lemma ReadTakes(s: System, r: nat)
    requires ThreadOf(s, r).Idle?
    ensures Waits(Step(s, Read(r)), r) && Step(s, Read(r)).dataAvailable == s.dataAvailable
    ensures s.dataAvailable ==>
              Run(s, [Read(r), Move(r, true), Move(r, true)]) == Return(s, r).(dataAvailable := false)
  {
    Run3(s, Read(r), Move(r, true), Move(r, true));
  }

  lemma Run5(s: System, a: Action, b: Action, d: Action, e: Action, f: Action)
    ensures Run(s, [a, b, d, e, f]) == Step(Step(Step(Step(Step(s, a), b), d), e), f)
  {
    assert [a, b, d, e, f][1..] == [b, d, e, f];
    assert [b, d, e, f][1..] == [d, e, f];
    Run3(Step(Step(s, a), b), d, e, f);
  }

  /** Without data a reader goes to sleep on the queue, and stays there as long as nothing wakes it. */
  lemma ReadSleeps(s: System, r: nat, ok: bool)
    requires ThreadOf(s, r).Idle? && !s.dataAvailable && r !in s.signalled
    ensures var m := Move(r, true);
      var s' := Run(s, [Read(r), m, m, m, m]);
      && ThreadOf(s', r).Asleep? && Sleeps(s', r) && r in s'.queue
      && Step(s', Move(r, ok)) == s'
  {
    var m := Move(r, true);
    Run5(s, Read(r), m, m, m, m);
  }

  /** A read that has come to its copy clears the flag exactly when the copy succeeds. */
  lemma CopyDecides(s: System, r: nat, ok: bool)
    requires ThreadOf(s, r).Consuming?
    ensures Step(s, Move(r, ok)) == Return(s, r).(dataAvailable := !ok && s.dataAvailable)
  {
  }

  lemma {:induction false} RunConcat(s: System, x: seq<Action>, y: seq<Action>)
    ensures Run(s, x + y) == Run(Run(s, x), y)
    decreases x
  {
    if x == [] {
      assert x + y == y;
    } else {
      assert (x + y)[1..] == x[1..] + y;
      RunConcat(Step(s, x[0]), x[1..], y);
    }
  }

  /** One write serves a waiting reader, wherever it waits: a few moves of its own bring it to the data. */
  lemma WriteServes(actions: seq<Action>, r: nat, w: nat) returns (rest: seq<Action>)
    requires Waits(Run(Load(), actions), r) && ThreadOf(Run(Load(), actions), w).Idle?
    ensures |rest| <= 4 && forall a | a in rest :: a == Move(r, true)
    ensures ThreadOf(Run(Run(Load(), actions), WholeWrite(w) + rest), r).Consuming?
  {
    var s := Run(Load(), actions);
    WriteWakes(actions, w, r);
    rest := RunnableReaderConsumes(Run(s, WholeWrite(w)), r);
    RunConcat(s, WholeWrite(w), rest);
  }

  // ---------- signals ----------

  /** Only a reader between its enqueue and its dequeue is on the queue. */
  predicate OnQueueInv(s: System, t: nat) {
    t in s.queue ==> ThreadOf(s, t) in {Enqueueing, Testing, Scheduling, Asleep, Leaving}
  }

  /** No signal is pending for a thread outside its calls. */
  predicate SignalInv(s: System, t: nat) {
    ThreadOf(s, t).Idle? ==> t !in s.signalled
  }

  lemma OnQueueStep(s: System, a: Action, t: nat)
    requires OnQueueInv(s, t) && SignalInv(s, t)
    ensures OnQueueInv(Step(s, a), t) && SignalInv(Step(s, a), t)
  {
  }

  lemma {:induction false} OnQueueRun(s: System, actions: seq<Action>, t: nat)
    requires OnQueueInv(s, t) && SignalInv(s, t)
    ensures OnQueueInv(Run(s, actions), t) && SignalInv(Run(s, actions), t)
    decreases actions
  {
    if actions != [] {
      OnQueueStep(s, actions[0], t);
      OnQueueRun(Step(s, actions[0]), actions[1..], t);
    }
  }

  /** Own steps a signalled reader needs until its wait is over. */
  function StepsToEnd(th: Thread): nat {
    match th
    case Leaving => 1
    case LastTest => 1
    case Enqueueing => 2
    case FirstTest => 3
    case Scheduling => 3
    case Asleep => 3
    case Testing => 4
    case _ => 0
  }

  lemma {:induction false} WaitEnds(s: System, t: nat) returns (rest: seq<Action>)
    requires Waits(s, t) && t !in s.sleepable
    requires t in s.signalled
    ensures |rest| <= StepsToEnd(ThreadOf(s, t)) && forall a | a in rest :: a == Move(t, true)
    ensures var s' := Run(s, rest);
      && s'.dataAvailable == s.dataAvailable
      && ThreadOf(s', t) == if s.dataAvailable || ThreadOf(s, t).Leaving? then Consuming else Idle
    decreases StepsToEnd(ThreadOf(s, t))
  {
    var s' := Step(s, Move(t, true));
    if Waits(s', t) {
      rest := WaitEnds(s', t);
    } else {
      rest := [];
      assert Run(s', []) == s';
    }
    assert ([Move(t, true)] + rest)[1..] == rest;
    rest := [Move(t, true)] + rest;
  }

  /** A signal ends a wait: with data there, or already seen, the reader goes on to take it, and
      otherwise its call returns, the signal delivered; it is on no queue any more. */
  lemma SignalEndsWait(actions: seq<Action>, t: nat) returns (rest: seq<Action>)
    requires Waits(Run(Load(), actions), t)
    ensures |rest| <= 4 && forall a | a in rest :: a == Move(t, true)
    ensures var s := Run(Load(), actions);
      var s' := Run(Step(s, Signal(t)), rest);
      && s'.dataAvailable == s.dataAvailable
      && ThreadOf(s', t) == (if s.dataAvailable || ThreadOf(s, t).Leaving? then Consuming else Idle)
      && t !in s'.queue && t !in s'.sleepable && (ThreadOf(s', t).Idle? ==> t !in s'.signalled)
  {
    var s := Step(Run(Load(), actions), Signal(t));
    rest := WaitEnds(s, t);
    InvRun(Load(), actions);
    InvStep(Run(Load(), actions), Signal(t));
    InvRun(s, rest);
    OnQueueRun(Load(), actions, t);
    OnQueueStep(Run(Load(), actions), Signal(t), t);
    OnQueueRun(s, rest, t);
    assert QueueInv(Run(s, rest), t);
  }
}
