/**
 The worker function in its own form, a counted loop over shared fields. Run without interruption
 it is one particular schedule of the interleaving machine, which ties the machine's steps to the
 statements of the loop.
 */
module SpinDemo {
  import opened Common
  import opened SpinMachine
  import opened SpinLocked
  import opened SpinSchedules

  /** Leaving the barrier, all iterations, the failing loop test and the completion. */
  function Solo(c: Config, id: Id): seq<Actor> {
    [Thread(id)] + (Repeat(Turn(c, id), c.loops) + [Thread(id), Thread(id)])
  }

  lemma {:induction false} RepeatLast(x: seq<Actor>, k: nat)
    ensures Repeat(x, k + 1) == Repeat(x, k) + x
    decreases k
  {
    if k == 0 {
      assert x + [] == [] + x;
    } else {
      RepeatLast(x, k - 1);
      assert x + (Repeat(x, k - 1) + x) == (x + Repeat(x, k - 1)) + x;
    }
  }

  /** The state after `i` undisturbed iterations from the barrier. */
  function AfterTurns(c: Config, s: State, id: Id, i: nat): State {
    Run(c, Step(c, s, Thread(id)), Repeat(Turn(c, id), i))
  }

  function Looping(s: State, id: Id, i: nat, temp: nat, counter: nat): State {
    Put(s, id, Worker(Loop, i, temp)).(counter := counter)
  }

  lemma NextTurn(c: Config, s: State, id: Id, i: nat, temp: nat, counter: nat)
    requires AfterTurns(c, s, id, i) == Looping(s, id, i, temp, counter)
    requires i < c.loops && s.owner == None
    ensures var v := Wrap(c, counter + 1);
      AfterTurns(c, s, id, i + 1) == Looping(s, id, i + 1, v, v)
  {
    RepeatLast(Turn(c, id), i);
    RunConcat(c, Step(c, s, Thread(id)), Repeat(Turn(c, id), i), Turn(c, id));
    RunTurn(c, Looping(s, id, i, temp, counter), id);
  }

  function Ended(s: State, id: Id, loops: nat, temp: nat, counter: nat): State {
    var t := Put(s, id, Worker(Finished, loops, temp)).(counter := counter);
    if id == One then t.(done1 := true) else t.(done2 := true)
  }

  lemma SoloEnds(c: Config, s: State, id: Id, temp: nat, counter: nat)
    requires AfterTurns(c, s, id, c.loops) == Looping(s, id, c.loops, temp, counter)
    ensures Run(c, s, Solo(c, id)) == Ended(s, id, c.loops, temp, counter)
  {
    var t := Thread(id);
    var turns := Repeat(Turn(c, id), c.loops);
    RunConcat(c, s, [t], turns + [t, t]);
    Run1(c, s, t);
    RunConcat(c, Step(c, s, t), turns, [t, t]);
    Step2(c, Looping(s, id, c.loops, temp, counter), t, t);
  }

  class Demo {
    const config: Config
    var sharedCounter: nat
    var counterLock: Option<Id>
    var startSignal: bool
    var doneThread1: bool
    var doneThread2: bool
    var thread1: Worker
    var thread2: Worker
    var init: InitPc
    var verdict: Verdict

    function Abs(): State
      reads this
    {
      State(thread1, thread2, sharedCounter, counterLock, startSignal, doneThread1, doneThread2, init, verdict)
    }

    /** The worker function of one thread, running from the barrier to its end while nobody else
        moves: it adds the loop count to the counter, and is the machine's solo schedule. */
    method WorkerFunction(id: Id)
      requires startSignal && Get(Abs(), id) == Worker(Waiting, 0, Get(Abs(), id).temp)
      requires counterLock == None
      requires sharedCounter == Wrap(config, sharedCounter)
      modifies this
      ensures sharedCounter == Wrap(config, old(sharedCounter) + config.loops)
      ensures Abs() == Run(config, old(Abs()), Solo(config, id))
      ensures counterLock == None && Get(Abs(), Other(id)) == old(Get(Abs(), Other(id)))
    {
      var i, temp := 0, Get(Abs(), id).temp;
      ghost var before := Abs();
      while i < config.loops
        invariant i <= config.loops
        invariant Abs() == before.(counter := sharedCounter)
        invariant sharedCounter == Wrap(config, before.counter + i)
        invariant AfterTurns(config, before, id, i) == Looping(before, id, i, temp, sharedCounter)
      {
        NextTurn(config, before, id, i, temp, sharedCounter);
        WrapSuccessor(config, before.counter + i);
        temp := Bump(id);
        i := i + 1;
      }
      SoloEnds(config, before, id, temp, sharedCounter);
      if id == One {
        thread1, doneThread1 := Worker(Finished, i, temp), true;
      } else {
        thread2, doneThread2 := Worker(Finished, i, temp), true;
      }
    }

    /** The loop body: a counter update under the lock, or the split update without it. */
    method Bump(id: Id) returns (temp: nat)
      requires counterLock == None
      modifies this`sharedCounter, this`counterLock
      ensures temp == sharedCounter == Wrap(config, old(sharedCounter) + 1)
      ensures counterLock == None
    {
      if config.useLock {
        counterLock := Some(id);
        temp := sharedCounter;
        temp := Wrap(config, temp + 1);
        sharedCounter := temp;
        counterLock := None;
      } else {
        temp := sharedCounter;
        temp := Wrap(config, temp + 1);
        sharedCounter := temp;
      }
    }
  }
}
