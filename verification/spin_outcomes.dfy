/**
 What the unlocked demonstration can print: every value between two (one for a single loop) and
 twice the loop count is reached by a schedule, and nothing else; and for which counter widths
 the module's final comparison detects every race.
 */
module SpinOutcomes {
  import opened Common
  import opened Modular
  import opened SpinMachine
  import opened SpinLocked
  import opened SpinRace
  import opened SpinSchedules

  function Unbounded(c: Config): Config {
    c.(modulus := 0)
  }

  // ---------- the machine word only reduces the mathematical counter ----------

  predicate WorkerReduced(c: Config, w: Worker, u: Worker) {
    w.pc == u.pc && w.i == u.i && w.temp == Wrap(c, u.temp)
  }

  predicate Reduced(c: Config, s: State, u: State) {
    && WorkerReduced(c, s.one, u.one)
    && WorkerReduced(c, s.two, u.two)
    && s.counter == Wrap(c, u.counter)
    && s == u.(one := s.one, two := s.two, counter := s.counter, verdict := s.verdict)
    && (s.init != Returned ==> s.verdict == u.verdict == Unjudged)
    && (s.init == Returned ==>
          s.verdict == if s.counter == Wrap(c, 2 * c.loops) then Correct else RaceDetected)
  }

  lemma ReducedWorkerStep(c: Config, s: State, u: State, id: Id)
    requires Inv(c, u) && Reduced(c, s, u) && Get(u, id).pc !in {Increment, Store}
    ensures Reduced(c, WorkerStep(c, s, id), WorkerStep(Unbounded(c), u, id))
  {
    if u.init == Returned {
      assert Get(u, id).pc == Finished;
    }
  }

  lemma ReducedUpdate(c: Config, s: State, u: State, id: Id)
    requires Inv(c, u) && Reduced(c, s, u) && Get(u, id).pc in {Increment, Store}
    ensures Reduced(c, WorkerStep(c, s, id), WorkerStep(Unbounded(c), u, id))
  {
    WrapSuccessor(c, Get(u, id).temp);
    assert u.init != Returned;
  }

  lemma ReducedStep(c: Config, s: State, u: State, a: Actor)
    requires Inv(c, u) && Reduced(c, s, u)
    ensures Reduced(c, Step(c, s, a), Step(Unbounded(c), u, a))
    ensures EventOf(s, a) == EventOf(u, a)
  {
    if a.Thread? {
      if Get(u, a.id).pc in {Increment, Store} {
        ReducedUpdate(c, s, u, a.id);
      } else {
        ReducedWorkerStep(c, s, u, a.id);
      }
    }
  }

  lemma InvIgnoresWidth(c: Config, u: State)
    ensures Inv(Unbounded(c), u) <==> Inv(c, u)
  {
  }

  lemma {:induction false} ReducedRun(c: Config, s: State, u: State, schedule: seq<Actor>)
    requires Inv(c, u) && Reduced(c, s, u)
    ensures Reduced(c, Run(c, s, schedule), Run(Unbounded(c), u, schedule))
    ensures Accesses(c, s, schedule) == Accesses(Unbounded(c), u, schedule)
    decreases schedule
  {
    if schedule != [] {
      var a := schedule[0];
      var s1, u1 := Step(c, s, a), Step(Unbounded(c), u, a);
      ReducedStep(c, s, u, a);
      InvIgnoresWidth(c, u);
      InvStep(Unbounded(c), u, a);
      InvIgnoresWidth(c, u1);
      ReducedRun(c, s1, u1, schedule[1..]);
    }
  }

  lemma WrapZero(c: Config)
    ensures Wrap(c, 0) == 0
  {
  }

  /** A run with a wrapping counter makes the same accesses as the run over mathematical
      integers, and ends with that run's counter reduced to the word. */
  lemma WrappedRun(c: Config, schedule: seq<Actor>)
    ensures Reduced(c, Execute(c, schedule), Execute(Unbounded(c), schedule))
    ensures Trace(c, schedule) == Trace(Unbounded(c), schedule)
  {
    WrapZero(c);
    ReducedRun(c, Boot(), Boot(), schedule);
  }

  // ---------- schedules ----------

  function Prologue(): seq<Actor> {
    [Init(true), Init(true), Init(true), Init(true), Init(true), Thread(One), Thread(Two)]
  }

  function Epilogue(): seq<Actor> {
    [Thread(One), Thread(One), Thread(Two), Thread(Two), Init(true), Init(true), Init(true)]
  }

  /** After the start signal, with both workers in their loops. */
  function Racing(one: Worker, two: Worker, counter: nat): State {
    State(one, two, counter, None, true, false, false, Await1, Unjudged)
  }

  /** `k` undisturbed iterations add `k`, whatever the other worker holds. */
  lemma {:induction false} Iterations(c: Config, s: State, id: Id, k: nat)
    requires c.modulus == 0 && !c.useLock
    requires Get(s, id).pc == Loop && Get(s, id).i + k <= c.loops
    ensures Run(c, s, Repeat(Iteration(id), k)) ==
            Put(s, id, Worker(Loop, Get(s, id).i + k, if k == 0 then Get(s, id).temp else s.counter + k))
               .(counter := s.counter + k)
    decreases k
  {
    if k > 0 {
      RunTurn(c, s, id);
      RunConcat(c, s, Iteration(id), Repeat(Iteration(id), k - 1));
      Iterations(c, Run(c, s, Iteration(id)), id, k - 1);
    }
  }

  lemma RunPrologue(c: Config)
    requires c.modulus == 0
    ensures Execute(c, Prologue()) == Racing(Worker(Loop, 0, 0), Worker(Loop, 0, 0), 0)
  {
  }

  lemma RunEpilogue(c: Config, one: Worker, two: Worker, counter: nat)
    requires c.modulus == 0
    requires one.pc == two.pc == Loop && one.i == two.i == c.loops
    ensures Run(c, Racing(one, two, counter), Epilogue()).init == Returned
    ensures Run(c, Racing(one, two, counter), Epilogue()).counter == counter
  {
  }

  /** Worker two runs `b` iterations; worker one reads and stalls while worker two goes on to its
      last iteration; one writes its stale value and runs `a` more; two reads and stalls while one
      finishes; two writes. */
  function Overtaking(c: Config, a: nat, b: nat): seq<Actor>
    requires a < c.loops && b < c.loops
  {
    Repeat(Iteration(Two), b) + ([Thread(One), Thread(One)]
    + (Repeat(Iteration(Two), c.loops - 1 - b) + ([Thread(One), Thread(One), Thread(One)]
    + (Repeat(Iteration(One), a) + ([Thread(Two), Thread(Two)]
    + (Repeat(Iteration(One), c.loops - 1 - a) + [Thread(Two), Thread(Two), Thread(Two)]))))))
  }

  lemma RunOvertaking(c: Config, a: nat, b: nat)
    requires c.modulus == 0 && !c.useLock && a < c.loops && b < c.loops
    ensures var s := Run(c, Racing(Worker(Loop, 0, 0), Worker(Loop, 0, 0), 0), Overtaking(c, a, b));
      && s == Racing(s.one, s.two, a + b + 2)
      && s.one.pc == s.two.pc == Loop && s.one.i == s.two.i == c.loops
  {
    var t1, t2 := Thread(One), Thread(Two);
    var x7 := [t2, t2, t2];
    var x6 := Repeat(Iteration(One), c.loops - 1 - a) + x7;
    var x5 := [t2, t2] + x6;
    var x4 := Repeat(Iteration(One), a) + x5;
    var x3 := [t1, t1, t1] + x4;
    var x2 := Repeat(Iteration(Two), c.loops - 1 - b) + x3;
    var x1 := [t1, t1] + x2;
    var s0 := Racing(Worker(Loop, 0, 0), Worker(Loop, 0, 0), 0);
    var s1 := AfterIterations(c, s0, Two, b, x1);
    RunConcat(c, s1, [t1, t1], x2);
    Step2(c, s1, t1, t1);
    var s2 := Run(c, s1, [t1, t1]);
    var s3 := AfterIterations(c, s2, Two, c.loops - 1 - b, x3);
    RunConcat(c, s3, [t1, t1, t1], x4);
    Step3(c, s3, t1, t1, t1);
    var s4 := Run(c, s3, [t1, t1, t1]);
    assert s4 == Racing(Worker(Loop, 1, b + 1), s4.two, b + 1);
    SecondHalf(c, a, s4);
  }

  /** The rest of a schedule after some undisturbed iterations. */
  lemma AfterIterations(c: Config, s: State, id: Id, k: nat, rest: seq<Actor>) returns (s': State)
    requires c.modulus == 0 && !c.useLock
    requires Get(s, id).pc == Loop && Get(s, id).i + k <= c.loops
    ensures Run(c, s, Repeat(Iteration(id), k) + rest) == Run(c, s', rest)
    ensures s' == Put(s, id, Get(s', id)).(counter := s.counter + k)
    ensures Get(s', id).pc == Loop && Get(s', id).i == Get(s, id).i + k
  {
    RunConcat(c, s, Repeat(Iteration(id), k), rest);
    Iterations(c, s, id, k);
    s' := Run(c, s, Repeat(Iteration(id), k));
  }

  lemma SecondHalf(c: Config, a: nat, s: State)
    requires c.modulus == 0 && !c.useLock && a < c.loops
    requires s == Racing(s.one, s.two, s.counter)
    requires s.one.pc == s.two.pc == Loop && s.one.i == 1 && s.two.i == c.loops - 1
    ensures var x := Repeat(Iteration(One), a) + ([Thread(Two), Thread(Two)]
                     + (Repeat(Iteration(One), c.loops - 1 - a) + [Thread(Two), Thread(Two), Thread(Two)]));
      var t := Run(c, s, x);
      && t == Racing(t.one, t.two, s.counter + a + 1)
      && t.one.pc == t.two.pc == Loop && t.one.i == t.two.i == c.loops
  {
    var t2 := Thread(Two);
    var x7 := [t2, t2, t2];
    var x6 := Repeat(Iteration(One), c.loops - 1 - a) + x7;
    var x5 := [t2, t2] + x6;
    var s5 := AfterIterations(c, s, One, a, x5);
    RunConcat(c, s5, [t2, t2], x6);
    Step2(c, s5, t2, t2);
    var s6 := Run(c, s5, [t2, t2]);
    var s7 := AfterIterations(c, s6, One, c.loops - 1 - a, x7);
    Step3(c, s7, t2, t2, t2);
  }

  /** With a single loop each: both read before either writes. */
  lemma RunSingleLoop(c: Config) returns (x: seq<Actor>)
    requires c.modulus == 0 && !c.useLock && c.loops == 1
    ensures var s := Run(c, Racing(Worker(Loop, 0, 0), Worker(Loop, 0, 0), 0), x);
      && s == Racing(s.one, s.two, 1)
      && s.one.pc == s.two.pc == Loop && s.one.i == s.two.i == 1
  {
    var t1, t2 := Thread(One), Thread(Two);
    var s := Racing(Worker(Loop, 0, 0), Worker(Loop, 0, 0), 0);
    x := [t1, t1] + ([t2, t2] + ([t1, t1, t1] + [t2, t2, t2]));
    RunConcat(c, s, [t1, t1], [t2, t2] + ([t1, t1, t1] + [t2, t2, t2]));
    Step2(c, s, t1, t1);
    var s1 := Run(c, s, [t1, t1]);
    RunConcat(c, s1, [t2, t2], [t1, t1, t1] + [t2, t2, t2]);
    Step2(c, s1, t2, t2);
    var s2 := Run(c, s1, [t2, t2]);
    RunConcat(c, s2, [t1, t1, t1], [t2, t2, t2]);
    Step3(c, s2, t1, t1, t1);
    Step3(c, Run(c, s2, [t1, t1, t1]), t2, t2, t2);
  }

  /** A middle part that leaves both loops finished extends to a whole run. */
  lemma WholeRun(c: Config, middle: seq<Actor>, v: nat)
    requires c.modulus == 0
    requires var s := Run(c, Racing(Worker(Loop, 0, 0), Worker(Loop, 0, 0), 0), middle);
      && s == Racing(s.one, s.two, v)
      && s.one.pc == s.two.pc == Loop && s.one.i == s.two.i == c.loops
    ensures Execute(c, Prologue() + (middle + Epilogue())).init == Returned
    ensures Execute(c, Prologue() + (middle + Epilogue())).counter == v
  {
    var b := Boot();
    RunPrologue(c);
    RunConcat(c, b, Prologue(), middle + Epilogue());
    var s0 := Run(c, b, Prologue());
    RunConcat(c, s0, middle, Epilogue());
    var s := Run(c, s0, middle);
    RunEpilogue(c, s.one, s.two, v);
  }

  lemma Reach(c: Config, v: nat) returns (schedule: seq<Actor>)
    requires c.modulus == 0 && !c.useLock && Min(c.loops, 2) <= v <= 2 * c.loops
    ensures Execute(c, schedule).init == Returned && Execute(c, schedule).counter == v
  {
    var middle: seq<Actor>;
    if c.loops == 0 {
      middle := [];
    } else if v == 1 {
      middle := RunSingleLoop(c);
    } else {
      var b := Min(v - 2, c.loops - 1);
      middle := Overtaking(c, v - 2 - b, b);
      RunOvertaking(c, v - 2 - b, b);
    }
    WholeRun(c, middle, v);
    schedule := Prologue() + (middle + Epilogue());
  }

  // ---------- the two characterisations ----------

  /** Some finished run ends with this counter. */
  ghost predicate Possible(c: Config, counter: nat) {
    exists x :: Execute(c, x).init == Returned && Execute(c, x).counter == counter
  }

  ghost predicate Outcome(c: Config, counter: nat, u: nat) {
    Min(c.loops, 2) <= u <= 2 * c.loops && counter == Wrap(c, u)
  }

  /** Without the lock the possible final counters are exactly the numbers from two (one for a
      single loop, zero for none) to twice the loop count, reduced to the machine word. */
  lemma UnlockedOutcomes(c: Config, counter: nat)
    requires !c.useLock
    ensures Possible(c, counter) <==> exists u :: Outcome(c, counter, u)
  {
    if Possible(c, counter) {
      var x :| Execute(c, x).init == Returned && Execute(c, x).counter == counter;
      WrappedRun(c, x);
      CounterExactIffNoRace(Unbounded(c), x);
      assert Outcome(c, counter, Execute(Unbounded(c), x).counter);
    }
    if u :| Outcome(c, counter, u) {
      var x := Reach(Unbounded(c), u);
      WrappedRun(c, x);
      assert Execute(c, x).init == Returned && Execute(c, x).counter == counter;
    }
  }

  /** The verdict says "correct" for exactly the race-free runs. */
  ghost predicate DetectorExact(c: Config) {
    forall x :: Execute(c, x).init == Returned ==>
      (Execute(c, x).verdict == Correct <==> !Raced(Trace(c, x)))
  }

  /** Numbers less than a word apart have different remainders. */
  lemma WrapSeparates(c: Config, u: nat, v: nat)
    requires u < v && (c.modulus == 0 || v - u < c.modulus)
    ensures Wrap(c, u) != Wrap(c, v)
  {
    if c.modulus != 0 && u % c.modulus == v % c.modulus {
      ModInjective(u, v, c.modulus);
    }
  }

  lemma DetectsOneRun(c: Config, x: seq<Actor>)
    requires c.useLock || c.modulus == 0 || 2 * c.loops < c.modulus + Min(c.loops, 2)
    requires Execute(c, x).init == Returned
    ensures Execute(c, x).verdict == Correct <==> !Raced(Trace(c, x))
  {
    WrappedRun(c, x);
    CounterExactIffNoRace(Unbounded(c), x);
    var f := Execute(Unbounded(c), x).counter;
    if c.useLock {
      LockedRun(c, x);
      LockedRun(Unbounded(c), x);
      InvRun(Unbounded(c), Boot(), x);
    } else if f < 2 * c.loops {
      WrapSeparates(c, f, 2 * c.loops);
    }
  }

  /** The final comparison detects every race, and reports none that did not happen, exactly when
      the lock is on or the largest possible loss is less than a whole counter word. */
  lemma RaceDetectorExact(c: Config)
    ensures DetectorExact(c) <==>
            c.useLock || c.modulus == 0 || 2 * c.loops < c.modulus + Min(c.loops, 2)
  {
    if c.useLock || c.modulus == 0 || 2 * c.loops < c.modulus + Min(c.loops, 2) {
      forall x | Execute(c, x).init == Returned
        ensures Execute(c, x).verdict == Correct <==> !Raced(Trace(c, x))
      {
        DetectsOneRun(c, x);
      }
    } else {
      var v := 2 * c.loops - c.modulus;
      var x := Reach(Unbounded(c), v);
      WrappedRun(c, x);
      CounterExactIffNoRace(Unbounded(c), x);
      ModShift(v, 1, c.modulus);
      assert Execute(c, x).verdict == Correct && Raced(Trace(c, x));
    }
  }
}
