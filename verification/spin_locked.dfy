/** With the lock: mutual exclusion, a counter that is the sum of the completed increments,
    and a verdict that is always "correct". In both modes: the demonstration always progresses
    and always ends. */
module SpinLocked {
  import opened Common
  import opened Modular
  import opened SpinMachine

  /** While nobody stores, the counter is the number of completed increments; a worker between
      its load and its store holds that number, or its successor. */
  predicate CounterInv(c: Config, s: State) {
    && s.counter == Wrap(c, Total(s))
    && HeldInv(c, s, s.one)
    && HeldInv(c, s, s.two)
  }

  predicate HeldInv(c: Config, s: State, w: Worker) {
    && (w.pc == Increment ==> w.temp == s.counter)
    && (w.pc == Store ==> w.temp == Wrap(c, Total(s) + 1))
  }

  lemma WrapSuccessor(c: Config, x: nat)
    ensures Wrap(c, Wrap(c, x) + 1) == Wrap(c, x + 1)
  {
    if c.modulus != 0 {
      ModAdd(x, 1, c.modulus);
    }
  }

  predicate LockedInv(c: Config, s: State) {
    Inv(c, s) && CounterInv(c, s) && s.verdict != RaceDetected
  }

  lemma LockedBoot(c: Config)
    ensures LockedInv(c, Boot())
  {
    assert Wrap(c, 0) == 0;
  }

  lemma LockedStep(c: Config, s: State, a: Actor)
    requires c.useLock && LockedInv(c, s)
    ensures LockedInv(c, Step(c, s, a))
  {
    InvStep(c, s, a);
    if a.Thread? {
      LockedWorkerStep(c, s, a.id);
    }
  }

  lemma TotalStep(c: Config, s: State, id: Id)
    requires WorkerInv(c, s, id)
    ensures var t := WorkerStep(c, s, id);
      && Get(t, Other(id)) == Get(s, Other(id))
      && Total(t) == Total(s) + (if Get(s, id).pc == Store then 1 else 0)
      && t.counter == if Get(s, id).pc == Store then Get(s, id).temp else s.counter
  {
  }

  lemma LockedWorkerStep(c: Config, s: State, id: Id)
    requires c.useLock && LockedInv(c, s)
    ensures CounterInv(c, WorkerStep(c, s, id))
  {
    WrapSuccessor(c, Total(s));
    TotalStep(c, s, id);
    var t := WorkerStep(c, s, id);
    var w := Get(s, id);
    assert InCritical(w) ==> !InCritical(Get(s, Other(id)));
    assert HeldInv(c, t, Get(t, id));
    assert HeldInv(c, t, Get(t, Other(id)));
  }

  lemma {:induction false} LockedInvRun(c: Config, s: State, schedule: seq<Actor>)
    requires c.useLock && LockedInv(c, s)
    ensures LockedInv(c, Run(c, s, schedule))
    decreases schedule
  {
    if schedule != [] {
      LockedStep(c, s, schedule[0]);
      LockedInvRun(c, Step(c, s, schedule[0]), schedule[1..]);
    }
  }

  /** What a reader of the module is promised of a locked state. */
  predicate LockedPromise(c: Config, s: State) {
    && !(InCritical(s.one) && InCritical(s.two))
    && s.counter == Wrap(c, Completed(s.one) + Completed(s.two))
    && (s.init == Returned ==> s.verdict == Correct)
  }

  /** Every run of the locked demonstration, under every schedule and every counter width. */
  lemma LockedRun(c: Config, schedule: seq<Actor>)
    requires c.useLock
    ensures LockedPromise(c, Execute(c, schedule))
  {
    LockedBoot(c);
    LockedInvRun(c, Boot(), schedule);
  }

  /** In either mode: before the start signal nobody has touched the counter. */
  lemma {:induction false} NothingBeforeStart(c: Config, s: State, schedule: seq<Actor>)
    requires Inv(c, s)
    requires !Run(c, s, schedule).started
    ensures Accesses(c, s, schedule) == [] && Total(Run(c, s, schedule)) == 0
    decreases schedule
  {
    if schedule == [] {
    } else {
      InvStep(c, s, schedule[0]);
      NothingBeforeStart(c, Step(c, s, schedule[0]), schedule[1..]);
      StartedStays(c, Step(c, s, schedule[0]), schedule[1..]);
    }
  }

  lemma {:induction false} StartedStays(c: Config, s: State, schedule: seq<Actor>)
    ensures s.started ==> Run(c, s, schedule).started
    decreases schedule
  {
    if schedule != [] {
      StartedStays(c, Step(c, s, schedule[0]), schedule[1..]);
    }
  }

  // ---------- a failed creation ----------

  lemma {:induction false} NoAccessNoChange(c: Config, s: State, schedule: seq<Actor>)
    requires Accesses(c, s, schedule) == []
    ensures Run(c, s, schedule).counter == s.counter
    decreases schedule
  {
    if schedule != [] {
      NoAccessNoChange(c, Step(c, s, schedule[0]), schedule[1..]);
    }
  }

  lemma {:induction false} FailedStays(c: Config, s: State, schedule: seq<Actor>)
    requires s.init == Failed
    ensures Run(c, s, schedule).init == Failed
    decreases schedule
  {
    if schedule != [] {
      FailedStays(c, Step(c, s, schedule[0]), schedule[1..]);
    }
  }

  /** Init fails exactly when a creation it comes to does. From then on, whatever anybody tries, it never
      wakes a thread, never gives the start signal and never judges, and the counter stays zero. */
  lemma FailedCreation(c: Config, schedule: seq<Actor>, ok: bool, rest: seq<Actor>)
    requires Execute(c, schedule).init in {Create1, Create2}
    ensures var s := Step(c, Execute(c, schedule), Init(ok));
      && (s.init == Failed <==> !ok)
      && (!ok ==>
            var t := Run(c, s, rest);
            && t.init == Failed && t.verdict == Unjudged && !t.started
            && t.one.pc == Asleep && t.two.pc == Asleep
            && t.counter == 0 && Accesses(c, s, rest) == [])
  {
    var s0 := Execute(c, schedule);
    var s := Step(c, s0, Init(ok));
    InvRun(c, Boot(), schedule);
    InvStep(c, s0, Init(ok));
    NothingBeforeStart(c, Boot(), schedule);
    NoAccessNoChange(c, Boot(), schedule);
    if !ok {
      FailedStays(c, s, rest);
      InvRun(c, s, rest);
      NothingBeforeStart(c, s, rest);
      NoAccessNoChange(c, s, rest);
    }
  }

  // ---------- progress and termination ----------

  /** Init has returned, with a verdict or with an error. */
  predicate Done(s: State) {
    s.init in {Returned, Failed}
  }

  /** A step that waits or spins changes nothing; every other step is a move. */
  predicate Moves(c: Config, s: State, a: Actor) {
    Step(c, s, a) != s
  }

  function WorkerRank(c: Config, w: Worker): int {
    var left := 8 * (c.loops - w.i);
    match w.pc
    case Asleep => left + 6
    case Waiting => left + 5
    case Loop => left + 4
    case Lock => left + 3
    case Load => left + 2
    case Increment => left + 1
    case Store => left
    case Unlock => left - 1
    case Next => left - 2
    case Signal => 1
    case Finished => 0
  }

  function InitRank(pc: InitPc): nat {
    match pc
    case Create1 => 8
    case Create2 => 7
    case Wake1 => 6
    case Wake2 => 5
    case Start => 4
    case Await1 => 3
    case Await2 => 2
    case Judge => 1
    case Returned => 0
    case Failed => 0
  }

  function Rank(c: Config, s: State): int {
    WorkerRank(c, s.one) + WorkerRank(c, s.two) + InitRank(s.init)
  }

  lemma WorkerRankFalls(c: Config, s: State, id: Id)
    requires WorkerInv(c, s, id)
    ensures WorkerRank(c, Get(s, id)) >= 0
    ensures var t := WorkerStep(c, s, id);
      && Get(t, Other(id)) == Get(s, Other(id)) && t.init == s.init
      && (t == s || WorkerRank(c, Get(t, id)) < WorkerRank(c, Get(s, id)))
  {
  }

  lemma RankFalls(c: Config, s: State, a: Actor)
    requires Inv(c, s)
    ensures Rank(c, s) >= 0
    ensures Moves(c, s, a) ==> Rank(c, Step(c, s, a)) < Rank(c, s)
  {
    WorkerRankFalls(c, s, One);
    WorkerRankFalls(c, s, Two);
  }

  /** Somebody who can move in an unfinished state. */
  function Mover(c: Config, s: State): Actor {
    if (s.init == Await1 && !s.done1) || (s.init == Await2 && !s.done2) then
      var id := if s.init == Await1 then One else Two;
      Thread(if Get(s, id).pc == Lock && s.owner != None then s.owner.value else id)
    else Init(true)
  }

  lemma MoverMoves(c: Config, s: State)
    requires Inv(c, s) && !Done(s)
    ensures Moves(c, s, Mover(c, s))
  {
  }

  /** How many steps of a run are moves. */
  function MoveCount(c: Config, s: State, schedule: seq<Actor>): nat
    decreases schedule
  {
    if schedule == [] then 0
    else (if Moves(c, s, schedule[0]) then 1 else 0)
         + MoveCount(c, Step(c, s, schedule[0]), schedule[1..])
  }

  lemma {:induction false} MovesBounded(c: Config, s: State, schedule: seq<Actor>)
    requires Inv(c, s)
    ensures MoveCount(c, s, schedule) + Rank(c, Run(c, s, schedule)) <= Rank(c, s)
    decreases schedule
  {
    if schedule != [] {
      RankFalls(c, s, schedule[0]);
      InvStep(c, s, schedule[0]);
      MovesBounded(c, Step(c, s, schedule[0]), schedule[1..]);
    }
  }

  /** No deadlock, no livelock: after any run somebody can move unless init has returned, and
      the moves of any run are bounded by the loop counts alone. */
  lemma ProgressAndTermination(c: Config, schedule: seq<Actor>)
    ensures !Done(Execute(c, schedule)) ==> exists a :: Moves(c, Execute(c, schedule), a)
    ensures MoveCount(c, Boot(), schedule) <= 16 * c.loops + 20
  {
    InvRun(c, Boot(), schedule);
    MovesBounded(c, Boot(), schedule);
    RankFalls(c, Execute(c, schedule), Init(true));
    if !Done(Execute(c, schedule)) {
      MoverMoves(c, Execute(c, schedule));
    }
  }

  /** Every run can be continued to a finished one. */
  lemma {:induction false} CanFinish(c: Config, s: State) returns (rest: seq<Actor>)
    requires Inv(c, s)
    ensures Done(Run(c, s, rest))
    decreases Rank(c, s)
  {
    if Done(s) {
      rest := [];
    } else {
      var a := Mover(c, s);
      MoverMoves(c, s);
      RankFalls(c, s, a);
      InvStep(c, s, a);
      RankFalls(c, Step(c, s, a), a);
      var tail := CanFinish(c, Step(c, s, a));
      rest := [a] + tail;
      assert rest[1..] == tail;
    }
  }
}
