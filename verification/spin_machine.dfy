/**
 The two-worker shared counter of the spinlock demonstration, as an interleaving
 machine: one step is one shared-memory access, one synchronisation call or one
 local statement of a worker or of the module's init routine.
 */
module SpinMachine {
  import opened Common

  /** The two kernel threads, by the number init passes to each. */
  datatype Id = One | Two

  /** Where a worker is. `Load`, `Increment` and `Store` are the three parts of one
      counter update; with the lock they sit between `Lock` and `Unlock`. */
  datatype Pc =
    | Asleep | Waiting | Loop | Lock | Load | Increment | Store | Unlock | Next | Signal | Finished

  /** `temp` is the local of the unlocked branch and the register of `shared_counter++`. */
  datatype Worker = Worker(pc: Pc, i: nat, temp: nat)

  datatype InitPc =
    | Create1 | Create2 | Wake1 | Wake2 | Start | Await1 | Await2 | Judge | Returned | Failed

  datatype Verdict = Unjudged | Correct | RaceDetected

  /** Module parameters, with the number of values of `unsigned long`; modulus 0 stands for
      mathematical integers. */
  datatype Config = Config(loops: nat, useLock: bool, modulus: nat)

  datatype State = State(
    one: Worker, two: Worker, counter: nat, owner: Option<Id>,
    started: bool, done1: bool, done2: bool, init: InitPc, verdict: Verdict)

  /** Who moves. `ok` is the outcome of `kthread_create` and matters to no other call. */
  datatype Actor = Init(ok: bool) | Thread(id: Id)

  function Wrap(c: Config, x: nat): nat {
    if c.modulus == 0 then x else x % c.modulus
  }

  function Other(id: Id): Id {
    if id == One then Two else One
  }

  function Get(s: State, id: Id): Worker {
    if id == One then s.one else s.two
  }

  function Put(s: State, id: Id, w: Worker): State {
    if id == One then s.(one := w) else s.(two := w)
  }

  function Boot(): State {
    State(Worker(Asleep, 0, 0), Worker(Asleep, 0, 0), 0, None, false, false, false, Create1, Unjudged)
  }

  /** A step of a worker; a worker that must wait or spin leaves the state as it is. */
  function WorkerStep(c: Config, s: State, id: Id): State {
    var w := Get(s, id);
    match w.pc
    case Asleep => s
    case Waiting => if s.started then Put(s, id, w.(pc := Loop)) else s
    case Loop =>
      Put(s, id, w.(pc := if w.i < c.loops then (if c.useLock then Lock else Load) else Signal))
    case Lock => if s.owner == None then Put(s, id, w.(pc := Load)).(owner := Some(id)) else s
    case Load => Put(s, id, w.(pc := Increment, temp := s.counter))
    case Increment => Put(s, id, w.(pc := Store, temp := Wrap(c, w.temp + 1)))
    case Store => Put(s, id, w.(pc := if c.useLock then Unlock else Next)).(counter := w.temp)
    case Unlock => Put(s, id, w.(pc := Next)).(owner := None)
    case Next => Put(s, id, w.(pc := Loop, i := w.i + 1))
    case Signal =>
      var s' := Put(s, id, w.(pc := Finished));
      if id == One then s'.(done1 := true) else s'.(done2 := true)
    case Finished => s
  }

  /** A step of the init routine. A failed creation returns at once and leaves any thread
      already created asleep. */
  function InitStep(c: Config, s: State, ok: bool): State {
    match s.init
    case Create1 => s.(init := if ok then Create2 else Failed)
    case Create2 => s.(init := if ok then Wake1 else Failed)
    case Wake1 => s.(init := Wake2, one := s.one.(pc := Waiting))
    case Wake2 => s.(init := Start, two := s.two.(pc := Waiting))
    case Start => s.(init := Await1, started := true)
    case Await1 => if s.done1 then s.(init := Await2) else s
    case Await2 => if s.done2 then s.(init := Judge) else s
    case Judge =>
      s.(init := Returned,
         verdict := if s.counter == Wrap(c, 2 * c.loops) then Correct else RaceDetected)
    case Returned => s
    case Failed => s
  }

  function Step(c: Config, s: State, a: Actor): State {
    match a
    case Init(ok) => InitStep(c, s, ok)
    case Thread(id) => WorkerStep(c, s, id)
  }

  /** The state after the actors of `schedule` have moved in turn. */
  function Run(c: Config, s: State, schedule: seq<Actor>): State
    decreases schedule
  {
    if schedule == [] then s else Run(c, Step(c, s, schedule[0]), schedule[1..])
  }

  function Execute(c: Config, schedule: seq<Actor>): State {
    Run(c, Boot(), schedule)
  }

  lemma {:induction false} RunConcat(c: Config, s: State, x: seq<Actor>, y: seq<Actor>)
    ensures Run(c, s, x + y) == Run(c, Run(c, s, x), y)
    decreases x
  {
    if x == [] {
      assert x + y == y;
    } else {
      assert (x + y)[1..] == x[1..] + y;
      RunConcat(c, Step(c, s, x[0]), x[1..], y);
    }
  }

  // ---------- accesses to the shared counter ----------

  datatype Event = Loaded(id: Id) | Stored(id: Id)

  function EventOf(s: State, a: Actor): seq<Event> {
    if a.Init? then []
    else match Get(s, a.id).pc
      case Load => [Loaded(a.id)]
      case Store => [Stored(a.id)]
      case _ => []
  }

  /** The reads and writes of the shared counter that a run performs, in order. */
  function Accesses(c: Config, s: State, schedule: seq<Actor>): seq<Event>
    decreases schedule
  {
    if schedule == [] then []
    else EventOf(s, schedule[0]) + Accesses(c, Step(c, s, schedule[0]), schedule[1..])
  }

  /** Event `j` is a write of the other worker between the read at `i` and its matching write at `k`. */
  ghost predicate RaceAt(log: seq<Event>, id: Id, i: int, j: int, k: int) {
    && 0 <= i < j < k < |log|
    && log[i] == Loaded(id) && log[j] == Stored(Other(id)) && log[k] == Stored(id)
    && forall m | i < m < k :: log[m] != Stored(id)
  }

  ghost predicate Raced(log: seq<Event>) {
    exists id, i, j, k :: RaceAt(log, id, i, j, k)
  }

  // ---------- control invariant ----------

  /** Between taking the lock and releasing it. */
  predicate InCritical(w: Worker) {
    w.pc in {Load, Increment, Store, Unlock}
  }

  /** Increments whose store is done. */
  function Completed(w: Worker): nat {
    w.i + if w.pc in {Unlock, Next} then 1 else 0
  }

  function Total(s: State): nat {
    Completed(s.one) + Completed(s.two)
  }

  predicate WorkerInv(c: Config, s: State, id: Id) {
    var w := Get(s, id);
    && w.i <= c.loops
    && (w.pc in {Lock, Load, Increment, Store, Unlock, Next} ==> w.i < c.loops)
    && (w.pc in {Signal, Finished} ==> w.i == c.loops)
    && (w.pc in {Lock, Unlock} ==> c.useLock)
    && (s.owner == Some(id) <==> c.useLock && InCritical(w))
    && (!s.started ==> w.pc in {Asleep, Waiting})
    && (w.pc in {Asleep, Waiting} ==> w.i == 0)
    && ((if id == One then s.done1 else s.done2) <==> w.pc == Finished)
  }

  predicate Inv(c: Config, s: State) {
    && WorkerInv(c, s, One)
    && WorkerInv(c, s, Two)
    && (s.started <==> s.init in {Await1, Await2, Judge, Returned})
    && (s.one.pc == Asleep <==> s.init in {Create1, Create2, Wake1, Failed})
    && (s.two.pc == Asleep <==> s.init in {Create1, Create2, Wake1, Wake2, Failed})
    && (s.init in {Await2, Judge, Returned} ==> s.done1)
    && (s.init in {Judge, Returned} ==> s.done2)
    && (s.init == Returned <==> s.verdict != Unjudged)
  }

  lemma OtherStep(c: Config, s: State, id: Id)
    requires WorkerInv(c, s, id) && WorkerInv(c, s, Other(id))
    ensures WorkerInv(c, WorkerStep(c, s, id), Other(id))
  {
  }

  lemma InvWorkerStep(c: Config, s: State, id: Id)
    requires Inv(c, s)
    ensures Inv(c, WorkerStep(c, s, id))
  {
    OtherStep(c, s, id);
    var t := WorkerStep(c, s, id);
    assert t.init == s.init && t.started == s.started && t.verdict == s.verdict;
    assert Get(t, id).pc == Asleep <==> Get(s, id).pc == Asleep;
    assert Get(t, Other(id)) == Get(s, Other(id));
  }

  lemma InvInitStep(c: Config, s: State, ok: bool)
    requires Inv(c, s)
    ensures Inv(c, InitStep(c, s, ok))
  {
  }

  lemma InvStep(c: Config, s: State, a: Actor)
    requires Inv(c, s)
    ensures Inv(c, Step(c, s, a))
  {
    match a
    case Init(ok) => InvInitStep(c, s, ok);
    case Thread(id) => InvWorkerStep(c, s, id);
  }

  lemma {:induction false} InvRun(c: Config, s: State, schedule: seq<Actor>)
    requires Inv(c, s)
    ensures Inv(c, Run(c, s, schedule))
    decreases schedule
  {
    if schedule != [] {
      InvStep(c, s, schedule[0]);
      InvRun(c, Step(c, s, schedule[0]), schedule[1..]);
    }
  }
}
