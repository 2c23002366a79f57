/**
 Without the lock: over mathematical integers the final counter misses the expected value
 exactly when some worker's write landed between the other worker's read and its matching write.
 */
module SpinRace {
  import opened Common
  import opened SpinMachine

  // ---------- reads that still wait for their write ----------

  ghost predicate OpenAt(log: seq<Event>, id: Id, i: int) {
    && 0 <= i < |log|
    && log[i] == Loaded(id)
    && forall m | i < m < |log| :: log[m] != Stored(id)
  }

  ghost predicate HasOpen(log: seq<Event>, id: Id) {
    exists i :: OpenAt(log, id, i)
  }

  ghost predicate OverlapAt(log: seq<Event>, id: Id, i: int, j: int) {
    OpenAt(log, id, i) && i < j < |log| && log[j] == Stored(Other(id))
  }

  /** The other worker has written since a read of `id` that still waits for its write. */
  ghost predicate Overlapped(log: seq<Event>, id: Id) {
    exists i, j :: OverlapAt(log, id, i, j)
  }

  lemma OpenKept(log: seq<Event>, e: Event, id: Id, i: int)
    requires e != Stored(id)
    ensures OpenAt(log + [e], id, i) <==> OpenAt(log, id, i) || (i == |log| && e == Loaded(id))
  {
    var log' := log + [e];
    if OpenAt(log, id, i) {
      assert forall m | i < m < |log'| :: log'[m] != Stored(id);
    }
    if OpenAt(log', id, i) && i < |log| {
      assert forall m | i < m < |log| :: log[m] == log'[m];
    }
  }

  lemma OpenClosed(log: seq<Event>, id: Id)
    ensures !HasOpen(log + [Stored(id)], id)
  {
    assert (log + [Stored(id)])[|log|] == Stored(id);
  }

  lemma HasOpenKept(log: seq<Event>, e: Event, id: Id)
    requires e != Stored(id)
    ensures HasOpen(log + [e], id) <==> HasOpen(log, id) || e == Loaded(id)
  {
    forall i ensures OpenAt(log + [e], id, i) <==> OpenAt(log, id, i) || (i == |log| && e == Loaded(id)) {
      OpenKept(log, e, id, i);
    }
    assert OpenAt(log + [e], id, |log|) <==> e == Loaded(id) || OpenAt(log, id, |log|);
  }

  lemma OverlappedKept(log: seq<Event>, e: Event, id: Id)
    requires e != Stored(id)
    ensures Overlapped(log + [e], id) <==>
            Overlapped(log, id) || (e == Stored(Other(id)) && HasOpen(log, id))
  {
    var log' := log + [e];
    forall i ensures OpenAt(log', id, i) <==> OpenAt(log, id, i) || (i == |log| && e == Loaded(id)) {
      OpenKept(log, e, id, i);
    }
    if Overlapped(log, id) {
      var i, j :| OverlapAt(log, id, i, j);
      assert OverlapAt(log', id, i, j);
    }
    if e == Stored(Other(id)) && HasOpen(log, id) {
      var i :| OpenAt(log, id, i);
      assert OverlapAt(log', id, i, |log|);
    }
    if Overlapped(log', id) {
      var i, j :| OverlapAt(log', id, i, j);
      if j < |log| {
        assert OverlapAt(log, id, i, j);
      } else {
        assert OpenAt(log, id, i);
      }
    }
  }

  lemma OverlappedIsOpen(log: seq<Event>, id: Id)
    ensures Overlapped(log, id) ==> HasOpen(log, id)
  {
  }

  lemma RacedByLoad(log: seq<Event>, id: Id)
    ensures Raced(log + [Loaded(id)]) <==> Raced(log)
  {
    RacedMonotone(log, Loaded(id));
    if Raced(log + [Loaded(id)]) {
      var w, i, j, k :| RaceAt(log + [Loaded(id)], w, i, j, k);
      RacePrefix(log, Loaded(id), w, i, j, k);
    }
  }

  lemma RacePrefix(log: seq<Event>, e: Event, w: Id, i: int, j: int, k: int)
    requires RaceAt(log + [e], w, i, j, k) && k < |log|
    ensures RaceAt(log, w, i, j, k)
  {
    assert forall m | 0 <= m < |log| :: (log + [e])[m] == log[m];
  }

  lemma RacedMonotone(log: seq<Event>, e: Event)
    ensures Raced(log) ==> Raced(log + [e])
  {
    if Raced(log) {
      var w, i, j, k :| RaceAt(log, w, i, j, k);
      assert forall m | 0 <= m < |log| :: (log + [e])[m] == log[m];
      assert RaceAt(log + [e], w, i, j, k);
    }
  }

  /** A write makes a run racy exactly when its read was overtaken. */
  lemma RacedByStore(log: seq<Event>, id: Id)
    ensures Raced(log + [Stored(id)]) <==> Raced(log) || Overlapped(log, id)
  {
    var e := Stored(id);
    var log' := log + [e];
    RacedMonotone(log, e);
    if Overlapped(log, id) {
      var i, j :| OverlapAt(log, id, i, j);
      assert forall m | i < m < |log| :: log'[m] == log[m];
      assert RaceAt(log', id, i, j, |log|);
    }
    if Raced(log') {
      var w, i, j, k :| RaceAt(log', w, i, j, k);
      if k < |log| {
        RacePrefix(log, e, w, i, j, k);
      } else {
        assert forall m | i < m < |log| :: log[m] == log'[m];
        assert OpenAt(log, id, i);
        assert OverlapAt(log, id, i, j);
      }
    }
  }

  // ---------- the invariant that ties the counter to the accesses ----------

  predicate InFlight(w: Worker) {
    w.pc in {Increment, Store}
  }

  /** The value that a worker in flight has read. */
  function ValueRead(w: Worker): int {
    if w.pc == Store then w.temp - 1 else w.temp
  }

  ghost predicate WorkerRaceInv(s: State, log: seq<Event>, id: Id) {
    var w := Get(s, id);
    && (InFlight(w) <==> HasOpen(log, id))
    && (InFlight(w) ==>
          && 0 <= ValueRead(w)
          && (Completed(w) >= 1 ==> ValueRead(w) >= 1)
          && if Overlapped(log, id) then ValueRead(w) < Total(s) else ValueRead(w) == s.counter)
  }

  ghost predicate RaceInv(c: Config, s: State, log: seq<Event>) {
    && Inv(c, s)
    && s.counter <= Total(s)
    && (s.counter == Total(s) <==> !Raced(log))
    && (Total(s) >= 1 ==> s.counter >= 1)
    && (Completed(s.one) >= 2 && Completed(s.two) >= 2 ==> s.counter >= 2)
    && WorkerRaceInv(s, log, One)
    && WorkerRaceInv(s, log, Two)
  }

  lemma RaceLoad(c: Config, s: State, log: seq<Event>, id: Id)
    requires RaceInv(c, s, log) && Get(s, id).pc == Load
    ensures RaceInv(c, WorkerStep(c, s, id), log + [Loaded(id)])
  {
    InvStep(c, s, Thread(id));
    RacedByLoad(log, id);
    HasOpenKept(log, Loaded(id), One);
    HasOpenKept(log, Loaded(id), Two);
    OverlappedKept(log, Loaded(id), One);
    OverlappedKept(log, Loaded(id), Two);
    OverlappedIsOpen(log, id);
  }

  lemma RaceStore(c: Config, s: State, log: seq<Event>, id: Id)
    requires RaceInv(c, s, log) && Get(s, id).pc == Store
    ensures RaceInv(c, WorkerStep(c, s, id), log + [Stored(id)])
  {
    InvStep(c, s, Thread(id));
    var o := Other(id);
    RacedByStore(log, id);
    OpenClosed(log, id);
    HasOpenKept(log, Stored(id), o);
    OverlappedKept(log, Stored(id), o);
  }

  lemma RaceInit(c: Config, s: State, log: seq<Event>, ok: bool)
    requires c.modulus == 0 && RaceInv(c, s, log)
    ensures RaceInv(c, InitStep(c, s, ok), log)
  {
    InvInitStep(c, s, ok);
    var t := InitStep(c, s, ok);
    InitLeavesWorkers(c, s, ok, One);
    InitLeavesWorkers(c, s, ok, Two);
    WorkerRaceKept(s, t, log, One);
    WorkerRaceKept(s, t, log, Two);
  }

  lemma InitLeavesWorkers(c: Config, s: State, ok: bool, id: Id)
    requires Inv(c, s)
    ensures var t := InitStep(c, s, ok);
      && t.counter == s.counter
      && Completed(Get(t, id)) == Completed(Get(s, id))
      && (InFlight(Get(t, id)) <==> InFlight(Get(s, id)))
      && (InFlight(Get(s, id)) ==> ValueRead(Get(t, id)) == ValueRead(Get(s, id)))
  {
  }

  /** Statements that do not touch the counter keep what is known of a worker. */
  lemma WorkerRaceKept(s: State, t: State, log: seq<Event>, id: Id)
    requires WorkerRaceInv(s, log, id)
    requires t.counter == s.counter && Total(t) == Total(s)
    requires InFlight(Get(t, id)) <==> InFlight(Get(s, id))
    requires (InFlight(Get(s, id)) ==> ValueRead(Get(t, id)) == ValueRead(Get(s, id)))
    requires Completed(Get(t, id)) == Completed(Get(s, id))
    ensures WorkerRaceInv(t, log, id)
  {
  }

  lemma LocalStep(c: Config, s: State, id: Id)
    requires c.modulus == 0 && Get(s, id).pc !in {Load, Store}
    requires Get(s, id).pc == Next ==> Get(s, id).i < c.loops
    ensures var t := WorkerStep(c, s, id);
      && t.counter == s.counter
      && Get(t, Other(id)) == Get(s, Other(id))
      && Completed(Get(t, id)) == Completed(Get(s, id))
      && (InFlight(Get(t, id)) <==> InFlight(Get(s, id)))
      && (InFlight(Get(s, id)) ==> ValueRead(Get(t, id)) == ValueRead(Get(s, id)))
  {
  }

  lemma RaceLocal(c: Config, s: State, t: State, log: seq<Event>, id: Id)
    requires c.modulus == 0 && RaceInv(c, s, log) && Get(s, id).pc !in {Load, Store}
    requires t == WorkerStep(c, s, id) && Inv(c, t)
    ensures RaceInv(c, t, log)
  {
    LocalStep(c, s, id);
    WorkerRaceKept(s, t, log, One);
    WorkerRaceKept(s, t, log, Two);
  }

  lemma RaceStep(c: Config, s: State, log: seq<Event>, a: Actor)
    requires c.modulus == 0 && RaceInv(c, s, log)
    ensures RaceInv(c, Step(c, s, a), log + EventOf(s, a))
  {
    if a.Thread? && Get(s, a.id).pc == Load {
      RaceLoad(c, s, log, a.id);
    } else if a.Thread? && Get(s, a.id).pc == Store {
      RaceStore(c, s, log, a.id);
    } else {
      if a.Init? {
        RaceInit(c, s, log, a.ok);
      } else {
        InvStep(c, s, a);
        RaceLocal(c, s, Step(c, s, a), log, a.id);
      }
      assert log + [] == log;
    }
  }

  lemma {:induction false} RaceRun(c: Config, s: State, log: seq<Event>, schedule: seq<Actor>)
    requires c.modulus == 0 && RaceInv(c, s, log)
    ensures RaceInv(c, Run(c, s, schedule), log + Accesses(c, s, schedule))
    decreases schedule
  {
    if schedule == [] {
      assert log + [] == log;
    } else {
      var s' := Step(c, s, schedule[0]);
      var e := EventOf(s, schedule[0]);
      RaceStep(c, s, log, schedule[0]);
      Assoc(log, e, Accesses(c, s', schedule[1..]));
      RaceRun(c, s', log + e, schedule[1..]);
    }
  }

  lemma RaceBoot(c: Config, b: State, none: seq<Event>)
    requires b == Boot() && none == []
    ensures RaceInv(c, b, none)
  {
  }

  function Trace(c: Config, schedule: seq<Actor>): seq<Event> {
    Accesses(c, Boot(), schedule)
  }

  lemma FinishedRun(c: Config, s: State, log: seq<Event>)
    requires RaceInv(c, s, log) && s.init in {Judge, Returned}
    ensures Min(c.loops, 2) <= s.counter <= 2 * c.loops
    ensures s.counter == 2 * c.loops <==> !Raced(log)
  {
  }

  /** Any finished run over mathematical integers, in either mode: the counter is exact if and
      only if no read was overtaken, and it never drops below two, or one for a single loop. */
  lemma CounterExactIffNoRace(c: Config, schedule: seq<Actor>)
    requires c.modulus == 0
    requires Execute(c, schedule).init == Returned
    ensures Min(c.loops, 2) <= Execute(c, schedule).counter <= 2 * c.loops
    ensures Execute(c, schedule).counter == 2 * c.loops <==> !Raced(Trace(c, schedule))
  {
    var b, none: seq<Event> := Boot(), [];
    RaceBoot(c, b, none);
    RaceRun(c, b, none, schedule);
    var s, log := Run(c, b, schedule), none + Trace(c, schedule);
    FinishedRun(c, s, log);
    assert log == Trace(c, schedule);
  }
}
