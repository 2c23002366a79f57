/** Schedules in which one worker runs undisturbed for a while. */
module SpinSchedules {
  import opened Common
  import opened SpinMachine

  /** One undisturbed iteration of the unlocked loop. */
  function Iteration(id: Id): seq<Actor> {
    [Thread(id), Thread(id), Thread(id), Thread(id), Thread(id)]
  }

  /** The steps of one iteration of the loop. */
  function Turn(c: Config, id: Id): seq<Actor> {
    if c.useLock then [Thread(id), Thread(id)] + Iteration(id) else Iteration(id)
  }

  lemma Step2(c: Config, s: State, a: Actor, b: Actor)
    ensures Run(c, s, [a, b]) == Step(c, Step(c, s, a), b)
  {
    assert [a, b][1..] == [b];
    assert [b][1..] == [];
    assert Run(c, Step(c, s, a), [b]) == Run(c, Step(c, Step(c, s, a), b), []);
  }

  lemma Step3(c: Config, s: State, a: Actor, b: Actor, d: Actor)
    ensures Run(c, s, [a, b, d]) == Step(c, Step(c, Step(c, s, a), b), d)
  {
    assert [a, b, d][1..] == [b, d];
    Step2(c, Step(c, s, a), b, d);
  }

  lemma Run1(c: Config, s: State, a: Actor)
    ensures Run(c, s, [a]) == Step(c, s, a)
  {
  }

  /** The steps from the loop test to the load, and as many from the store to the loop test, in each mode. */
  function Edge(c: Config, id: Id): seq<Actor> {
    if c.useLock then [Thread(id), Thread(id)] else [Thread(id)]
  }

  lemma TurnParts(c: Config, id: Id)
    ensures var t := Thread(id); Turn(c, id) == Edge(c, id) + ([t, t, t] + Edge(c, id))
  {
  }

  lemma RunParts(c: Config, s: State, x: seq<Actor>, y: seq<Actor>, z: seq<Actor>)
    ensures Run(c, s, x + (y + z)) == Run(c, Run(c, Run(c, s, x), y), z)
  {
    RunConcat(c, s, x, y + z);
    RunConcat(c, Run(c, s, x), y, z);
  }

  lemma RunEnter(c: Config, s: State, id: Id)
    requires Get(s, id).pc == Loop && Get(s, id).i < c.loops && (c.useLock ==> s.owner == None)
    ensures Run(c, s, Edge(c, id)) ==
            Put(s, id, Get(s, id).(pc := Load)).(owner := if c.useLock then Some(id) else s.owner)
  {
    Run1(c, s, Thread(id));
    Step2(c, s, Thread(id), Thread(id));
  }

  lemma RunUpdate(c: Config, s: State, id: Id)
    requires Get(s, id).pc == Load
    ensures var t, v := Thread(id), Wrap(c, s.counter + 1);
      Run(c, s, [t, t, t]) ==
      Put(s, id, Worker(if c.useLock then Unlock else Next, Get(s, id).i, v)).(counter := v)
  {
    Step3(c, s, Thread(id), Thread(id), Thread(id));
  }

  lemma RunLeave(c: Config, s: State, id: Id)
    requires Get(s, id).pc == (if c.useLock then Unlock else Next)
    ensures Run(c, s, Edge(c, id)) ==
            Put(s, id, Get(s, id).(pc := Loop, i := Get(s, id).i + 1))
              .(owner := if c.useLock then None else s.owner)
  {
    Run1(c, s, Thread(id));
    Step2(c, s, Thread(id), Thread(id));
  }

  /** One undisturbed iteration, with or without the lock. */
  lemma RunTurn(c: Config, s: State, id: Id)
    requires Get(s, id).pc == Loop && Get(s, id).i < c.loops && (c.useLock ==> s.owner == None)
    ensures var v := Wrap(c, s.counter + 1);
      Run(c, s, Turn(c, id)) == Put(s, id, Worker(Loop, Get(s, id).i + 1, v)).(counter := v)
  {
    var u := Thread(id);
    TurnParts(c, id);
    RunParts(c, s, Edge(c, id), [u, u, u], Edge(c, id));
    RunEnter(c, s, id);
    var s1 := Put(s, id, Get(s, id).(pc := Load)).(owner := if c.useLock then Some(id) else s.owner);
    RunUpdate(c, s1, id);
    var v := Wrap(c, s.counter + 1);
    var s2 := Put(s1, id, Worker(if c.useLock then Unlock else Next, Get(s, id).i, v)).(counter := v);
    RunLeave(c, s2, id);
  }
}
