/**
 How often the callback can run when commands, callbacks and time interleave freely: no more
 often than jiffies pass, plus once for every command held up so long that it queued an expiry that
 was already due.
 */
module RsTimerRate {
  import opened Common
  import opened RsTimer
  import opened RsTimerStop

  /** The step queues the timer at an expiry that is not ahead of now. */
  predicate ArmsLate(s: System, a: Action) {
    a.Write? && s.writer.todo != [] && s.writer.todo[0].ModTimer? && s.writer.expiry <= s.timer.time
  }

  function LateArms(c: Config, s: System, actions: seq<Action>): nat
    requires c.word > 0
    decreases actions
  {
    if actions == [] then 0
    else (if ArmsLate(s, actions[0]) then 1 else 0)
         + LateArms(c, SystemStep(c, s, actions[0]), actions[1..])
  }

  /** The callbacks so far have jiffies or late arms of their own, and so has the next one, which is
      queued or about to be. */
  predicate RoomInv(s: System, start: nat, fires: nat, late: nat) {
    && start + fires <= s.timer.time + late
    && (s.timer.armed.Some? ==> start + fires + 1 <= Max(s.timer.armed.value, s.timer.time) + late)
    && (s.callback.SavingNext? || s.callback.Rearming? ==> start + fires + 1 <= s.callback.expiry + late)
  }

  lemma {:induction false} RoomRun(c: Config, s: System, actions: seq<Action>, start: nat, fires: nat, late: nat)
    requires c.word > 0 && RoomInv(s, start, fires, late)
    ensures RoomInv(SystemRun(c, s, actions), start, fires + Fires(c, s, actions), late + LateArms(c, s, actions))
    decreases actions
  {
    if actions != [] {
      var a := actions[0];
      RoomRun(c, SystemStep(c, s, a), actions[1..], start,
              fires + if Fired(s, a) then 1 else 0, late + if ArmsLate(s, a) then 1 else 0);
    }
  }

  /** From loading on, in every interleaving: no more callbacks than jiffies have passed and expiries
      were queued late; when none was, no more callbacks than jiffies. */
  lemma FireBound(c: Config, time: nat, actions: seq<Action>)
    requires c.word > 0
    ensures Fires(c, Fresh(time), actions) <=
            SystemRun(c, Fresh(time), actions).timer.time - time + LateArms(c, Fresh(time), actions)
    ensures LateArms(c, Fresh(time), actions) == 0 ==>
              Fires(c, Fresh(time), actions) <= SystemRun(c, Fresh(time), actions).timer.time - time
  {
    RoomRun(c, Fresh(time), actions, time, 0, 0);
  }

  // ---------- the late arms are needed in the bound ----------

  lemma {:induction false} FiresConcat(c: Config, s: System, x: seq<Action>, y: seq<Action>)
    requires c.word > 0
    ensures Fires(c, s, x + y) == Fires(c, s, x) + Fires(c, SystemRun(c, s, x), y)
    ensures LateArms(c, s, x + y) == LateArms(c, s, x) + LateArms(c, SystemRun(c, s, x), y)
    decreases x
  {
    if x == [] {
      assert x + y == y;
    } else {
      assert (x + y)[1..] == x[1..] + y;
      FiresConcat(c, SystemStep(c, s, x[0]), x[1..], y);
    }
  }

  lemma {:induction false} NothingFires(c: Config, s: System, a: Action, k: nat)
    requires c.word > 0 && !a.Fire? && !a.Write?
    ensures Fires(c, s, Repeat([a], k)) == 0 && LateArms(c, s, Repeat([a], k)) == 0
    decreases k
  {
    if k > 0 {
      assert Repeat([a], k)[1..] == Repeat([a], k - 1);
      NothingFires(c, SystemStep(c, s, a), a, k - 1);
    }
  }

  /** What is left of a start, its expiry, once computed, ahead of now. */
  predicate InTime(s: System, ms: nat)
    requires ms > 0
  {
    var todo := s.writer.todo;
    || todo == Program(Start(ms)) || todo == Program(Start(ms))[1..] || todo == [Compute(ms), SaveNext, ModTimer]
    || ((todo == [SaveNext, ModTimer] || todo == [ModTimer]) && s.writer.expiry > s.timer.time)
    || todo == []
  }

  lemma {:induction false} WrittenInTime(c: Config, s: System, ms: nat, k: nat)
    requires c.word > 0 && ms > 0 && InTime(s, ms)
    ensures Fires(c, s, Repeat([Write], k)) == 0 && LateArms(c, s, Repeat([Write], k)) == 0
    decreases k
  {
    if k > 0 {
      assert Repeat([Write], k)[1..] == Repeat([Write], k - 1);
      WrittenInTime(c, SystemStep(c, s, Write), ms, k - 1);
    }
  }

  /** `k` statements of a start, nothing else moving. */
  function StartUpTo(ms: nat, k: nat): seq<Action> {
    [Begin(Start(ms))] + Repeat([Write], k)
  }

  lemma StartInTime(c: Config, s: System, ms: nat, k: nat)
    requires c.word > 0 && ms > 0 && s.writer.todo == []
    ensures Fires(c, s, StartUpTo(ms, k)) == 0 && LateArms(c, s, StartUpTo(ms, k)) == 0
    ensures SystemRun(c, s, StartUpTo(ms, k)) ==
            SystemRun(c, SystemStep(c, s, Begin(Start(ms))), Repeat([Write], k))
  {
    assert StartUpTo(ms, k)[1..] == Repeat([Write], k);
    WrittenInTime(c, SystemStep(c, s, Begin(Start(ms))), ms, k);
  }

  /** A start held up before its last statement. */
  lemma HeldUp(c: Config, s: System, ms: nat)
    requires c.word > 0 && ms > 0 && s.writer.todo == Program(Start(ms))
    ensures var s' := SystemRun(c, s, Repeat([Write], 4));
      && s'.writer == Writer([ModTimer], s.timer.time + Delay(c, ms)) && s'.callback == s.callback
      && s'.timer.armed == s.timer.armed && s'.timer.time == s.timer.time
  {
  }

  /** A due callback, a late arm and another callback, without a jiffy passing. */
  function Twice(): seq<Action> {
    [Fire] + (Repeat([Call], 8) + [Write, Fire])
  }

  lemma FiredLate(c: Config, s: System)
    requires c.word > 0 && s.callback.Dormant? && s.writer == Writer([ModTimer], s.timer.time)
    ensures Fires(c, s, [Write, Fire]) == 1 && LateArms(c, s, [Write, Fire]) == 1
    ensures SystemRun(c, s, [Write, Fire]).timer.time == s.timer.time
  {
    var armed := SystemStep(c, s, Write);
    assert [Write, Fire][1..] == [Fire];
    assert SystemRun(c, armed, [Fire]) == SystemStep(c, armed, Fire);
  }

  lemma FiredTwice(c: Config, s: System)
    requires c.word > 0 && s.callback.Dormant? && Due(s.timer) && s.writer == Writer([ModTimer], s.timer.time)
    ensures Fires(c, s, Twice()) == 2 && LateArms(c, s, Twice()) == 1
    ensures SystemRun(c, s, Twice()).timer.time == s.timer.time
  {
    var s1 := SystemStep(c, s, Fire);
    assert Twice()[1..] == Repeat([Call], 8) + [Write, Fire];
    UndisturbedCallback(c, s);
    NothingFires(c, s1, Call, 8);
    RunConcat(c, s1, Repeat([Call], 8), [Write, Fire]);
    FiresConcat(c, s1, Repeat([Call], 8), [Write, Fire]);
    FiredLate(c, SystemRun(c, s1, Repeat([Call], 8)));
  }

  lemma FirstStart(c: Config, s: System, ms: nat)
    requires c.word > 0 && ms > 0 && s.writer.todo == []
    ensures var x := StartUpTo(ms, 5);
      var s' := SystemRun(c, s, x);
      && Fires(c, s, x) == 0 && LateArms(c, s, x) == 0
      && s'.writer.todo == [] && s'.callback == s.callback
      && s'.timer.armed == Some(s.timer.time + Delay(c, ms)) && s'.timer.time == s.timer.time
  {
    StartInTime(c, s, ms, 5);
    UndisturbedStart(c, SystemStep(c, s, Begin(Start(ms))), Start(ms));
  }

  /** The second start, held up until the first one's expiry. */
  lemma HeldUpUntilDue(c: Config, s: System, ms: nat, d: nat)
    requires c.word > 0 && ms > 0 && d == Delay(c, ms)
    requires s.writer.todo == [] && s.timer.armed == Some(s.timer.time + d)
    ensures var x := StartUpTo(ms, 4) + Repeat([Tick], d);
      var s' := SystemRun(c, s, x);
      && Fires(c, s, x) == 0 && LateArms(c, s, x) == 0
      && s'.writer == Writer([ModTimer], s'.timer.time) && s'.callback == s.callback
      && Due(s'.timer) && s'.timer.time == s.timer.time + d
  {
    var x, y := StartUpTo(ms, 4), Repeat([Tick], d);
    StartInTime(c, s, ms, 4);
    HeldUp(c, SystemStep(c, s, Begin(Start(ms))), ms);
    NothingFires(c, SystemRun(c, s, x), Tick, d);
    Wait(c, SystemRun(c, s, x), d);
    RunConcat(c, s, x, y);
    FiresConcat(c, s, x, y);
  }

  /** From loading on: a start, a second one held up before its last statement until the first
      expires, and then two callbacks in one jiffy. With a delay of one jiffy the bound is reached. */
  lemma TwoInOneJiffy(c: Config, time: nat, ms: nat)
    requires c.word > 0 && ms > 0
    ensures var x := StartUpTo(ms, 5) + (StartUpTo(ms, 4) + Repeat([Tick], Delay(c, ms)));
      var s := SystemRun(c, Fresh(time), x);
      && Fires(c, s, Twice()) == 2
      && SystemRun(c, s, Twice()).timer.time == s.timer.time == time + Delay(c, ms)
      && LateArms(c, Fresh(time), x + Twice()) == 1
      && Fires(c, Fresh(time), x + Twice()) == 2
  {
    var d, x1 := Delay(c, ms), StartUpTo(ms, 5);
    var x2 := StartUpTo(ms, 4) + Repeat([Tick], d);
    FirstStart(c, Fresh(time), ms);
    var s1 := SystemRun(c, Fresh(time), x1);
    HeldUpUntilDue(c, s1, ms, d);
    RunConcat(c, Fresh(time), x1, x2);
    FiresConcat(c, Fresh(time), x1, x2);
    FiresConcat(c, Fresh(time), x1 + x2, Twice());
    FiredTwice(c, SystemRun(c, s1, x2));
  }
}
