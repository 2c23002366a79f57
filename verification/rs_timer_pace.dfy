/**
 The pace of the callback when commands, callbacks and time interleave freely, from the delays alone:
 when it is at most one callback a jiffy, and how many there can be otherwise.
 */
module RsTimerPace {
  import opened Common
  import opened RsTimer
  import opened RsTimerStop
  import opened RsTimerRate

  // ---------- no delay shorter than d ----------

  /** The time an accepted command asks for, zero if it asks for none. */
  function TimeAsked(cmd: Command): nat {
    match cmd
    case Start(ms) => ms
    case OneShot(ms) => ms
    case Period(ms) => ms
    case _ => 0
  }

  predicate Asks(a: Action, allowed: nat -> bool) {
    a.Begin? && TimeAsked(a.cmd) > 0 ==> allowed(TimeAsked(a.cmd))
  }

  /** All times that are asked for are allowed ones. */
  predicate AsksOnly(actions: seq<Action>, allowed: nat -> bool) {
    forall a | a in actions :: Asks(a, allowed)
  }

  /** Every allowed time takes at least `d` jiffies. */
  ghost predicate AllowsAtLeast(c: Config, allowed: nat -> bool, d: nat) {
    forall ms | ms > 0 && allowed(ms) :: Delay(c, ms) >= d
  }

  predicate StatementAtLeast(c: Config, st: Statement, d: nat) {
    st.SetPeriod? || st.Compute? ==> Delay(c, st.ms) >= d
  }

  /** Nothing has been or is about to be queued with the period the module was loaded with. */
  predicate PeriodUnused(s: System) {
    var todo := s.writer.todo;
    && s.timer.armed.None? && s.callback.Dormant?
    && (todo == [] || todo[0].SetPeriod? || forall i | 0 <= i < |todo| :: !todo[i].ModTimer?)
  }

  /** The delays a state can still use: the stored period, the callback's copy, the command's. */
  predicate StateAtLeast(c: Config, s: System, d: nat) {
    && (Delay(c, s.timer.periodMs) >= d || PeriodUnused(s))
    && (s.callback.Stamping? || s.callback.Branching? ==> Delay(c, s.callback.period) >= d)
    && forall i | 0 <= i < |s.writer.todo| :: StatementAtLeast(c, s.writer.todo[i], d)
  }

  lemma StateAtLeastStep(c: Config, s: System, a: Action, d: nat)
    requires c.word > 0 && StateAtLeast(c, s, d)
    requires a.Begin? && TimeAsked(a.cmd) > 0 ==> Delay(c, TimeAsked(a.cmd)) >= d
    ensures StateAtLeast(c, SystemStep(c, s, a), d)
  {
  }

  // ---------- two callbacks a delay ----------

  /** The moment `k` delays after `start`. */
  function Slot(start: nat, d: nat, k: nat): nat {
    start + k * d
  }

  lemma NextSlot(start: nat, d: nat, k: nat)
    ensures Slot(start, d, k + 1) == Slot(start, d, k) + d
  {
  }

  /** How often the callback has been fired, and when for the last two times. */
  datatype Pace = Pace(fires: nat, last: nat, before: nat)

  function Next(s: System, a: Action, p: Pace): Pace {
    if Fired(s, a) then Pace(p.fires + 1, s.timer.time, p.last) else p
  }

  predicate PaceInv(start: nat, d: nat, p: Pace) {
    Slot(start, d, (p.fires + 1) / 2) <= p.last && Slot(start, d, p.fires / 2) <= p.before <= p.last
  }

  predicate QueuedAfter(t: Timer, moment: nat) {
    t.armed.Some? ==> Max(t.armed.value, t.time) >= moment
  }

  /** The callback can fire again a delay after the last callback but one. The expiry that the callback
      is about to queue is a delay after the last; so is a command's, unless the callback was fired
      since it was computed, and then nothing else will fire earlier than that. */
  predicate PaceKept(s: System, d: nat, p: Pace) {
    var todo := s.writer.todo;
    && p.last <= s.timer.time
    && QueuedAfter(s.timer, p.before + d)
    && (s.callback.SavingNext? || s.callback.Rearming? ==> s.callback.expiry >= p.last + d)
    && (todo != [] && (todo[0].SaveNext? || todo[0].ModTimer?) ==>
          || s.writer.expiry >= p.last + d
          || (Max(s.writer.expiry, s.timer.time) >= p.before + d && QueuedAfter(s.timer, p.last + d)))
  }

  predicate UsesExpiry(st: Statement) {
    st.SaveNext? || st.ModTimer?
  }

  /** A statement that uses the expiry directly follows its computation or its saving. */
  predicate Ordered(todo: seq<Statement>) {
    forall i | 1 <= i < |todo| && UsesExpiry(todo[i]) :: todo[i - 1].Compute? || todo[i - 1].SaveNext?
  }

  lemma ProgramOrdered(cmd: Command)
    ensures Ordered(Program(cmd)) && (Program(cmd) != [] ==> !UsesExpiry(Program(cmd)[0]))
  {
  }

  lemma OrderedStep(c: Config, s: System, a: Action)
    requires c.word > 0 && Ordered(s.writer.todo)
    ensures Ordered(SystemStep(c, s, a).writer.todo)
  {
    if a.Begin? {
      ProgramOrdered(a.cmd);
    } else {
      var todo, todo' := s.writer.todo, SystemStep(c, s, a).writer.todo;
      assert todo' == todo || todo' == [] || todo' == todo[1..];
    }
  }

  lemma FireKeepsPace(c: Config, s: System, a: Action, start: nat, d: nat, p: Pace)
    requires c.word > 0 && PaceInv(start, d, p) && PaceKept(s, d, p) && Fired(s, a)
    ensures PaceInv(start, d, Next(s, a, p)) && PaceKept(SystemStep(c, s, a), d, Next(s, a, p))
  {
    NextSlot(start, d, p.fires / 2);
    assert (p.fires + 1 + 1) / 2 == p.fires / 2 + 1;
  }

  lemma WriteKeepsPace(c: Config, s: System, d: nat, p: Pace)
    requires c.word > 0 && PaceKept(s, d, p) && p.before <= p.last
    requires StateAtLeast(c, s, d) && Ordered(s.writer.todo)
    ensures PaceKept(SystemStep(c, s, Write), d, p)
  {
    if s.writer.todo != [] {
      assert StatementAtLeast(c, s.writer.todo[0], d);
      var s' := SystemStep(c, s, Write);
      if s'.writer.todo != [] && UsesExpiry(s'.writer.todo[0]) && !s.writer.todo[0].DeleteSync? {
        assert s'.writer.todo[0] == s.writer.todo[1];
      }
    }
  }

  lemma StepKeepsPace(c: Config, s: System, a: Action, start: nat, d: nat, p: Pace)
    requires c.word > 0 && PaceInv(start, d, p) && PaceKept(s, d, p)
    requires StateAtLeast(c, s, d) && Ordered(s.writer.todo)
    ensures PaceInv(start, d, Next(s, a, p)) && PaceKept(SystemStep(c, s, a), d, Next(s, a, p))
  {
    match a
    case Begin(cmd) => ProgramOrdered(cmd);
    case Write => WriteKeepsPace(c, s, d, p);
    case Fire =>
      if Fired(s, a) {
        FireKeepsPace(c, s, a, start, d, p);
      }
    case Call =>
    case Tick =>
  }

  lemma AskedAtLeast(c: Config, a: Action, allowed: nat -> bool, d: nat)
    requires Asks(a, allowed) && AllowsAtLeast(c, allowed, d)
    ensures a.Begin? && TimeAsked(a.cmd) > 0 ==> Delay(c, TimeAsked(a.cmd)) >= d
  {
    if a.Begin? && TimeAsked(a.cmd) > 0 {
      assert allowed(TimeAsked(a.cmd));
    }
  }

  lemma {:induction false} RunKeepsPace(
    c: Config, s: System, actions: seq<Action>, allowed: nat -> bool, start: nat, d: nat, p: Pace)
    requires c.word > 0 && PaceInv(start, d, p) && PaceKept(s, d, p)
    requires StateAtLeast(c, s, d) && Ordered(s.writer.todo)
    requires AsksOnly(actions, allowed) && AllowsAtLeast(c, allowed, d)
    ensures Slot(start, d, (p.fires + Fires(c, s, actions) + 1) / 2) <= SystemRun(c, s, actions).timer.time
    decreases actions
  {
    if actions != [] {
      var a := actions[0];
      assert a in actions && Asks(a, allowed);
      AskedAtLeast(c, a, allowed, d);
      StepKeepsPace(c, s, a, start, d, p);
      StateAtLeastStep(c, s, a, d);
      OrderedStep(c, s, a);
      assert AsksOnly(actions[1..], allowed);
      RunKeepsPace(c, SystemStep(c, s, a), actions[1..], allowed, start, d, Next(s, a, p));
    }
  }

  /** From loading on, in every interleaving in which no allowed time is shorter than `d`: two callbacks
      need at least `d` jiffies, an odd one out as many again. */
  lemma TwoPerDelay(c: Config, time: nat, actions: seq<Action>, allowed: nat -> bool, d: nat)
    requires c.word > 0 && AsksOnly(actions, allowed) && AllowsAtLeast(c, allowed, d)
    ensures (Fires(c, Fresh(time), actions) + 1) / 2 * d <= SystemRun(c, Fresh(time), actions).timer.time - time
  {
    RunKeepsPace(c, Fresh(time), actions, allowed, time, d, Pace(0, time, time));
  }

  /** In every interleaving at all, never more than two callbacks for each jiffy. */
  lemma TwoPerJiffy(c: Config, time: nat, actions: seq<Action>)
    requires c.word > 0
    ensures Fires(c, Fresh(time), actions) <= 2 * (SystemRun(c, Fresh(time), actions).timer.time - time)
  {
    TwoPerDelay(c, time, actions, _ => true, 1);
  }

  // ---------- when the callback never outruns the clock ----------

  /** As long as only allowed times are asked for, never more callbacks than jiffies. */
  ghost predicate NeverOutrunsClock(c: Config, time: nat, allowed: nat -> bool)
    requires c.word > 0
  {
    forall x | AsksOnly(x, allowed) ::
      Fires(c, Fresh(time), x) <= SystemRun(c, Fresh(time), x).timer.time - time
  }

  lemma RepeatAsks(a: Action, k: nat, allowed: nat -> bool)
    requires Asks(a, allowed)
    ensures AsksOnly(Repeat([a], k), allowed)
  {
    RepeatHasOnly(a, k);
  }

  lemma StartAsks(ms: nat, k: nat, allowed: nat -> bool)
    requires allowed(ms)
    ensures AsksOnly(StartUpTo(ms, k), allowed)
  {
    RepeatAsks(Write, k, allowed);
  }

  lemma TwiceAsks(allowed: nat -> bool)
    ensures AsksOnly(Twice(), allowed)
  {
    RepeatAsks(Call, 8, allowed);
  }

  lemma HeldUpAsks(ms: nat, d: nat, allowed: nat -> bool)
    requires allowed(ms)
    ensures AsksOnly(StartUpTo(ms, 5) + (StartUpTo(ms, 4) + Repeat([Tick], d)), allowed)
  {
    StartAsks(ms, 5, allowed);
    StartAsks(ms, 4, allowed);
    RepeatAsks(Tick, d, allowed);
  }

  lemma Outrunning(c: Config, time: nat, ms: nat, allowed: nat -> bool) returns (x: seq<Action>)
    requires c.word > 0 && ms > 0 && allowed(ms)
    ensures AsksOnly(x, allowed)
    ensures Fires(c, Fresh(time), x) == 2 && SystemRun(c, Fresh(time), x).timer.time == time + Delay(c, ms)
  {
    var held := StartUpTo(ms, 5) + (StartUpTo(ms, 4) + Repeat([Tick], Delay(c, ms)));
    TwoInOneJiffy(c, time, ms);
    RunConcat(c, Fresh(time), held, Twice());
    HeldUpAsks(ms, Delay(c, ms), allowed);
    TwiceAsks(allowed);
    x := held + Twice();
  }

  /** Whatever is commanded among the allowed times and however it interleaves, the callback never runs
      more often than jiffies pass, exactly when no allowed time converts to a single jiffy. */
  lemma ClockBoundExact(c: Config, time: nat, allowed: nat -> bool)
    requires c.word > 0
    ensures NeverOutrunsClock(c, time, allowed) <==> AllowsAtLeast(c, allowed, 2)
  {
    if AllowsAtLeast(c, allowed, 2) {
      forall x | AsksOnly(x, allowed)
        ensures Fires(c, Fresh(time), x) <= SystemRun(c, Fresh(time), x).timer.time - time
      {
        TwoPerDelay(c, time, x, allowed, 2);
      }
    } else {
      var ms :| ms > 0 && allowed(ms) && Delay(c, ms) < 2;
      var x := Outrunning(c, time, ms, allowed);
    }
  }

  ghost predicate AlwaysKeepsUp(c: Config, time: nat)
    requires c.word > 0
  {
    forall x :: Fires(c, Fresh(time), x) <= SystemRun(c, Fresh(time), x).timer.time - time
  }

  ghost predicate NoSingleJiffy(c: Config) {
    forall ms | ms > 0 :: Delay(c, ms) >= 2
  }

  /** In particular, with every time allowed: for all interleavings of all commands. */
  lemma ClockBoundExactForAll(c: Config, time: nat)
    requires c.word > 0
    ensures AlwaysKeepsUp(c, time) <==> NoSingleJiffy(c)
  {
    var all := (ms: nat) => true;
    ClockBoundExact(c, time, all);
    if NoSingleJiffy(c) {
      forall x ensures Fires(c, Fresh(time), x) <= SystemRun(c, Fresh(time), x).timer.time - time {
        assert AsksOnly(x, all);
      }
    } else {
      var ms :| ms > 0 && Delay(c, ms) < 2;
      assert all(ms);
      var x := Outrunning(c, time, ms, all);
    }
  }

  // ---------- a periodic timer that no further command touches ----------

  /** The callback so far has been fired `fires` times in as many delays, and what is queued, or about
      to be queued by the callback, is another delay on. */
  predicate Periodical(c: Config, s: System, ms: nat, start: nat, fires: nat) {
    var t, d := s.timer, Delay(c, ms);
    && s.writer.todo == [] && t.mode == Periodic && t.periodMs == ms
    && Slot(start, d, fires) <= t.time
    && (t.armed.Some? ==> Slot(start, d, fires + 1) <= t.armed.value)
    && match s.callback
       case ReadingPeriod(mode) => mode == Periodic
       case Stamping(mode, period) => mode == Periodic && period == ms
       case Branching(mode, period) => mode == Periodic && period == ms
       case SavingNext(e) => Slot(start, d, fires + 1) <= e
       case Rearming(e) => Slot(start, d, fires + 1) <= e
       case Stopping => false
       case Clearing => false
       case _ => true
  }

  lemma {:induction false} PeriodicalRun(c: Config, s: System, actions: seq<Action>, ms: nat, start: nat, fires: nat)
    requires c.word > 0 && Periodical(c, s, ms, start, fires) && NoBegin(actions)
    ensures Slot(start, Delay(c, ms), fires + Fires(c, s, actions)) <= SystemRun(c, s, actions).timer.time
    decreases actions
  {
    if actions != [] {
      var a := actions[0];
      PeriodicalRun(c, SystemStep(c, s, a), actions[1..], ms, start, fires + if Fired(s, a) then 1 else 0);
    }
  }

  /** Inside a start that was begun with nothing queued and no callback before its last statement. */
  predicate Starting(c: Config, s: System, ms: nat, start: nat) {
    var todo := s.writer.todo;
    && start <= s.timer.time && s.timer.armed.None? && AtRest(s)
    && (|| todo == [SetPeriod(ms), SetMode(Periodic), Compute(ms), SaveNext, ModTimer]
        || (s.timer.periodMs == ms && todo == [SetMode(Periodic), Compute(ms), SaveNext, ModTimer])
        || (s.timer.periodMs == ms && s.timer.mode == Periodic
            && (|| todo == [Compute(ms), SaveNext, ModTimer]
                || (s.writer.expiry >= start + Delay(c, ms) && todo == [SaveNext, ModTimer])
                || (s.writer.expiry >= start + Delay(c, ms) && todo == [ModTimer]))))
  }

  lemma {:induction false} StartingRun(c: Config, s: System, actions: seq<Action>, ms: nat, start: nat)
    requires c.word > 0 && Starting(c, s, ms, start) && NoBegin(actions)
    ensures Slot(start, Delay(c, ms), Fires(c, s, actions)) <= SystemRun(c, s, actions).timer.time
    decreases actions
  {
    if actions != [] {
      var s' := SystemStep(c, s, actions[0]);
      if Starting(c, s', ms, start) {
        StartingRun(c, s', actions[1..], ms, start);
      } else {
        PeriodicalRun(c, s', actions[1..], ms, start, 0);
      }
    }
  }

  /** However a start begun with nothing queued and no callback before its last statement, and the
      callbacks after it, interleave with time: `k` callbacks take at least `k` delays. */
  lemma PeriodicPace(c: Config, s: System, ms: nat, actions: seq<Action>)
    requires c.word > 0 && ms > 0 && NoBegin(actions)
    requires s.writer.todo == [] && s.timer.armed.None? && AtRest(s)
    ensures var s1 := SystemStep(c, s, Begin(Start(ms)));
      Fires(c, s1, actions) * Delay(c, ms) <= SystemRun(c, s1, actions).timer.time - s.timer.time
  {
    StartingRun(c, SystemStep(c, s, Begin(Start(ms))), actions, ms, s.timer.time);
  }

  /** The same with an older timer queued, if nobody interrupts the start itself. */
  lemma PeriodicPaceAfterStart(c: Config, s: System, ms: nat, actions: seq<Action>)
    requires c.word > 0 && ms > 0 && NoBegin(actions) && s.writer.todo == [] && AtRest(s)
    ensures var s1 := SystemRun(c, SystemStep(c, s, Begin(Start(ms))), Repeat([Write], 5));
      Fires(c, s1, actions) * Delay(c, ms) <= SystemRun(c, s1, actions).timer.time - s.timer.time
  {
    var begun := SystemStep(c, s, Begin(Start(ms)));
    UndisturbedStart(c, begun, Start(ms));
    PeriodicalRun(c, SystemRun(c, begun, Repeat([Write], 5)), actions, ms, s.timer.time, 0);
  }
}
