/**
 What each command of the low-resolution timer is for, told by what happens after it: how the timer
 ticks, what the status shows, and which commands are refused.
 */
module RsTimerCommands {
  import opened Common
  import opened RsTimer

  /** A time of zero, and a word that is no command. */
  predicate Refused(cmd: Command) {
    match cmd
    case Start(ms) => ms == 0
    case OneShot(ms) => ms == 0
    case Period(ms) => ms == 0
    case Stop => false
    case Reset => false
    case Unknown => true
  }

  /** A refused command returns "invalid argument" and changes nothing; any other returns success. */
  lemma RefusedCommands(c: Config, t: Timer, cmd: Command)
    requires c.word > 0
    ensures if Refused(cmd) then Execute(c, t, cmd) == (t, -22) else Execute(c, t, cmd).1 == 0
  {
  }

  // ---------- what the timer does after a command ----------

  /** The variables that decide about ticks. */
  predicate SameCourse(t: Timer, t': Timer) {
    t'.mode == t.mode && t'.periodMs == t.periodMs && t'.armed == t.armed && t'.time == t.time
    && t'.nextExpiry == t.nextExpiry
  }

  lemma {:induction false} SameTicks(c: Config, t: Timer, t': Timer, events: seq<Event>)
    requires c.word > 0 && SameCourse(t, t')
    ensures Ticks(c, t, events) == Ticks(c, t', events)
    decreases events
  {
    if events != [] {
      SameTicks(c, Step(c, t, events[0]), Step(c, t', events[0]), events[1..]);
    }
  }

  /** Ticks in `k` prompt jiffies after the command. */
  function TicksAfter(c: Config, t: Timer, cmd: Command, k: nat): nat
    requires c.word > 0
  {
    Ticks(c, Execute(c, t, cmd).0, Prompt(k))
  }

  lemma {:induction false} NoTicksUnqueued(c: Config, t: Timer, k: nat)
    requires c.word > 0 && t.armed.None?
    ensures Ticks(c, t, Prompt(k)) == 0
    decreases k
  {
    if k > 0 {
      PromptJiffy(c, t, k);
      NoTicksUnqueued(c, t.(time := t.time + 1), k - 1);
    }
  }

  /** A timer that is not periodic ticks once, when its wait is over. */
  lemma {:induction false} OneTick(c: Config, t: Timer, k: nat, wait: nat)
    requires c.word > 0 && t.mode != Periodic && wait > 0 && t.armed == Some(t.time + wait)
    ensures Ticks(c, t, Prompt(k)) == if k < wait then 0 else 1
    decreases k
  {
    if k > 0 {
      PromptJiffy(c, t, k);
      var t1 := Step(c, t.(time := t.time + 1), Expire);
      if wait == 1 {
        NoTicksUnqueued(c, t1, k - 1);
      } else {
        OneTick(c, t1, k - 1, wait - 1);
      }
    }
  }

  /** From every state and fired promptly: a start ticks once in every delay, a one-shot once at its
      delay; a period change does to a queued timer what its mode says, from now on with the new delay,
      and queues nothing; a stop ends all ticks; reset and refused commands leave them as they were. */
  lemma TicksAfterCommand(c: Config, t: Timer, cmd: Command, k: nat)
    requires c.word > 0
    ensures cmd.Start? && cmd.ms > 0 ==> TicksAfter(c, t, cmd, k) == k / Delay(c, cmd.ms)
    ensures cmd.OneShot? && cmd.ms > 0 ==> TicksAfter(c, t, cmd, k) == if k < Delay(c, cmd.ms) then 0 else 1
    ensures cmd.Period? && cmd.ms > 0 ==>
              TicksAfter(c, t, cmd, k) == if t.armed.None? then 0
                                          else if t.mode == Periodic then k / Delay(c, cmd.ms)
                                          else if k < Delay(c, cmd.ms) then 0 else 1
    ensures cmd.Stop? ==> TicksAfter(c, t, cmd, k) == 0
    ensures cmd.Reset? || Refused(cmd) ==> TicksAfter(c, t, cmd, k) == Ticks(c, t, Prompt(k))
  {
    var t' := Execute(c, t, cmd).0;
    match cmd
    case Start(ms) =>
      if ms > 0 {
        PromptRate(c, t, ms, k);
      }
    case OneShot(ms) =>
      if ms > 0 {
        OneTick(c, t', k, Delay(c, ms));
      }
    case Period(ms) =>
      if ms > 0 {
        if t.armed.None? {
          NoTicksUnqueued(c, t', k);
        } else if t.mode == Periodic {
          PromptRateFrom(c, t', k, Delay(c, ms));
        } else {
          OneTick(c, t', k, Delay(c, ms));
        }
      }
    case Stop => NoTicksUnqueued(c, t', k);
    case Reset => SameTicks(c, t, t', Prompt(k));
    case Unknown =>
  }

  // ---------- what the status shows ----------

  /** Reset clears the counter and the moment of the last tick and nothing else. */
  lemma ResetClears(c: Config, t: Timer)
    requires c.word > 0
    ensures var t' := Execute(c, t, Reset).0;
      SameCourse(t, t') && t'.tickCount == 0 && t'.lastTick == 0
  {
  }

  /** The latest time a command has set, `ms` having been set before. */
  function LatestPeriod(events: seq<Event>, ms: nat): nat
    decreases events
  {
    if events == [] then ms
    else
      var e := events[0];
      LatestPeriod(events[1..],
                   if e.Written? && !Refused(e.cmd) && (e.cmd.Start? || e.cmd.OneShot? || e.cmd.Period?)
                   then e.cmd.ms else ms)
  }

  /** When the callback last ran since the last reset, `at` standing for before. */
  function LatestTick(c: Config, t: Timer, events: seq<Event>, at: nat): nat
    requires c.word > 0
    decreases events
  {
    if events == [] then at
    else
      var e := events[0];
      LatestTick(c, Step(c, t, e), events[1..],
                 if e == Written(Reset) then 0 else if e.Expire? && Due(t) then t.time else at)
  }

  /** The mode of the latest command that sets one, unless the timer has run out since. */
  function LatestMode(c: Config, t: Timer, events: seq<Event>, mode: Mode): Mode
    requires c.word > 0
    decreases events
  {
    if events == [] then mode
    else
      var e := events[0];
      LatestMode(c, Step(c, t, e), events[1..],
                 match e
                 case Elapse => mode
                 case Expire => if Due(t) && mode != Periodic then Stopped else mode
                 case Written(cmd) =>
                   if Refused(cmd) then mode
                   else if cmd.Start? then Periodic
                   else if cmd.OneShot? then Oneshot
                   else if cmd.Stop? then Stopped else mode)
  }

  lemma {:induction false} StatusShowsFrom(c: Config, t: Timer, events: seq<Event>, at: nat)
    requires c.word > 0 && t.lastTick == at % c.word
    ensures var t' := Run(c, t, events);
      && t'.periodMs == LatestPeriod(events, t.periodMs)
      && t'.mode == LatestMode(c, t, events, t.mode)
      && t'.lastTick == LatestTick(c, t, events, at) % c.word
    decreases events
  {
    if events != [] {
      var e := events[0];
      StatusShowsFrom(c, Step(c, t, e), events[1..],
                  if e == Written(Reset) then 0 else if e.Expire? && Due(t) then t.time else at);
    }
  }

  /** From loading on, after any commands and expiries, the status shows the latest accepted time (1000
      before the first), the mode that the latest command or a run-out has left ("stopped" at first),
      the ticks since the last reset, and the jiffy of the last of them. */
  lemma StatusShows(c: Config, time: nat, events: seq<Event>)
    requires c.word > 0
    ensures var t := Run(c, Load(time), events);
      && t.periodMs == LatestPeriod(events, 1000)
      && t.mode == LatestMode(c, Load(time), events, Stopped)
      && t.tickCount == SinceReset(c, Load(time), events, 0) % 0x1_0000_0000
      && t.lastTick == LatestTick(c, Load(time), events, 0) % c.word
  {
    StatusShowsFrom(c, Load(time), events, 0);
    CounterCounts(c, Load(time), events, 0);
  }
}
