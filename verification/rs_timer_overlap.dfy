/**
 When commands and callbacks overlap: which commands keep the status variables in step with the
 timer, whatever the interleaving, and for every other command an interleaving that does not.
 */
module RsTimerOverlap {
  import opened Common
  import opened Modular
  import opened RsTimer
  import opened RsTimerStop

  /** No command and no callback is under way. */
  predicate Settled(s: System) {
    s.writer.todo == [] && s.callback.Dormant?
  }

  /** However the command interleaves with callbacks and time, the status is right whenever the
      command has returned and no callback runs. */
  ghost predicate AlwaysConsistent(c: Config, s: System, cmd: Command)
    requires c.word > 0
  {
    var begun := SystemStep(c, s, Begin(cmd));
    forall x | NoBegin(x) && Settled(SystemRun(c, begun, x)) :: StatusInv(c, SystemRun(c, begun, x).timer)
  }

  /** An accepted start or one-shot command. */
  predicate Starts(cmd: Command) {
    (cmd.Start? && cmd.ms > 0) || (cmd.OneShot? && cmd.ms > 0)
  }

  /** When a command may be begun: a start or one-shot with nothing queued and no callback before its
      last statement, a period change with nothing queued and the mode not "periodic", every other
      command at any time. */
  predicate Safe(s: System, cmd: Command) {
    if Starts(cmd) then s.timer.armed.None? && AtRest(s)
    else if cmd.Period? && cmd.ms > 0 then s.timer.armed.None? && s.timer.mode != Periodic
    else true
  }

  // ---------- safe commands ----------

  /** The status between commands: right at rest, and in a callback such that it will be right. */
  predicate Consistent(c: Config, s: System)
    requires c.word > 0
  {
    var t := s.timer;
    match s.callback
    case Dormant => StatusInv(c, t)
    case Counting => t.armed.None? && t.mode != Stopped
    case ReadingMode => t.armed.None? && t.mode != Stopped
    case ReadingPeriod(mode) => t.armed.None? && t.mode == mode != Stopped
    case Stamping(mode, period) => t.armed.None? && t.mode == mode != Stopped
    case Branching(mode, period) => t.armed.None? && t.mode == mode != Stopped
    case SavingNext(e) => t.armed.None? && t.mode == Periodic
    case Rearming(e) => t.armed.None? && t.mode == Periodic && t.nextExpiry == e % c.word
    case Stopping => t.armed.None? && t.mode == Oneshot
    case Clearing => t.armed.None? && t.mode == Stopped
    case Ending => StatusInv(c, t)
  }

  /** Inside a start or one-shot command begun safely. */
  predicate DuringStart(c: Config, s: System, ms: nat, mode: Mode)
    requires c.word > 0
  {
    var todo := s.writer.todo;
    && s.timer.armed.None? && AtRest(s)
    && (|| todo == [SetPeriod(ms), SetMode(mode), Compute(ms), SaveNext, ModTimer]
        || todo == [SetMode(mode), Compute(ms), SaveNext, ModTimer]
        || (todo == [Compute(ms), SaveNext, ModTimer] && s.timer.mode == mode)
        || (todo == [SaveNext, ModTimer] && s.timer.mode == mode)
        || (todo == [ModTimer] && s.timer.mode == mode && s.timer.nextExpiry == s.writer.expiry % c.word))
  }

  /** Inside a period command that will find nothing queued. */
  predicate DuringPeriod(c: Config, s: System, ms: nat)
    requires c.word > 0
  {
    && Consistent(c, s) && s.timer.armed.None? && s.timer.mode != Periodic
    && (s.writer.todo == Program(Period(ms)) || s.writer.todo == [IfPending, Compute(ms), SaveNext, ModTimer])
  }

  /** Inside `cmd`, safely begun, or after it. */
  predicate During(c: Config, s: System, cmd: Command)
    requires c.word > 0
  {
    if s.writer.todo == [] then Consistent(c, s)
    else
      match cmd
      case Start(ms) => DuringStart(c, s, ms, Periodic)
      case OneShot(ms) => DuringStart(c, s, ms, Oneshot)
      case Period(ms) => DuringPeriod(c, s, ms)
      case Stop => StopInv(s)
      case Reset => Consistent(c, s) && (s.writer.todo == Program(Reset) || s.writer.todo == [ClearLast])
      case Unknown => false
  }

  lemma DuringStartStep(c: Config, s: System, ms: nat, mode: Mode, a: Action)
    requires c.word > 0 && mode != Stopped && !a.Begin? && DuringStart(c, s, ms, mode)
    ensures var s' := SystemStep(c, s, a);
      if s'.writer.todo == [] then Consistent(c, s') else DuringStart(c, s', ms, mode)
  {
  }

  lemma DuringStep(c: Config, s: System, cmd: Command, a: Action)
    requires c.word > 0 && During(c, s, cmd) && !a.Begin?
    ensures During(c, SystemStep(c, s, a), cmd)
  {
    if s.writer.todo != [] {
      match cmd
      case Start(ms) => DuringStartStep(c, s, ms, Periodic, a);
      case OneShot(ms) => DuringStartStep(c, s, ms, Oneshot, a);
      case Stop => StopStep(c, s, a);
      case _ =>
    }
  }

  lemma {:induction false} DuringRun(c: Config, s: System, cmd: Command, actions: seq<Action>)
    requires c.word > 0 && During(c, s, cmd) && NoBegin(actions)
    ensures During(c, SystemRun(c, s, actions), cmd)
    decreases actions
  {
    if actions != [] {
      DuringStep(c, s, cmd, actions[0]);
      DuringRun(c, SystemStep(c, s, actions[0]), cmd, actions[1..]);
    }
  }

  lemma SafeIsConsistent(c: Config, s: System, cmd: Command)
    requires c.word > 0 && s.writer.todo == [] && Safe(s, cmd)
    requires Starts(cmd) || Consistent(c, s)
    ensures AlwaysConsistent(c, s, cmd)
  {
    var begun := SystemStep(c, s, Begin(cmd));
    forall x | NoBegin(x) && Settled(SystemRun(c, begun, x)) ensures StatusInv(c, SystemRun(c, begun, x).timer) {
      DuringRun(c, begun, cmd, x);
    }
  }

  /** With a consistent status and no command, the next expiry is saved before the timer is queued: at
      every statement of the callback a queued timer's expiry is the one shown. */
  lemma QueuedIsShown(c: Config, s: System, actions: seq<Action>)
    requires c.word > 0 && s.writer.todo == [] && Consistent(c, s) && NoBegin(actions)
    ensures var t := SystemRun(c, s, actions).timer;
      t.armed.Some? ==> t.nextExpiry == t.armed.value % c.word && t.mode != Stopped
  {
    DuringRun(c, s, Unknown, actions);
    NothingBegins(c, s, actions);
  }

  lemma {:induction false} NothingBegins(c: Config, s: System, actions: seq<Action>)
    requires c.word > 0 && s.writer.todo == [] && NoBegin(actions)
    ensures SystemRun(c, s, actions).writer.todo == []
    decreases actions
  {
    if actions != [] {
      NothingBegins(c, SystemStep(c, s, actions[0]), actions[1..]);
    }
  }

  // ---------- a schedule for every other command ----------

  /** This continuation ends with a wrong status. */
  predicate Breaks(c: Config, s: System, x: seq<Action>)
    requires c.word > 0
  {
    NoBegin(x) && Settled(SystemRun(c, s, x)) && !StatusInv(c, SystemRun(c, s, x).timer)
  }

  lemma BreaksAfter(c: Config, s: System, x: seq<Action>, y: seq<Action>)
    requires c.word > 0 && NoBegin(x) && Breaks(c, SystemRun(c, s, x), y)
    ensures Breaks(c, s, x + y)
  {
    RunConcat(c, s, x, y);
  }

  /** Wait until the queued timer is due, and let the kernel fire it. */
  lemma FireWhenDue(c: Config, s: System) returns (x: seq<Action>)
    requires c.word > 0 && s.timer.armed.Some? && s.callback.Dormant?
    ensures NoBegin(x)
    ensures SystemRun(c, s, x).callback == Counting && SystemRun(c, s, x).writer == s.writer
  {
    var k := Max(s.timer.armed.value, s.timer.time) - s.timer.time;
    Wait(c, s, k);
    RunConcat(c, s, Repeat([Tick], k), [Fire]);
    x := Repeat([Tick], k) + [Fire];
    var due := SystemRun(c, s, Repeat([Tick], k));
    assert SystemRun(c, due, [Fire]) == SystemStep(c, due, Fire);
  }

  /** What is left of an arming command once it only has to compute, save and queue the expiry. */
  function Tail(ms: nat): seq<Statement> {
    [Compute(ms), SaveNext, ModTimer]
  }

  /** One jiffy more or less decides whether two expiries look the same. */
  lemma MomentToMiss(c: Config, e: nat, v: nat) returns (k: nat)
    requires c.word > 1
    ensures k <= 1 && (e + k) % c.word != v
  {
    k := if e % c.word == v then 1 else 0;
    if k == 1 && (e + 1) % c.word == v {
      ModInjective(e, e + 1, c.word);
    }
  }

  /** The tail of an arming command, at a moment when its expiry differs from `v` as a word. */
  lemma ArmMissing(c: Config, s: System, ms: nat, v: nat) returns (x: seq<Action>)
    requires c.word > 1 && s.writer.todo == Tail(ms)
    ensures NoBegin(x)
    ensures var s' := SystemRun(c, s, x);
      && s'.writer.todo == [] && s'.callback == s.callback && s'.timer.mode == s.timer.mode
      && s'.timer.armed.Some? && s'.timer.nextExpiry == s'.timer.armed.value % c.word != v
  {
    var k := MomentToMiss(c, s.timer.time + Delay(c, ms), v);
    Wait(c, s, k);
    RunConcat(c, s, Repeat([Tick], k), Repeat([Write], 3));
    x := Repeat([Tick], k) + Repeat([Write], 3);
  }

  /** A callback anywhere before its last statement spoils the arming command. */
  lemma {:induction false} SpoiltByCallback(c: Config, s: System, ms: nat) returns (x: seq<Action>)
    requires c.word > 1 && s.writer.todo == Tail(ms) && !AtRest(s)
    ensures Breaks(c, s, x)
    decreases CallbackRank(s.callback)
  {
    if s.callback.Stopping? {
      BreaksAfter(c, s, Repeat([Write], 3), [Call, Call, Call]);
      x := Repeat([Write], 3) + [Call, Call, Call];
    } else if s.callback.Rearming? {
      x := SpoiltAtEnd(c, s, ms, s.callback.expiry % c.word);
    } else if s.callback.Clearing? {
      x := SpoiltAtEnd(c, s, ms, 0);
    } else {
      x := SpoiltByCallback(c, SystemStep(c, s, Call), ms);
      BreaksAfter(c, s, [Call], x);
      x := [Call] + x;
    }
  }

  lemma SpoiltAtEnd(c: Config, s: System, ms: nat, v: nat) returns (x: seq<Action>)
    requires c.word > 1 && s.writer.todo == Tail(ms)
    requires (s.callback.Clearing? && v == 0) || (s.callback.Rearming? && v == s.callback.expiry % c.word)
    ensures Breaks(c, s, x)
  {
    x := ArmMissing(c, s, ms, v);
    BreaksAfter(c, s, x, [Call, Call]);
    x := x + [Call, Call];
  }

  /** A queued timer spoils it too, by firing before the command is through. */
  lemma {:induction false} Spoilt(c: Config, s: System, ms: nat) returns (x: seq<Action>)
    requires c.word > 1 && s.writer.todo == Tail(ms)
    requires s.timer.armed.Some? || !AtRest(s)
    ensures Breaks(c, s, x)
    decreases s.callback.Ending?
  {
    if !AtRest(s) {
      x := SpoiltByCallback(c, s, ms);
    } else if s.callback.Ending? {
      x := Spoilt(c, SystemStep(c, s, Call), ms);
      BreaksAfter(c, s, [Call], x);
      x := [Call] + x;
    } else {
      var fire := FireWhenDue(c, s);
      x := SpoiltByCallback(c, SystemRun(c, s, fire), ms);
      BreaksAfter(c, s, fire, x);
      x := fire + x;
    }
  }

  lemma StartSpoilt(c: Config, s: System, cmd: Command) returns (x: seq<Action>)
    requires c.word > 1 && Starts(cmd) && s.writer.todo == Program(cmd)
    requires s.timer.armed.Some? || !AtRest(s)
    ensures Breaks(c, s, x)
  {
    var s2 := SystemRun(c, s, [Write, Write]);
    assert s2 == SystemStep(c, SystemStep(c, s, Write), Write);
    x := Spoilt(c, s2, cmd.ms);
    BreaksAfter(c, s, [Write, Write], x);
    x := [Write, Write] + x;
  }

  lemma {:induction false} PeriodSpoilt(c: Config, s: System, ms: nat) returns (x: seq<Action>)
    requires c.word > 1 && ms > 0 && Consistent(c, s) && s.writer.todo == Program(Period(ms))
    requires s.timer.armed.Some? || s.timer.mode == Periodic
    ensures Breaks(c, s, x)
    decreases CallbackRank(s.callback)
  {
    if s.timer.armed.Some? {
      var s2 := SystemRun(c, s, [Write, Write]);
      assert s2 == SystemStep(c, SystemStep(c, s, Write), Write);
      x := Spoilt(c, s2, ms);
      BreaksAfter(c, s, [Write, Write], x);
      x := [Write, Write] + x;
    } else {
      x := PeriodSpoilt(c, SystemStep(c, s, Call), ms);
      BreaksAfter(c, s, [Call], x);
      x := [Call] + x;
    }
  }

  // ---------- the exact conditions ----------

  /** From any state at all, the status survives every interleaving of a start or one-shot command
      exactly when, as it begins, nothing is queued and no callback is before its last statement. */
  lemma StartExact(c: Config, s: System, cmd: Command)
    requires c.word > 1 && s.writer.todo == [] && Starts(cmd)
    ensures AlwaysConsistent(c, s, cmd) <==> s.timer.armed.None? && AtRest(s)
  {
    if Safe(s, cmd) {
      SafeIsConsistent(c, s, cmd);
    } else {
      var x := StartSpoilt(c, SystemStep(c, s, Begin(cmd)), cmd);
    }
  }

  /** From a consistent state this is so for every command: `Safe` decides. */
  lemma CommandExact(c: Config, s: System, cmd: Command)
    requires c.word > 1 && s.writer.todo == [] && Consistent(c, s)
    ensures AlwaysConsistent(c, s, cmd) <==> Safe(s, cmd)
  {
    if Safe(s, cmd) {
      SafeIsConsistent(c, s, cmd);
    } else if Starts(cmd) {
      StartExact(c, s, cmd);
    } else {
      var x := PeriodSpoilt(c, SystemStep(c, s, Begin(cmd)), cmd.ms);
    }
  }

  /** A stop first makes every command safe, from any state and with the callback at any statement. */
  lemma SafeAfterStop(c: Config, s: System, during: seq<Action>, cmd: Command)
    requires c.word > 0 && s.writer.todo == [] && NoBegin(during)
    requires SystemRun(c, SystemStep(c, s, Begin(Stop)), during).writer.todo == []
    ensures AlwaysConsistent(c, SystemRun(c, SystemStep(c, s, Begin(Stop)), during), cmd)
  {
    var begun := SystemStep(c, s, Begin(Stop));
    StopRun(c, begun, during);
    SafeIsConsistent(c, SystemRun(c, begun, during), cmd);
  }

  // ---------- whole runs from loading ----------

  /** Every command that is begun is begun when that is safe. */
  predicate BegunWhenSafe(c: Config, s: System, actions: seq<Action>)
    requires c.word > 0
    decreases actions
  {
    actions == []
    || ((actions[0].Begin? && s.writer.todo == [] ==> Safe(s, actions[0].cmd))
        && BegunWhenSafe(c, SystemStep(c, s, actions[0]), actions[1..]))
  }

  lemma {:induction false} SafeRun(c: Config, s: System, cmd: Command, actions: seq<Action>)
    requires c.word > 0 && During(c, s, cmd) && BegunWhenSafe(c, s, actions)
    ensures Settled(SystemRun(c, s, actions)) ==> StatusInv(c, SystemRun(c, s, actions).timer)
    decreases actions
  {
    if actions != [] {
      var a := actions[0];
      var s' := SystemStep(c, s, a);
      if a.Begin? && s.writer.todo == [] {
        SafeRun(c, s', a.cmd, actions[1..]);
      } else if a.Begin? {
        SafeRun(c, s', cmd, actions[1..]);
      } else {
        DuringStep(c, s, cmd, a);
        SafeRun(c, s', cmd, actions[1..]);
      }
    }
  }

  /** From loading on, in every interleaving of commands, callbacks and time in which each command
      begins when that is safe: whenever neither a command nor a callback is under way, the timer is
      queued exactly when the mode is not "stopped", and the next expiry is the queued one or zero. */
  lemma StatusUnderOverlap(c: Config, time: nat, actions: seq<Action>)
    requires c.word > 0 && BegunWhenSafe(c, Fresh(time), actions)
    ensures Settled(SystemRun(c, Fresh(time), actions)) ==> StatusInv(c, SystemRun(c, Fresh(time), actions).timer)
  {
    SafeRun(c, Fresh(time), Unknown, actions);
  }

  lemma OneShotLeft(c: Config, time: nat, ms: nat)
    requires c.word > 0 && ms > 0
    ensures var s := SystemRun(c, Fresh(time), [Begin(OneShot(ms))] + Repeat([Write], 5));
      Settled(s) && StatusInv(c, s.timer) && s.timer.armed.Some?
  {
    RunConcat(c, Fresh(time), [Begin(OneShot(ms))], Repeat([Write], 5));
    UndisturbedStart(c, SystemStep(c, Fresh(time), Begin(OneShot(ms))), OneShot(ms));
  }

  /** And such a loss is reachable: after loading and one whole one-shot command, a start begun with
      no callback running can end with the wrong status. */
  lemma StartLost(c: Config, time: nat, ms: nat) returns (x: seq<Action>)
    requires c.word > 1 && ms > 0
    ensures var oneShot := [Begin(OneShot(ms))] + Repeat([Write], 5);
      && Settled(SystemRun(c, Fresh(time), oneShot))
      && StatusInv(c, SystemRun(c, Fresh(time), oneShot).timer)
      && NoBegin(x)
      && var s := SystemRun(c, Fresh(time), oneShot + ([Begin(Start(ms))] + x));
         Settled(s) && !StatusInv(c, s.timer)
  {
    var oneShot := [Begin(OneShot(ms))] + Repeat([Write], 5);
    OneShotLeft(c, time, ms);
    var s := SystemRun(c, Fresh(time), oneShot);
    x := StartSpoilt(c, SystemStep(c, s, Begin(Start(ms))), Start(ms));
    RunConcat(c, Fresh(time), oneShot, [Begin(Start(ms))] + x);
    RunConcat(c, s, [Begin(Start(ms))], x);
  }
}
