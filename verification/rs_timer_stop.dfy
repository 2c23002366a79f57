/**
 `stop` against a running callback: the statements of one writer's command and of the callback on
 another processor interleave freely with time and with the kernel firing the timer.
 */
module RsTimerStop {
  import opened Common
  import opened RsTimer

  /** The statements of a command. `IfPending` guards the rest of a `period` command;
      `DeleteSync` waits for a running callback and then takes the timer off the queue. */
  datatype Statement =
    | SetPeriod(ms: nat) | SetMode(mode: Mode) | Compute(ms: nat) | SaveNext | ModTimer
    | IfPending | DeleteSync | ClearNext | ClearTicks | ClearLast

  /** The writer's remaining statements, and its local expiry. */
  datatype Writer = Writer(todo: seq<Statement>, expiry: nat)

  /** Where the callback is; its locals are what it has read so far. */
  datatype Callback =
    | Dormant
    | Counting
    | ReadingMode
    | ReadingPeriod(mode: Mode)
    | Stamping(mode: Mode, period: nat)
    | Branching(mode: Mode, period: nat)
    | SavingNext(expiry: nat)
    | Rearming(expiry: nat)
    | Stopping
    | Clearing
    | Ending

  datatype System = System(timer: Timer, writer: Writer, callback: Callback)

  /** The module as loaded. */
  function Fresh(time: nat): System {
    System(Load(time), Writer([], 0), Dormant)
  }

  /** No callback is before its last statement. */
  predicate AtRest(s: System) {
    s.callback.Dormant? || s.callback.Ending?
  }

  datatype Action = Begin(cmd: Command) | Write | Call | Fire | Tick

  function Program(cmd: Command): seq<Statement> {
    match cmd
    case Start(ms) =>
      if ms == 0 then [] else [SetPeriod(ms), SetMode(Periodic), Compute(ms), SaveNext, ModTimer]
    case OneShot(ms) =>
      if ms == 0 then [] else [SetPeriod(ms), SetMode(Oneshot), Compute(ms), SaveNext, ModTimer]
    case Period(ms) =>
      if ms == 0 then [] else [SetPeriod(ms), IfPending, Compute(ms), SaveNext, ModTimer]
    case Stop => [SetMode(Stopped), DeleteSync, ClearNext]
    case Reset => [ClearTicks, ClearLast]
    case Unknown => []
  }

  /** The writer's next statement; a blocked one changes nothing. */
  function WriterStep(c: Config, s: System): System
    requires c.word > 0 && s.writer.todo != []
  {
    var t := s.timer;
    var rest := s.(writer := s.writer.(todo := s.writer.todo[1..]));
    match s.writer.todo[0]
    case SetPeriod(ms) => rest.(timer := t.(periodMs := ms))
    case SetMode(mode) => rest.(timer := t.(mode := mode))
    case Compute(ms) => rest.(writer := rest.writer.(expiry := t.time + Delay(c, ms)))
    case SaveNext => rest.(timer := t.(nextExpiry := s.writer.expiry % c.word))
    case ModTimer => rest.(timer := t.(armed := Some(s.writer.expiry)))
    case IfPending => if t.armed.Some? then rest else s.(writer := s.writer.(todo := []))
    case DeleteSync => if s.callback.Dormant? then rest.(timer := t.(armed := None)) else s
    case ClearNext => rest.(timer := t.(nextExpiry := 0))
    case ClearTicks => rest.(timer := t.(tickCount := 0))
    case ClearLast => rest.(timer := t.(lastTick := 0))
  }

  /** The callback's next statement. */
  function CallbackStep(c: Config, s: System): System
    requires c.word > 0
  {
    var t := s.timer;
    match s.callback
    case Dormant => s
    case Counting => s.(timer := t.(tickCount := (t.tickCount + 1) % WORD32), callback := ReadingMode)
    case ReadingMode => s.(callback := ReadingPeriod(t.mode))
    case ReadingPeriod(mode) => s.(callback := Stamping(mode, t.periodMs))
    case Stamping(mode, period) =>
      s.(timer := t.(lastTick := t.time % c.word), callback := Branching(mode, period))
    case Branching(mode, period) =>
      s.(callback := if mode == Periodic then SavingNext(t.time + Delay(c, period)) else Stopping)
    case SavingNext(e) => s.(timer := t.(nextExpiry := e % c.word), callback := Rearming(e))
    case Rearming(e) => s.(timer := t.(armed := Some(e)), callback := Ending)
    case Stopping => s.(timer := t.(mode := Stopped), callback := Clearing)
    case Clearing => s.(timer := t.(nextExpiry := 0), callback := Ending)
    case Ending => s.(callback := Dormant)
  }

  /** One action; what cannot happen now changes nothing. One writer means that a command begins
      only when the previous one has returned. */
  function SystemStep(c: Config, s: System, a: Action): System
    requires c.word > 0
  {
    match a
    case Begin(cmd) =>
      if s.writer.todo == [] then s.(writer := s.writer.(todo := Program(cmd))) else s
    case Write => if s.writer.todo != [] then WriterStep(c, s) else s
    case Call => CallbackStep(c, s)
    case Fire =>
      if Fired(s, a) then s.(timer := s.timer.(armed := None), callback := Counting) else s
    case Tick => s.(timer := s.timer.(time := s.timer.time + 1))
  }

  function SystemRun(c: Config, s: System, actions: seq<Action>): System
    requires c.word > 0
    decreases actions
  {
    if actions == [] then s else SystemRun(c, SystemStep(c, s, actions[0]), actions[1..])
  }

  lemma {:induction false} RunConcat(c: Config, s: System, x: seq<Action>, y: seq<Action>)
    requires c.word > 0
    ensures SystemRun(c, s, x + y) == SystemRun(c, SystemRun(c, s, x), y)
    decreases x
  {
    if x == [] {
      assert x + y == y;
    } else {
      assert (x + y)[1..] == x[1..] + y;
      RunConcat(c, SystemStep(c, s, x[0]), x[1..], y);
    }
  }

  /** The kernel takes a due timer off its queue and starts the callback. */
  predicate Fired(s: System, a: Action) {
    a.Fire? && Due(s.timer) && s.callback.Dormant?
  }

  /** How often the callback was fired. */
  function Fires(c: Config, s: System, actions: seq<Action>): nat
    requires c.word > 0
    decreases actions
  {
    if actions == [] then 0
    else (if Fired(s, actions[0]) then 1 else 0) + Fires(c, SystemStep(c, s, actions[0]), actions[1..])
  }

  // ---------- stop is final ----------

  /** Not queued, not running, mode stopped, no next expiry. */
  predicate Quiet(s: System) {
    && s.timer.armed.None? && s.callback.Dormant?
    && s.timer.mode == Stopped && s.timer.nextExpiry == 0
  }

  /** What holds between the statements of a stop command, whatever the callback is doing. */
  predicate StopInv(s: System) {
    var todo := s.writer.todo;
    && (todo == Program(Stop)
        || todo == [DeleteSync, ClearNext]
        || todo == [ClearNext]
        || todo == [])
    && (todo != Program(Stop) ==> s.timer.mode == Stopped)
    && (|todo| <= 1 ==> s.timer.armed.None? && s.callback.Dormant?)
    && (todo == [] ==> s.timer.nextExpiry == 0)
  }

  predicate NoBegin(actions: seq<Action>) {
    forall i | 0 <= i < |actions| :: !actions[i].Begin?
  }

  lemma StopStep(c: Config, s: System, a: Action)
    requires c.word > 0 && StopInv(s) && !a.Begin?
    ensures StopInv(SystemStep(c, s, a))
  {
  }

  lemma {:induction false} StopRun(c: Config, s: System, actions: seq<Action>)
    requires c.word > 0 && StopInv(s) && NoBegin(actions)
    ensures StopInv(SystemRun(c, s, actions))
    decreases actions
  {
    if actions != [] {
      StopStep(c, s, actions[0]);
      StopRun(c, SystemStep(c, s, actions[0]), actions[1..]);
    }
  }

  /** Statements that cannot wake a quiet timer: arming happens only behind the pending test. */
  predicate Harmless(todo: seq<Statement>)
    decreases todo
  {
    todo == []
    || todo[0].IfPending?
    || (todo[0] in {SetMode(Stopped), DeleteSync, ClearNext, ClearTicks, ClearLast} && Harmless(todo[1..]))
    || (todo[0].SetPeriod? && Harmless(todo[1..]))
  }

  lemma ProgramsHarmless(cmd: Command)
    requires !cmd.Start? && !cmd.OneShot?
    ensures Harmless(Program(cmd))
  {
    match cmd
    case Period(ms) =>
      if ms > 0 {
        assert Harmless(Program(cmd)[1..]);
      }
    case Stop =>
      assert Program(cmd)[1..] == [DeleteSync, ClearNext];
      assert Program(cmd)[1..][1..] == [ClearNext];
      assert Harmless([ClearNext]);
    case Reset =>
      assert Program(cmd)[1..] == [ClearLast];
      assert Harmless([ClearLast]);
    case Unknown =>
  }

  predicate NoStart(actions: seq<Action>) {
    forall i | 0 <= i < |actions| ::
      actions[i].Begin? ==> !actions[i].cmd.Start? && !actions[i].cmd.OneShot?
  }

  lemma SilentStep(c: Config, s: System, a: Action)
    requires c.word > 0 && Quiet(s) && Harmless(s.writer.todo)
    requires a.Begin? ==> !a.cmd.Start? && !a.cmd.OneShot?
    ensures Quiet(SystemStep(c, s, a)) && Harmless(SystemStep(c, s, a).writer.todo)
  {
    if a.Begin? {
      ProgramsHarmless(a.cmd);
    }
  }

  lemma {:induction false} SilentRun(c: Config, s: System, actions: seq<Action>)
    requires c.word > 0 && Quiet(s) && Harmless(s.writer.todo) && NoStart(actions)
    ensures Quiet(SystemRun(c, s, actions)) && Fires(c, s, actions) == 0
    decreases actions
  {
    if actions != [] {
      SilentStep(c, s, actions[0]);
      SilentRun(c, SystemStep(c, s, actions[0]), actions[1..]);
    }
  }

  /** From any state at all, with the callback at any statement: when a stop command has returned,
      the timer is off the queue, the callback idle, the mode stopped and the next expiry zero; and
      until a later start or one-shot command nothing changes that and the callback never runs. */
  lemma StopIsFinal(c: Config, s: System, during: seq<Action>, after: seq<Action>)
    requires c.word > 0 && s.writer.todo == []
    requires NoBegin(during) && NoStart(after)
    requires SystemRun(c, SystemStep(c, s, Begin(Stop)), during).writer.todo == []
    ensures var stopped := SystemRun(c, SystemStep(c, s, Begin(Stop)), during);
      && Quiet(stopped)
      && Quiet(SystemRun(c, stopped, after))
      && Fires(c, stopped, after) == 0
  {
    var s1 := SystemStep(c, s, Begin(Stop));
    StopRun(c, s1, during);
    SilentRun(c, SystemRun(c, s1, during), after);
  }

  /** Statements the callback still has to execute. */
  function CallbackRank(cb: Callback): nat {
    match cb
    case Dormant => 0
    case Ending => 1
    case Rearming(e) => 2
    case Clearing => 2
    case SavingNext(e) => 3
    case Stopping => 3
    case Branching(m, p) => 4
    case Stamping(m, p) => 5
    case ReadingPeriod(m) => 6
    case ReadingMode => 7
    case Counting => 8
  }

  /** The wait inside stop ends: some continuation, in which only the callback and then the writer
      move, returns from the command. */
  lemma {:induction false} StopReturns(c: Config, s: System) returns (rest: seq<Action>)
    requires c.word > 0 && StopInv(s)
    ensures NoBegin(rest) && |rest| <= CallbackRank(s.callback) + |s.writer.todo|
    ensures SystemRun(c, s, rest).writer.todo == []
    decreases CallbackRank(s.callback) + |s.writer.todo|
  {
    if s.writer.todo == [] {
      rest := [];
    } else {
      var a := if s.writer.todo[0].DeleteSync? && !s.callback.Dormant? then Call else Write;
      StopStep(c, s, a);
      var tail := StopReturns(c, SystemStep(c, s, a));
      rest := [a] + tail;
      assert rest[1..] == tail;
    }
  }

  /** The callback may be fired once more: the timer is queued, or a callback that has read "periodic" is
      yet to queue it. */
  function ToFire(s: System): nat {
    if s.timer.armed.Some? || s.callback.SavingNext? || s.callback.Rearming?
       || (s.callback.ReadingPeriod? && s.callback.mode == Periodic)
       || (s.callback.Stamping? && s.callback.mode == Periodic)
       || (s.callback.Branching? && s.callback.mode == Periodic)
    then 1 else 0
  }

  /** The callback is fired, or executes a statement. */
  predicate CallbackMoves(s: System, a: Action) {
    Fired(s, a) || (a.Call? && !s.callback.Dormant?)
  }

  function CallbackWork(c: Config, s: System, actions: seq<Action>): nat
    requires c.word > 0
    decreases actions
  {
    if actions == [] then 0
    else (if CallbackMoves(s, actions[0]) then 1 else 0) + CallbackWork(c, SystemStep(c, s, actions[0]), actions[1..])
  }

  /** A stop's wait cannot be starved. Once the mode is set, in every interleaving the callback is fired
      at most once more, and executes no more than what it has left and one whole callback; so it is
      idle from then on, and the wait can end. */
  lemma {:induction false} StopNotStarved(c: Config, s: System, actions: seq<Action>)
    requires c.word > 0 && StopInv(s) && s.writer.todo != Program(Stop) && NoBegin(actions)
    ensures Fires(c, s, actions) <= ToFire(s)
    ensures CallbackWork(c, s, actions) <= CallbackRank(s.callback) + 9 * ToFire(s)
    decreases actions
  {
    if actions != [] {
      StopStep(c, s, actions[0]);
      StopNotStarved(c, SystemStep(c, s, actions[0]), actions[1..]);
    }
  }

  /** A callback that is fired is executed in full, its eight statements one after another and never
      two callbacks at once: whatever else happens, work done and work left add up. */
  lemma {:induction false} CallbackInFull(c: Config, s: System, actions: seq<Action>)
    requires c.word > 0
    ensures CallbackRank(s.callback) + 9 * Fires(c, s, actions) ==
            CallbackWork(c, s, actions) + CallbackRank(SystemRun(c, s, actions).callback)
    decreases actions
  {
    if actions != [] {
      CallbackInFull(c, SystemStep(c, s, actions[0]), actions[1..]);
    }
  }

  // ---------- how stop and start differ ----------

  /** The case that makes waiting necessary does occur: a callback that read "periodic" before the
      stop began rearms the timer after the mode has been set to stopped. */
  lemma RearmsDuringStop(c: Config, t: Timer, period: nat)
    requires c.word > 0
    ensures var s := System(t, Writer([], 0), Branching(Periodic, period));
      var s' := SystemRun(c, s, [Begin(Stop), Write, Call, Call, Call]);
      s'.timer.mode == Stopped && s'.timer.armed.Some? && s'.writer.todo == [DeleteSync, ClearNext]
  {
  }

  predicate NoCall(actions: seq<Action>) {
    forall i | 0 <= i < |actions| :: !actions[i].Call?
  }

  lemma {:induction false} CallbackStays(c: Config, s: System, actions: seq<Action>)
    requires c.word > 0 && NoCall(actions) && !s.callback.Dormant?
    ensures SystemRun(c, s, actions).callback == s.callback
    decreases actions
  {
    if actions != [] {
      CallbackStays(c, SystemStep(c, s, actions[0]), actions[1..]);
    }
  }

  /** The callback reads the mode and the period once: whatever is commanded after that, it acts on what
      it has read, and queues the expiry it has computed. */
  lemma ReadOnce(c: Config, s: System, actions: seq<Action>)
    requires c.word > 0 && NoCall(actions) && !s.callback.Dormant?
    ensures var before := SystemRun(c, s, actions);
      var cb, after := s.callback, SystemStep(c, before, Call);
      && (cb.ReadingPeriod? ==> after.callback == Stamping(cb.mode, before.timer.periodMs))
      && (cb.Stamping? ==> after.callback == Branching(cb.mode, cb.period))
      && (cb.Branching? && cb.mode == Periodic ==>
            after.callback == SavingNext(before.timer.time + Delay(c, cb.period)))
      && (cb.Branching? && cb.mode != Periodic ==> after.callback == Stopping)
      && (cb.SavingNext? ==> after.callback == Rearming(cb.expiry) && after.timer.nextExpiry == cb.expiry % c.word)
      && (cb.Rearming? ==> after.timer.armed == Some(cb.expiry))
  {
    CallbackStays(c, s, actions);
  }

  // ---------- undisturbed handlers are the atomic ones ----------

  lemma {:induction false} Wait(c: Config, s: System, k: nat)
    requires c.word > 0
    ensures NoBegin(Repeat([Tick], k))
    ensures SystemRun(c, s, Repeat([Tick], k)) == s.(timer := s.timer.(time := s.timer.time + k))
    decreases k
  {
    if k > 0 {
      Wait(c, SystemStep(c, s, Tick), k - 1);
    }
  }

  /** A start or one-shot command that nobody interrupts, whatever the callback is doing. */
  lemma UndisturbedStart(c: Config, s: System, cmd: Command)
    requires c.word > 0 && ((cmd.Start? && cmd.ms > 0) || (cmd.OneShot? && cmd.ms > 0))
    requires s.writer.todo == Program(cmd)
    ensures SystemRun(c, s, Repeat([Write], 5)).timer == Execute(c, s.timer, cmd).0
    ensures SystemRun(c, s, Repeat([Write], 5)).callback == s.callback
    ensures SystemRun(c, s, Repeat([Write], 5)).writer.todo == []
  {
    var s1 := SystemStep(c, s, Write);
    var s2 := SystemStep(c, s1, Write);
    assert s2.writer.todo == [Compute(cmd.ms), SaveNext, ModTimer];
  }

  lemma UndisturbedPeriod(c: Config, s: System, ms: nat)
    requires c.word > 0 && ms > 0
    requires s.writer.todo == Program(Period(ms))
    ensures SystemRun(c, s, Repeat([Write], 5)).timer == Execute(c, s.timer, Period(ms)).0
  {
    var s1 := SystemStep(c, s, Write);
    var s2 := SystemStep(c, s1, Write);
    if s.timer.armed.Some? {
      assert s2.writer.todo == [Compute(ms), SaveNext, ModTimer];
    } else {
      assert s2.writer.todo == [];
      NothingToWrite(c, s2, 3);
    }
  }

  lemma {:induction false} NothingToWrite(c: Config, s: System, k: nat)
    requires c.word > 0 && s.writer.todo == []
    ensures SystemRun(c, s, Repeat([Write], k)) == s
    decreases k
  {
    if k > 0 {
      NothingToWrite(c, s, k - 1);
    }
  }

  lemma UndisturbedStop(c: Config, s: System)
    requires c.word > 0 && s.writer.todo == Program(Stop) && s.callback.Dormant?
    ensures SystemRun(c, s, Repeat([Write], 5)).timer == Execute(c, s.timer, Stop).0
  {
  }

  lemma UndisturbedReset(c: Config, s: System)
    requires c.word > 0 && s.writer.todo == Program(Reset)
    ensures SystemRun(c, s, Repeat([Write], 5)).timer == Execute(c, s.timer, Reset).0
  {
  }

  /** Statement by statement and left alone, every command is the atomic command. */
  lemma UndisturbedCommand(c: Config, s: System, cmd: Command)
    requires c.word > 0 && s.writer.todo == [] && s.callback.Dormant?
    ensures SystemRun(c, SystemStep(c, s, Begin(cmd)), Repeat([Write], 5)).timer == Execute(c, s.timer, cmd).0
  {
    var s' := SystemStep(c, s, Begin(cmd));
    if Program(cmd) == [] {
      NothingToWrite(c, s', 5);
    } else {
      match cmd
      case Start(ms) => UndisturbedStart(c, s', cmd);
      case OneShot(ms) => UndisturbedStart(c, s', cmd);
      case Period(ms) => UndisturbedPeriod(c, s', ms);
      case Stop => UndisturbedStop(c, s');
      case Reset => UndisturbedReset(c, s');
    }
  }

  /** And the callback, left alone, is the atomic callback. */
  lemma UndisturbedCallback(c: Config, s: System)
    requires c.word > 0 && s.callback.Dormant? && Due(s.timer)
    ensures SystemRun(c, SystemStep(c, s, Fire), Repeat([Call], 8)) == s.(timer := RsTimer.Step(c, s.timer, Expire))
  {
  }
}
