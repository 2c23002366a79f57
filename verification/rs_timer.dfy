/**
 The low-resolution timer's command machine: what a written command, an expiry and the passing of a
 jiffy do when each handler runs undisturbed.

 Time is counted in jiffies since boot without wrapping; the driver sees it reduced to a machine
 word. The expiry of the queued timer is kept unreduced too, as the moment the kernel fires it.
 */
module RsTimer {
  import opened Common
  import opened Modular

  datatype Mode = Stopped | Periodic | Oneshot

  /** `word` is the number of values of `unsigned long`, `jiffiesFor` the kernel's conversion. */
  datatype Config = Config(word: nat, jiffiesFor: nat -> nat)

  /** A word of whole quarters; a conversion never exceeds a quarter of it. */
  ghost predicate ValidConfig(c: Config) {
    c.word > 0 && c.word % 4 == 0 && forall ms :: c.jiffiesFor(ms) <= c.word / 4
  }

  /** The driver's variables and the kernel timer. `tickCount` is the 32-bit pattern of the counter. */
  datatype Timer = Timer(
    mode: Mode, periodMs: nat, nextExpiry: nat, lastTick: nat, tickCount: nat,
    armed: Option<nat>, time: nat)

  datatype Command = Start(ms: nat) | OneShot(ms: nat) | Period(ms: nat) | Stop | Reset | Unknown

  function Delay(c: Config, ms: nat): nat {
    if c.jiffiesFor(ms) == 0 then 1 else c.jiffiesFor(ms)
  }

  /** The state the module is loaded in at some moment: nothing queued, a period of one second. */
  function Load(time: nat): Timer {
    Timer(Stopped, 1000, 0, 0, 0, None, time)
  }

  /** Queue the timer `ms` from now and note the expiry. */
  function Arm(c: Config, t: Timer, ms: nat): Timer
    requires c.word > 0
  {
    var e := t.time + Delay(c, ms);
    t.(nextExpiry := e % c.word, armed := Some(e))
  }

  /** The write handler: new state and error number, zero for success. */
  function Execute(c: Config, t: Timer, cmd: Command): (Timer, int)
    requires c.word > 0
  {
    match cmd
    case Start(ms) =>
      if ms == 0 then (t, -EINVAL) else (Arm(c, t.(periodMs := ms, mode := Periodic), ms), 0)
    case OneShot(ms) =>
      if ms == 0 then (t, -EINVAL) else (Arm(c, t.(periodMs := ms, mode := Oneshot), ms), 0)
    case Period(ms) =>
      if ms == 0 then (t, -EINVAL)
      else
        var t' := t.(periodMs := ms);
        (if t.armed.Some? then Arm(c, t', ms) else t', 0)
    case Stop => (t.(mode := Stopped, armed := None, nextExpiry := 0), 0)
    case Reset => (t.(tickCount := 0, lastTick := 0), 0)
    case Unknown => (t, -EINVAL)
  }

  /** The timer callback, on a timer the kernel has just taken off its queue. */
  function Callback(c: Config, t: Timer): Timer
    requires c.word > 0
  {
    var t' := t.(tickCount := (t.tickCount + 1) % WORD32, lastTick := t.time % c.word);
    if t.mode == Periodic then Arm(c, t', t.periodMs) else t'.(mode := Stopped, nextExpiry := 0)
  }

  predicate Due(t: Timer) {
    t.armed.Some? && t.armed.value <= t.time
  }

  datatype Event = Written(cmd: Command) | Elapse | Expire

  /** One event; an expiry that is not due does not happen. */
  function Step(c: Config, t: Timer, e: Event): Timer
    requires c.word > 0
  {
    match e
    case Written(cmd) => Execute(c, t, cmd).0
    case Elapse => t.(time := t.time + 1)
    case Expire => if Due(t) then Callback(c, t.(armed := None)) else t
  }

  function Run(c: Config, t: Timer, events: seq<Event>): Timer
    requires c.word > 0
    decreases events
  {
    if events == [] then t else Run(c, Step(c, t, events[0]), events[1..])
  }

  /** How often the callback ran. */
  function Ticks(c: Config, t: Timer, events: seq<Event>): nat
    requires c.word > 0
    decreases events
  {
    if events == [] then 0
    else (if events[0].Expire? && Due(t) then 1 else 0) + Ticks(c, Step(c, t, events[0]), events[1..])
  }

  // ---------- the status variables ----------

  predicate StatusInv(c: Config, t: Timer)
    requires c.word > 0
  {
    && (t.armed.Some? <==> t.mode != Stopped)
    && t.nextExpiry == if t.armed.Some? then t.armed.value % c.word else 0
  }

  /** After any commands, rejected ones included, and any expiries: the timer is queued exactly when
      the mode is not "stopped", and the stored next expiry is the queued one, or zero. */
  lemma {:induction false} StatusConsistent(c: Config, t: Timer, events: seq<Event>)
    requires c.word > 0 && StatusInv(c, t)
    ensures StatusInv(c, Run(c, t, events))
    decreases events
  {
    if events != [] {
      StatusConsistent(c, Step(c, t, events[0]), events[1..]);
    }
  }

  /** Callbacks since the last reset command, `n` having gone before. */
  function SinceReset(c: Config, t: Timer, events: seq<Event>, n: nat): nat
    requires c.word > 0
    decreases events
  {
    if events == [] then n
    else
      var fired := if events[0].Expire? && Due(t) then 1 else 0;
      SinceReset(c, Step(c, t, events[0]), events[1..], if events[0] == Written(Reset) then 0 else n + fired)
  }

  /** The displayed counter is the number of callbacks since the last reset, as a 32-bit pattern. */
  lemma {:induction false} CounterCounts(c: Config, t: Timer, events: seq<Event>, n: nat)
    requires c.word > 0 && t.tickCount == n % WORD32
    ensures Run(c, t, events).tickCount == SinceReset(c, t, events, n) % WORD32
    decreases events
  {
    if events != [] {
      var fired := if events[0].Expire? && Due(t) then 1 else 0;
      ModAdd(n, 1, WORD32);
      CounterCounts(c, Step(c, t, events[0]), events[1..],
                    if events[0] == Written(Reset) then 0 else n + fired);
    }
  }

  predicate NoCommand(events: seq<Event>) {
    forall i | 0 <= i < |events| :: !events[i].Written?
  }

  /** A queued one-shot timer ticks exactly once, not before its time, and then is stopped. */
  lemma {:induction false} OneshotTicksOnce(c: Config, t: Timer, events: seq<Event>)
    requires c.word > 0 && NoCommand(events) && t.mode == Oneshot && t.armed.Some?
    ensures var t' := Run(c, t, events);
      && Ticks(c, t, events) == (if t'.armed.Some? then 0 else 1)
      && (t'.armed.Some? ==> t'.armed == t.armed && t'.mode == Oneshot)
      && (t'.armed.None? ==> t'.mode == Stopped && t'.nextExpiry == 0 && t'.time >= t.armed.value)
    decreases events
  {
    if events != [] {
      var t1 := Step(c, t, events[0]);
      if t1.armed.Some? {
        OneshotTicksOnce(c, t1, events[1..]);
      } else {
        SilentWhenStopped(c, t1, events[1..]);
      }
    }
  }

  lemma {:induction false} SilentWhenStopped(c: Config, t: Timer, events: seq<Event>)
    requires c.word > 0 && NoCommand(events) && t.armed.None?
    ensures var t' := Run(c, t, events);
      Ticks(c, t, events) == 0 && t' == t.(time := t'.time) && t'.time >= t.time
    decreases events
  {
    if events != [] {
      SilentWhenStopped(c, Step(c, t, events[0]), events[1..]);
    }
  }

  // ---------- tick rates ----------

  /** Ticks so far have their own jiffies, and a queued one has another ahead of it. */
  predicate RateInv(t: Timer, start: nat, ticks: nat) {
    && start + ticks <= t.time
    && (t.armed.Some? ==> start + ticks + 1 <= t.armed.value)
  }

  lemma {:induction false} TickBoundFrom(c: Config, t: Timer, events: seq<Event>, start: nat, ticks: nat)
    requires c.word > 0 && RateInv(t, start, ticks)
    ensures RateInv(Run(c, t, events), start, ticks + Ticks(c, t, events))
    decreases events
  {
    if events != [] {
      var fired := if events[0].Expire? && Due(t) then 1 else 0;
      TickBoundFrom(c, Step(c, t, events[0]), events[1..], start, ticks + fired);
    }
  }

  /** Under any commands, the callback never runs more often than jiffies pass after loading. */
  lemma TickBound(c: Config, time: nat, events: seq<Event>)
    requires c.word > 0
    ensures Ticks(c, Load(time), events) <= Run(c, Load(time), events).time - time
  {
    TickBoundFrom(c, Load(time), events, time, 0);
  }

  /** With an undisturbed periodic timer, the `k`-th tick is at least `k` delays after the start. */
  lemma {:induction false} PeriodicRateFrom(c: Config, t: Timer, events: seq<Event>, start: nat, ticks: nat)
    requires c.word > 0 && NoCommand(events) && t.mode == Periodic && t.armed.Some?
    requires start + ticks * Delay(c, t.periodMs) <= t.time
    requires start + (ticks + 1) * Delay(c, t.periodMs) <= t.armed.value
    ensures start + (ticks + Ticks(c, t, events)) * Delay(c, t.periodMs) <= Run(c, t, events).time
    decreases events
  {
    if events != [] {
      var d := Delay(c, t.periodMs);
      var fired := if events[0].Expire? && Due(t) then 1 else 0;
      assert (ticks + 1 + 1) * d == (ticks + 1) * d + d;
      PeriodicRateFrom(c, Step(c, t, events[0]), events[1..], start, ticks + fired);
    }
  }

  lemma PeriodicRate(c: Config, t: Timer, ms: nat, events: seq<Event>)
    requires c.word > 0 && ms > 0 && NoCommand(events)
    ensures var t1 := Execute(c, t, Start(ms)).0;
      Ticks(c, t1, events) * Delay(c, ms) <= Run(c, t1, events).time - t.time
  {
    PeriodicRateFrom(c, Execute(c, t, Start(ms)).0, events, t.time, 0);
  }

  /** Jiffies that each give the kernel a chance to fire the timer. */
  function Prompt(k: nat): seq<Event> {
    if k == 0 then [] else [Elapse, Expire] + Prompt(k - 1)
  }

  lemma PromptJiffy(c: Config, t: Timer, k: nat)
    requires c.word > 0 && k > 0
    ensures var t1 := t.(time := t.time + 1);
      Ticks(c, t, Prompt(k)) ==
      (if Due(t1) then 1 else 0) + Ticks(c, Step(c, t1, Expire), Prompt(k - 1))
  {
  }

  lemma SmallQuotient(x: nat, d: nat)
    requires x < d
    ensures x / d == 0
  {
  }

  lemma NextQuotient(x: nat, d: nat)
    requires d > 0
    ensures (x + d) / d == x / d + 1
  {
    ModShift(x, 1, d);
    assert ((x + d) / d - x / d - 1) * d == 0;
    ProductSign((x + d) / d - x / d - 1, d);
  }

  /** Fired promptly, a periodic timer ticks exactly once in every delay. */
  lemma {:induction false} PromptRateFrom(c: Config, t: Timer, k: nat, wait: nat)
    requires c.word > 0 && t.mode == Periodic && t.armed == Some(t.time + wait)
    requires 0 < wait <= Delay(c, t.periodMs)
    ensures Ticks(c, t, Prompt(k)) == (k + Delay(c, t.periodMs) - wait) / Delay(c, t.periodMs)
    decreases k
  {
    var d := Delay(c, t.periodMs);
    if k == 0 {
      SmallQuotient(d - wait, d);
    } else {
      PromptJiffy(c, t, k);
      var t1 := Step(c, t.(time := t.time + 1), Expire);
      if wait == 1 {
        PromptRateFrom(c, t1, k - 1, d);
        NextQuotient(k - 1, d);
      } else {
        PromptRateFrom(c, t1, k - 1, wait - 1);
      }
    }
  }

  lemma PromptRate(c: Config, t: Timer, ms: nat, k: nat)
    requires c.word > 0 && ms > 0
    ensures Ticks(c, Execute(c, t, Start(ms)).0, Prompt(k)) == k / Delay(c, ms)
  {
    PromptRateFrom(c, Execute(c, t, Start(ms)).0, k, Delay(c, ms));
  }

  // ---------- what a status read computes ----------

  /** The wrap-safe comparison: the difference, as a signed word, is negative. */
  predicate TimeAfter(c: Config, a: nat, b: nat)
    requires c.word > 0
  {
    (b - a) % c.word >= c.word / 2
  }

  /** The jiffies a status read reports as remaining. */
  function Remaining(c: Config, t: Timer): nat
    requires c.word > 0
  {
    var now := t.time % c.word;
    if t.armed.Some? && TimeAfter(c, t.nextExpiry, now) then (t.nextExpiry - now) % c.word else 0
  }

  function TrueRemaining(t: Timer): nat {
    if t.armed.Some? && t.armed.value > t.time then t.armed.value - t.time else 0
  }

  /** No command arms the timer further ahead than a quarter word. */
  predicate AheadInv(c: Config, t: Timer) {
    t.armed.Some? ==> t.armed.value <= t.time + c.word / 4
  }

  lemma {:induction false} NeverFarAhead(c: Config, t: Timer, events: seq<Event>)
    requires ValidConfig(c) && AheadInv(c, t)
    ensures AheadInv(c, Run(c, t, events))
    decreases events
  {
    if events != [] {
      assert AheadInv(c, Step(c, t, events[0])) by {
        assert c.word / 4 >= 1;
        assert forall ms :: Delay(c, ms) <= c.word / 4 by {
          forall ms ensures Delay(c, ms) <= c.word / 4 {
            assert c.jiffiesFor(ms) <= c.word / 4;
          }
        }
      }
      NeverFarAhead(c, Step(c, t, events[0]), events[1..]);
    }
  }

  lemma WrappedDifference(c: Config, a: nat, b: nat)
    requires c.word > 0
    ensures (a % c.word - b % c.word) % c.word == (a - b) % c.word
  {
    ModShift(a % c.word - b % c.word, a / c.word - b / c.word, c.word);
    assert a - b == a % c.word - b % c.word + (a / c.word - b / c.word) * c.word;
  }

  /** Ahead of now by at most a quarter word, the wrapped test and difference are the true ones. */
  lemma WrappedAhead(c: Config, e: nat, now: nat)
    requires c.word > 0 && c.word % 4 == 0 && now < e <= now + c.word / 4
    ensures TimeAfter(c, e % c.word, now % c.word)
    ensures (e % c.word - now % c.word) % c.word == e - now
  {
    WrappedDifference(c, e, now);
    WrappedDifference(c, now, e);
    ModUnique(now - e, c.word, -1, now - e + c.word);
    ModUnique(e - now, c.word, 0, e - now);
  }

  /** At or behind now, the wrapped test fails as it should unless the lag, modulo the word, is half
      a word or more; then the wrapped difference is not zero. */
  lemma WrappedBehind(c: Config, e: nat, now: nat)
    requires c.word > 0 && e <= now
    ensures TimeAfter(c, e % c.word, now % c.word) <==> (now - e) % c.word >= c.word / 2
    ensures (now - e) % c.word > 0 ==> (e % c.word - now % c.word) % c.word > 0
  {
    WrappedDifference(c, e, now);
    WrappedDifference(c, now, e);
    var r := (now - e) % c.word;
    if r > 0 {
      ModUnique(e - now, c.word, -1 - (now - e) / c.word, c.word - r);
    }
  }

  /** For every jiffies value: the reported remaining time of a run is the true one, unless the
      kernel is late by half a word or more, counted modulo the word. */
  lemma RemainingIsTrue(c: Config, t: Timer)
    requires ValidConfig(c) && StatusInv(c, t) && AheadInv(c, t)
    ensures Remaining(c, t) == TrueRemaining(t) <==>
            (Due(t) ==> (t.time - t.armed.value) % c.word < c.word / 2)
  {
    if t.armed.Some? {
      if t.armed.value > t.time {
        WrappedAhead(c, t.armed.value, t.time);
      } else {
        RemainingOfLateTimer(c, t);
      }
    }
  }

  lemma RemainingOfLateTimer(c: Config, t: Timer)
    requires ValidConfig(c) && StatusInv(c, t) && Due(t)
    ensures Remaining(c, t) == 0 <==> (t.time - t.armed.value) % c.word < c.word / 2
  {
    WrappedBehind(c, t.armed.value, t.time);
    assert c.word / 2 > 0;
  }

  /** The same for every state that commands, expiries and time lead to from loading. */
  lemma RemainingAfterRun(c: Config, time: nat, events: seq<Event>)
    requires ValidConfig(c)
    ensures var t := Run(c, Load(time), events);
      Remaining(c, t) == TrueRemaining(t) <==>
      (Due(t) ==> (t.time - t.armed.value) % c.word < c.word / 2)
  {
    StatusConsistent(c, Load(time), events);
    NeverFarAhead(c, Load(time), events);
    RemainingIsTrue(c, Run(c, Load(time), events));
  }
}
