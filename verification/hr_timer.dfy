/**
 The bounded high-resolution timer: a callback that counts its runs in a 32-bit integer, stops after
 a number of ticks, and otherwise moves its expiry along a grid of whole intervals.
 */
module HrTimer {
  import opened Common

  const HALF: nat := 0x8000_0000

  /** The signed 32-bit integer with this pattern, as `atomic_inc_return` yields it. */
  function Signed32(x: nat): (y: int)
    ensures -0x8000_0000 <= y < 0x8000_0000 && (y - x) % 0x1_0000_0000 == 0
  {
    var r := x % WORD32;
    if r < HALF then r else r - WORD32
  }

  /** The unsigned 32-bit value of an integer, as the comparison with `max_ticks` takes it. */
  function Unsigned32(x: int): nat {
    x % WORD32
  }

  /** Interval in nanoseconds, tick limit (zero for none), and the moment the module was loaded. */
  datatype Config = Config(interval: nat, maxTicks: nat, loaded: nat)

  predicate ValidConfig(c: Config) {
    c.interval > 0 && c.maxTicks < WORD32
  }

  /** `tickCount` is the signed counter; `expires` matters while the timer is active. */
  datatype Timer = Timer(tickCount: int, expires: nat, active: bool, now: nat)

  function Load(c: Config): Timer {
    Timer(0, c.loaded + c.interval, true, c.loaded)
  }

  /** The least number of whole intervals that takes an expiry past now. */
  function Overruns(expires: nat, now: nat, interval: nat): (k: nat)
    requires interval > 0
    ensures expires + k * interval > now
    ensures k > 0 ==> expires + (k - 1) * interval <= now
  {
    if now < expires then 0
    else
      (now - expires) / interval + 1
  }

  function ForwardNow(c: Config, t: Timer): Timer
    requires c.interval > 0
  {
    t.(expires := t.expires + Overruns(t.expires, t.now, c.interval) * c.interval)
  }

  /** The callback; the kernel restarts the timer unless it says not to. */
  function Callback(c: Config, t: Timer): Timer
    requires c.interval > 0
  {
    var count := Signed32(Unsigned32(t.tickCount) + 1);
    var t' := t.(tickCount := count);
    if c.maxTicks != 0 && Unsigned32(count) >= c.maxTicks then t'.(active := false)
    else ForwardNow(c, t')
  }

  /** Time passes, the kernel runs the callback of a timer that is due, or unloading cancels it. */
  datatype Event = Elapse(ns: nat) | Expire | Cancel

  predicate Due(t: Timer) {
    t.active && t.expires <= t.now
  }

  function Step(c: Config, t: Timer, e: Event): Timer
    requires c.interval > 0
  {
    match e
    case Elapse(ns) => t.(now := t.now + ns)
    case Expire => if Due(t) then Callback(c, t) else t
    case Cancel => t.(active := false)
  }

  function Run(c: Config, t: Timer, events: seq<Event>): Timer
    requires c.interval > 0
    decreases events
  {
    if events == [] then t else Run(c, Step(c, t, events[0]), events[1..])
  }

  function Fired(t: Timer, e: Event): nat {
    if e.Expire? && Due(t) then 1 else 0
  }

  /** How often the callback ran. */
  function Ticks(c: Config, t: Timer, events: seq<Event>): nat
    requires c.interval > 0
    decreases events
  {
    if events == [] then 0
    else Fired(t, events[0]) + Ticks(c, Step(c, t, events[0]), events[1..])
  }

  predicate Uncancelled(events: seq<Event>) {
    forall i | 0 <= i < |events| :: !events[i].Cancel?
  }

  /** A timer that has stopped or has been cancelled never runs its callback again. */
  lemma {:induction false} SilentForGood(c: Config, t: Timer, events: seq<Event>)
    requires c.interval > 0 && !t.active
    ensures Ticks(c, t, events) == 0 && !Run(c, t, events).active
    decreases events
  {
    if events != [] {
      SilentForGood(c, Step(c, t, events[0]), events[1..]);
    }
  }

  /** Nor does one that is cancelled in whatever state. */
  lemma CancelIsFinal(c: Config, t: Timer, events: seq<Event>)
    requires c.interval > 0
    ensures Ticks(c, Step(c, t, Cancel), events) == 0
  {
    SilentForGood(c, Step(c, t, Cancel), events);
  }

  // ---------- the stop count ----------

  /** The counter's pattern is the number of ticks, and a limited timer is active exactly while it has
      ticks left. */
  predicate CountInv(c: Config, t: Timer, ticks: nat) {
    && Unsigned32(t.tickCount) == ticks % WORD32
    && (c.maxTicks == 0 ==> t.active)
    && (c.maxTicks != 0 ==> ticks <= c.maxTicks && (t.active <==> ticks < c.maxTicks))
  }

  predicate OnGrid(c: Config, expires: nat, m: nat) {
    expires == c.loaded + m * c.interval
  }

  /** The expiry lies `m` whole intervals after loading, beyond the ticks so far while the timer is
      active; each tick has had an interval of its own. */
  predicate GridInv(c: Config, t: Timer, ticks: nat, m: nat) {
    && OnGrid(c, t.expires, m)
    && ticks + (if t.active then 1 else 0) <= m
    && c.loaded + ticks * c.interval <= t.now
  }

  lemma MultipleGrows(x: nat, y: nat, d: nat)
    requires x <= y
    ensures x * d <= y * d
  {
  }

  lemma GridTick(c: Config, t: Timer, ticks: nat, m: nat) returns (m': nat)
    requires ValidConfig(c) && GridInv(c, t, ticks, m) && Due(t)
    ensures GridInv(c, Callback(c, t), ticks + 1, m')
  {
    var k := Overruns(t.expires, t.now, c.interval);
    MultipleGrows(ticks + 1, m, c.interval);
    m' := if Callback(c, t).active then m + k else m;
    assert (m + k) * c.interval == m * c.interval + k * c.interval;
  }

  lemma CountTick(c: Config, t: Timer, ticks: nat)
    requires ValidConfig(c) && CountInv(c, t, ticks) && Due(t)
    ensures CountInv(c, Callback(c, t), ticks + 1)
  {
  }

  lemma StepKeeps(c: Config, t: Timer, e: Event, ticks: nat, m: nat) returns (m': nat)
    requires ValidConfig(c) && CountInv(c, t, ticks) && GridInv(c, t, ticks, m) && !e.Cancel?
    ensures CountInv(c, Step(c, t, e), ticks + Fired(t, e))
    ensures GridInv(c, Step(c, t, e), ticks + Fired(t, e), m')
  {
    m' := m;
    if Fired(t, e) == 1 {
      CountTick(c, t, ticks);
      m' := GridTick(c, t, ticks, m);
    }
  }

  lemma {:induction false} RunKeeps(c: Config, t: Timer, events: seq<Event>, ticks: nat, m: nat) returns (m': nat)
    requires ValidConfig(c) && CountInv(c, t, ticks) && GridInv(c, t, ticks, m) && Uncancelled(events)
    ensures CountInv(c, Run(c, t, events), ticks + Ticks(c, t, events))
    ensures GridInv(c, Run(c, t, events), ticks + Ticks(c, t, events), m')
    decreases events
  {
    if events == [] {
      m' := m;
    } else {
      var m1 := StepKeeps(c, t, events[0], ticks, m);
      m' := RunKeeps(c, Step(c, t, events[0]), events[1..], ticks + Fired(t, events[0]), m1);
    }
  }

  /** Uncancelled, whatever the timing, and for limits above the largest signed integer too: a limited timer has
      run its callback at most the limit, and has stopped exactly when it has run it that often; an
      unlimited one never stops. The counter is the number of callbacks as a 32-bit pattern. */
  lemma StopCount(c: Config, events: seq<Event>)
    requires ValidConfig(c) && Uncancelled(events)
    ensures var n, t := Ticks(c, Load(c), events), Run(c, Load(c), events);
      && Unsigned32(t.tickCount) == n % WORD32
      && if c.maxTicks == 0 then t.active
         else n <= c.maxTicks && (!t.active <==> n == c.maxTicks)
  {
    var m := RunKeeps(c, Load(c), events, 0, 1);
  }

  /** Every expiry is on the grid, and the callback has run at most once per elapsed interval. */
  lemma TicksOnGrid(c: Config, events: seq<Event>)
    requires ValidConfig(c) && Uncancelled(events)
    ensures var n, t := Ticks(c, Load(c), events), Run(c, Load(c), events);
      && n * c.interval <= t.now - c.loaded
      && exists m: nat :: OnGrid(c, t.expires, m) && n <= m
  {
    var m := RunKeeps(c, Load(c), events, 0, 1);
    assert OnGrid(c, Run(c, Load(c), events).expires, m);
  }

  /** A limited timer does reach its limit: letting time pass and firing goes on until it stops. */
  lemma {:induction false} ReachesLimit(c: Config, t: Timer, ticks: nat) returns (rest: seq<Event>)
    requires ValidConfig(c) && c.maxTicks != 0 && CountInv(c, t, ticks)
    ensures ticks + Ticks(c, t, rest) == c.maxTicks && !Run(c, t, rest).active
    decreases c.maxTicks - ticks
  {
    if !t.active {
      rest := [];
    } else {
      var wait := Elapse(if t.expires > t.now then t.expires - t.now else 0);
      var t1 := Step(c, t, wait);
      var t2 := Step(c, t1, Expire);
      var tail := ReachesLimit(c, t2, ticks + 1);
      rest := [wait] + ([Expire] + tail);
      assert rest[1..] == [Expire] + tail;
      assert ([Expire] + tail)[1..] == tail;
      assert Ticks(c, t1, [Expire] + tail) == 1 + Ticks(c, t2, tail);
    }
  }

  lemma LimitIsReached(c: Config) returns (events: seq<Event>)
    requires ValidConfig(c) && c.maxTicks != 0
    ensures Ticks(c, Load(c), events) == c.maxTicks && !Run(c, Load(c), events).active
  {
    events := ReachesLimit(c, Load(c), 0);
  }

  // ---------- the rate ----------

  /** The next expiry is never more than an interval ahead. */
  predicate Near(c: Config, t: Timer) {
    t.active ==> t.expires <= t.now + c.interval
  }

  lemma {:induction false} NearRun(c: Config, t: Timer, events: seq<Event>)
    requires c.interval > 0 && Near(c, t)
    ensures Near(c, Run(c, t, events))
    decreases events
  {
    if events != [] {
      NearRun(c, Step(c, t, events[0]), events[1..]);
    }
  }

  /** Whatever the timing and however late the kernel was: an active timer expires at a grid point no
      further than an interval ahead of now, and after a callback at the first one after now. */
  lemma NextExpiry(c: Config, events: seq<Event>)
    requires ValidConfig(c) && Uncancelled(events)
    ensures var t := Run(c, Load(c), events);
      && (t.active ==> t.expires <= t.now + c.interval)
      && (Due(t) && Step(c, t, Expire).active ==>
            t.now < Step(c, t, Expire).expires <= t.now + c.interval)
  {
    NearRun(c, Load(c), events);
    NearRun(c, Run(c, Load(c), events), [Expire]);
    assert Run(c, Run(c, Load(c), events), [Expire]) == Step(c, Run(c, Load(c), events), Expire);
  }

  /** `k` whole intervals that each end with a chance to fire. */
  function Prompt(c: Config, k: nat): seq<Event> {
    if k == 0 then [] else [Elapse(c.interval), Expire] + Prompt(c, k - 1)
  }

  lemma {:induction false} PromptRateFrom(c: Config, t: Timer, k: nat, ticks: nat)
    requires ValidConfig(c) && CountInv(c, t, ticks) && (t.active ==> t.expires == t.now + c.interval)
    ensures Ticks(c, t, Prompt(c, k)) == if c.maxTicks == 0 then k else Min(k, c.maxTicks - ticks)
    decreases k
  {
    if k > 0 {
      var t1 := t.(now := t.now + c.interval);
      var t2 := Step(c, t1, Expire);
      if t.active {
        CountTick(c, t1, ticks);
        NearRun(c, t1, [Expire]);
        assert Run(c, t1, [Expire]) == t2;
        PromptRateFrom(c, t2, k - 1, ticks + 1);
      } else {
        PromptRateFrom(c, t2, k - 1, ticks);
      }
    }
  }

  /** Fired promptly for `k` intervals, the callback runs once in each, until the limit is reached. */
  lemma PromptRate(c: Config, k: nat)
    requires ValidConfig(c)
    ensures Ticks(c, Load(c), Prompt(c, k)) == if c.maxTicks == 0 then k else Min(k, c.maxTicks)
  {
    PromptRateFrom(c, Load(c), k, 0);
  }

  // ---------- the handlers in their own form ----------

  class Demo {
    var config: Config
    var tickCount: int
    var expires: nat
    var active: bool
    var now: nat

    function Abs(): Timer
      reads this
    {
      Timer(tickCount, expires, active, now)
    }

    constructor (now: nat)
      ensures this.now == now && !active
    {
      config := Config(0, 0, now);
      tickCount, expires, active, this.now := 0, 0, false, now;
    }

    /** Loading: a zero period is refused, otherwise the timer starts one interval from now. */
    method Init(periodMs: nat, maxTicks: nat) returns (ret: int)
      requires !active && maxTicks < WORD32
      modifies this
      ensures now == old(now)
      ensures periodMs == 0 ==> ret == -EINVAL && !active
      ensures periodMs > 0 ==>
                && ret == 0 && config == Config(periodMs * 1_000_000, maxTicks, now)
                && ValidConfig(config) && Abs() == Load(config)
    {
      if periodMs == 0 {
        return -EINVAL;
      }
      tickCount := 0;
      config := Config(periodMs * 1_000_000, maxTicks, now);
      expires := now + config.interval;
      active := true;
      ret := 0;
    }

    /** The callback of a due timer, and the restart the kernel makes of its answer. */
    method HrtimerCallback()
      requires ValidConfig(config) && Due(Abs())
      modifies this`tickCount, this`expires, this`active
      ensures Abs() == Step(config, old(Abs()), Expire)
      ensures active ==> now < expires <= now + config.interval
    {
      var count := Signed32(Unsigned32(tickCount) + 1);
      tickCount := count;
      if config.maxTicks != 0 && Unsigned32(count) >= config.maxTicks {
        active := false;
        return;
      }
      expires := expires + Overruns(expires, now, config.interval) * config.interval;
    }

    /** Unloading. */
    method Exit()
      requires config.interval > 0
      modifies this`active
      ensures Abs() == Step(config, old(Abs()), Cancel) && !active
    {
      active := false;
    }
  }
}
