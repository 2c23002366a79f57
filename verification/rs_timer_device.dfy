/** The handlers of the timer driver in their own form, assigning the module's variables and the
    kernel timer one after another. */
module RsTimerDevice {
  import opened Common
  import opened RsTimer
  import opened RsTimerCommands

  class TimerLab {
    const config: Config
    var timerMode: Mode
    var periodMs: nat
    var nextExpiryJiffies: nat
    var lastTickJiffies: nat
    var tickCount: nat
    var labTimer: Option<nat>   // the expiry of the queued kernel timer, unwrapped
    var time: nat               // jiffies since boot, unwrapped

    function Abs(): Timer
      reads this
    {
      Timer(timerMode, periodMs, nextExpiryJiffies, lastTickJiffies, tickCount, labTimer, time)
    }

    constructor (config: Config, time: nat)
      ensures this.config == config && Abs() == Load(time)
    {
      this.config := config;
      timerMode, periodMs := Stopped, 1000;
      nextExpiryJiffies, lastTickJiffies, tickCount := 0, 0, 0;
      labTimer, this.time := None, time;
    }

    /** An absolute expiry at least one jiffy ahead. */
    method MakeExpiryFromMs(ms: nat) returns (expiry: nat)
      ensures time < expiry == time + Delay(config, ms) == time + Max(1, config.jiffiesFor(ms))
    {
      var delayJiffies := config.jiffiesFor(ms);
      if delayJiffies == 0 {
        delayJiffies := 1;
      }
      expiry := time + delayJiffies;
    }

    /** Save the expiry for status reads, and queue or move the timer. */
    method SaveAndArm(expiry: nat)
      requires config.word > 0
      modifies this`nextExpiryJiffies, this`labTimer
      ensures nextExpiryJiffies == expiry % config.word && labTimer == Some(expiry)
    {
      nextExpiryJiffies := expiry % config.word;
      labTimer := Some(expiry);
    }

    method MyWrite(cmd: Command) returns (ret: int)
      requires config.word > 0
      modifies this
      ensures (Abs(), ret) == Execute(config, old(Abs()), cmd)
      ensures if Refused(cmd) then ret == -22 && Abs() == old(Abs()) else ret == 0
    {
      ret := 0;
      match cmd {
        case Start(ms) =>
          if ms == 0 {
            return -EINVAL;
          }
          periodMs := ms;
          timerMode := Periodic;
          var expiry := MakeExpiryFromMs(ms);
          SaveAndArm(expiry);
        case OneShot(ms) =>
          if ms == 0 {
            return -EINVAL;
          }
          periodMs := ms;
          timerMode := Oneshot;
          var expiry := MakeExpiryFromMs(ms);
          SaveAndArm(expiry);
        case Period(ms) =>
          if ms == 0 {
            return -EINVAL;
          }
          periodMs := ms;
          if labTimer.Some? {
            var expiry := MakeExpiryFromMs(ms);
            SaveAndArm(expiry);
          }
        case Stop =>
          timerMode := Stopped;
          labTimer := None;
          nextExpiryJiffies := 0;
        case Reset =>
          tickCount := 0;
          lastTickJiffies := 0;
        case Unknown =>
          ret := -EINVAL;
      }
    }

    /** The kernel takes the due timer off its queue and runs this. */
    method TimerCallback()
      requires config.word > 0 && Due(Abs())
      modifies this
      ensures Abs() == Step(config, old(Abs()), Expire)
    {
      labTimer := None;
      tickCount := (tickCount + 1) % WORD32;
      var mode := timerMode;
      var currentPeriod := periodMs;
      lastTickJiffies := time % config.word;
      if mode == Periodic {
        var nextExpiry := MakeExpiryFromMs(currentPeriod);
        SaveAndArm(nextExpiry);
      } else {
        timerMode := Stopped;
        nextExpiryJiffies := 0;
      }
    }

    /** The status read, with the remaining time in jiffies, in whatever state overlapping handlers
        have left. For a status kept as the handlers keep it, pending and mode agree, and the time is
        the true one as long as the kernel is less than half a word late. */
    method MyRead() returns (mode: Mode, pending: bool, remaining: nat)
      requires config.word > 0
      ensures mode == timerMode && (pending <==> labTimer.Some?)
      ensures remaining == Remaining(config, Abs())
      ensures StatusInv(config, Abs()) ==> (pending <==> mode != Stopped)
      ensures ValidConfig(config) && StatusInv(config, Abs()) && AheadInv(config, Abs()) ==>
                (remaining == TrueRemaining(Abs()) <==>
                 (Due(Abs()) ==> (time - labTimer.value) % config.word < config.word / 2))
    {
      mode := timerMode;
      pending := labTimer.Some?;
      var now := time % config.word;
      var next := nextExpiryJiffies;
      remaining := 0;
      if pending && TimeAfter(config, next, now) {
        remaining := (next - now) % config.word;
      }
      assert remaining == Remaining(config, Abs());
      if ValidConfig(config) && StatusInv(config, Abs()) && AheadInv(config, Abs()) {
        RemainingIsTrue(config, Abs());
      }
    }
  }
}
