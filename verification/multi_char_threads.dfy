/**
 Any number of threads calling the handlers on any minors. A thread holding a device's mutex moves
 one byte, one field update or one decision at a time, and other threads move in between. Every
 run is linearizable: replies and final buffers are those of the calls executed one after another
 in the order in which they took their mutexes.
 */
module MultiCharThreads {
  import opened Common
  import opened MultiChar

  /** What a thread inside its critical section does next. */
  datatype Stage =
    | Deciding
    | CopyingOut(n: nat, got: seq<Byte>)
    | CopyingIn(n: nat, k: nat)
    | Updating(n: nat)
    | Leaving(reply: Reply)

  datatype Stepped = Stepped(dev: Device, stage: Stage)

  /** The stages a call can be in, on a device that nobody else changes meanwhile. */
  predicate StageInv(d: Device, pos: nat, call: Call, stage: Stage) {
    && ValidDevice(d)
    && match stage
       case Deciding => true
       case CopyingOut(n, got) => call.Read? && pos + n <= d.dataSize && |got| <= Min(n, call.writable)
       case CopyingIn(n, k) => call.Write? && pos + n <= BUFFER_SIZE && k <= n
       case Updating(n) => call.Write? && pos + n <= BUFFER_SIZE
       case Leaving(reply) => true
  }

  /** One small step of the handler between lock and unlock. */
  function Micro(d: Device, pos: nat, call: Call, stage: Stage): (r: Stepped)
    requires StageInv(d, pos, call, stage)
    ensures StageInv(r.dev, pos, call, r.stage)
  {
    match stage
    case Deciding =>
      (match call
       case Read(count, writable) =>
         Stepped(d, if pos >= d.dataSize then Leaving(Reply(0, pos, []))
                    else CopyingOut(Min(count, d.dataSize - pos), []))
       case Write(data, count) =>
         Stepped(d, if pos >= BUFFER_SIZE then Leaving(Reply(-ENOSPC, pos, []))
                    else CopyingIn(Min(count, BUFFER_SIZE - pos), 0))
       case Seek(offset, whence) =>
         Stepped(d, Leaving(SeekCall(d, pos, offset, whence))))
    case CopyingOut(n, got) =>
      Stepped(d, if |got| < Min(n, call.writable) then CopyingOut(n, got + [d.buffer[pos + |got|]])
                 else if n > call.writable then Leaving(Reply(-EFAULT, pos, got))
                 else Leaving(Reply(n, pos + n, got)))
    case CopyingIn(n, k) =>
      if k < n then
        var b := if k < |call.data| then call.data[k] else 0;
        Stepped(d.(buffer := d.buffer[pos + k := b]), CopyingIn(n, k + 1))
      else Stepped(d, if n > |call.data| then Leaving(Reply(-EFAULT, pos, [])) else Updating(n))
    case Updating(n) =>
      Stepped(d.(dataSize := Max(d.dataSize, pos + n)), Leaving(Reply(n, pos + n, [])))
    case Leaving(reply) => Stepped(d, stage)
  }

  function StageRank(stage: Stage): nat {
    match stage
    case Deciding => 4
    case CopyingOut(n, got) => 3
    case CopyingIn(n, k) => 3
    case Updating(n) => 1
    case Leaving(reply) => 0
  }

  function Left(stage: Stage): nat {
    match stage
    case CopyingOut(n, got) => if |got| <= n then n - |got| else 0
    case CopyingIn(n, k) => if k <= n then n - k else 0
    case _ => 0
  }

  /** The device and reply that the rest of the critical section will produce. */
  function Finish(d: Device, pos: nat, call: Call, stage: Stage): (r: Result)
    requires StageInv(d, pos, call, stage)
    decreases StageRank(stage), Left(stage)
  {
    if stage.Leaving? then Result(d, stage.reply)
    else
      var next := Micro(d, pos, call, stage);
      Finish(next.dev, pos, call, next.stage)
  }

  lemma {:induction false} FinishCopyingOut(d: Device, pos: nat, call: Call, n: nat, got: seq<Byte>)
    requires StageInv(d, pos, call, CopyingOut(n, got)) && got == d.buffer[pos..pos + |got|]
    ensures Finish(d, pos, call, CopyingOut(n, got)) ==
            Result(d, if n > call.writable then Reply(-EFAULT, pos, d.buffer[pos..pos + call.writable])
                      else Reply(n, pos + n, d.buffer[pos..pos + n]))
    decreases n - |got|
  {
    if |got| < Min(n, call.writable) {
      FinishCopyingOut(d, pos, call, n, got + [d.buffer[pos + |got|]]);
    } else {
      assert Finish(d, pos, call, CopyingOut(n, got)).dev == d;
    }
  }

  lemma {:induction false} FinishCopyingIn(d: Device, pos: nat, call: Call, n: nat, k: nat, base: seq<Byte>)
    requires StageInv(d, pos, call, CopyingIn(n, k)) && |base| == BUFFER_SIZE
    requires d.buffer == Overlay(base, pos, Fetched(call.data, n)[..k])
    ensures Finish(d, pos, call, CopyingIn(n, k)) ==
            (var b := Overlay(base, pos, Fetched(call.data, n));
             if n > |call.data| then Result(Device(b, d.dataSize), Reply(-EFAULT, pos, []))
             else Result(Device(b, Max(d.dataSize, pos + n)), Reply(n, pos + n, [])))
    decreases n - k
  {
    var x := Fetched(call.data, n);
    if k < n {
      var next := Micro(d, pos, call, CopyingIn(n, k));
      assert next.dev.buffer == Overlay(base, pos, x[..k + 1]);
      FinishCopyingIn(next.dev, pos, call, n, k + 1, base);
    } else {
      assert x[..k] == x;
      assert Finish(d, pos, call, Updating(n)) ==
             Finish(d.(dataSize := Max(d.dataSize, pos + n)), pos, call, Leaving(Reply(n, pos + n, [])));
    }
  }

  /** Small steps from lock to unlock, undisturbed, are the handler. */
  lemma FinishIsApply(d: Device, pos: nat, call: Call)
    requires ValidDevice(d)
    ensures Finish(d, pos, call, Deciding) == Apply(d, pos, call)
  {
    match call
    case Read(count, writable) =>
      if pos < d.dataSize {
        FinishCopyingOut(d, pos, call, Min(count, d.dataSize - pos), []);
      }
    case Write(data, count) =>
      if pos < BUFFER_SIZE {
        var n := Min(count, BUFFER_SIZE - pos);
        assert Overlay(d.buffer, pos, Fetched(data, n)[..0]) == d.buffer;
        FinishCopyingIn(d, pos, call, n, 0, d.buffer);
      }
    case Seek(offset, whence) =>
  }

  // ---------- the threads ----------

  /** A call that has taken its mutex: who, on which minor, at which position. */
  datatype Entry = Entry(tid: nat, minor: nat, pos: nat, call: Call)

  datatype Thread =
    | Idle
    | Blocked(minor: nat, pos: nat, call: Call)
    | Inside(ticket: nat, stage: Stage)

  datatype Owner = Free | Held(tid: nat)

  /** `order` lists the calls by the moment they took their mutex; `replies` holds what has been
      returned so far, by place in `order`. */
  datatype System = System(
    devs: seq<Device>, owners: seq<Owner>, threads: map<nat, Thread>,
    order: seq<Entry>, replies: map<nat, Reply>)

  datatype Action = Invoke(tid: nat, minor: nat, pos: nat, call: Call) | Move(tid: nat)

  function ThreadOf(s: System, tid: nat): Thread {
    if tid in s.threads then s.threads[tid] else Idle
  }

  /** Device, owner and ticket references in range; kept by every step. */
  predicate Shape(s: System) {
    && |s.owners| == |s.devs|
    && (forall e | e in s.order :: e.minor < |s.devs|)
    && (forall t | t in s.threads && s.threads[t].Blocked? :: s.threads[t].minor < |s.devs|)
    && (forall t | t in s.threads && s.threads[t].Inside? ::
          && s.threads[t].ticket < |s.order|
          && var e := s.order[s.threads[t].ticket];
             StageInv(s.devs[e.minor], e.pos, e.call, s.threads[t].stage))
  }

  /** A step of the whole system; a call on a missing minor, and a wait for a mutex, change nothing. */
  function Step(s: System, a: Action): System
    requires Shape(s)
  {
    match a
    case Invoke(tid, minor, pos, call) =>
      if ThreadOf(s, tid).Idle? && minor < |s.devs|
      then s.(threads := s.threads[tid := Blocked(minor, pos, call)]) else s
    case Move(tid) =>
      match ThreadOf(s, tid)
      case Idle => s
      case Blocked(minor, pos, call) => if s.owners[minor].Free? then Acquire(s, tid) else s
      case Inside(ticket, stage) => if stage.Leaving? then Release(s, tid) else Advance(s, tid)
  }

  function Acquire(s: System, tid: nat): System
    requires Shape(s) && ThreadOf(s, tid).Blocked?
  {
    var th := ThreadOf(s, tid);
    s.(owners := s.owners[th.minor := Held(tid)],
       threads := s.threads[tid := Inside(|s.order|, Deciding)],
       order := s.order + [Entry(tid, th.minor, th.pos, th.call)])
  }

  function Advance(s: System, tid: nat): System
    requires Shape(s) && ThreadOf(s, tid).Inside?
  {
    var th := ThreadOf(s, tid);
    var e := s.order[th.ticket];
    var next := Micro(s.devs[e.minor], e.pos, e.call, th.stage);
    s.(devs := s.devs[e.minor := next.dev],
       threads := s.threads[tid := Inside(th.ticket, next.stage)])
  }

  function Release(s: System, tid: nat): System
    requires Shape(s) && ThreadOf(s, tid).Inside? && ThreadOf(s, tid).stage.Leaving?
  {
    var th := ThreadOf(s, tid);
    s.(owners := s.owners[s.order[th.ticket].minor := Free],
       threads := s.threads[tid := Idle],
       replies := s.replies[th.ticket := th.stage.reply])
  }

  // ---------- the sequential execution ----------

  predicate InRange(devs: seq<Device>, order: seq<Entry>) {
    && (forall d | d in devs :: ValidDevice(d))
    && (forall e | e in order :: e.minor < |devs|)
  }

  /** The devices after the calls of `order`, one after another. */
  function Serial(devs: seq<Device>, order: seq<Entry>): (r: seq<Device>)
    requires InRange(devs, order)
    ensures |r| == |devs| && forall d | d in r :: ValidDevice(d)
    decreases |order|
  {
    if order == [] then devs
    else
      var before := Serial(devs, order[..|order| - 1]);
      var e := order[|order| - 1];
      before[e.minor := Apply(before[e.minor], e.pos, e.call).dev]
  }

  /** The reply of call number `k` in that execution. */
  function SerialReply(devs: seq<Device>, order: seq<Entry>, k: nat): Reply
    requires InRange(devs, order) && k < |order|
  {
    Apply(Serial(devs, order[..k])[order[k].minor], order[k].pos, order[k].call).reply
  }

  lemma SerialReplyKept(devs: seq<Device>, order: seq<Entry>, e: Entry, k: nat)
    requires InRange(devs, order) && e.minor < |devs| && k < |order|
    ensures InRange(devs, order + [e])
    ensures SerialReply(devs, order + [e], k) == SerialReply(devs, order, k)
  {
    assert (order + [e])[..k] == order[..k];
  }

  // ---------- the invariant ----------

  /** A thread inside holds the mutex of its minor, and what is left of its critical section leads
      to the device and reply of the sequential execution. */
  ghost predicate InsideInv(devs0: seq<Device>, s: System, tid: nat)
    requires Shape(s) && InRange(devs0, s.order) && |devs0| == |s.devs|
  {
    var th := ThreadOf(s, tid);
    th.Inside? ==>
      var e := s.order[th.ticket];
      && e.tid == tid
      && s.owners[e.minor] == Held(tid)
      && th.ticket !in s.replies
      && Finish(s.devs[e.minor], e.pos, e.call, th.stage) ==
         Result(Serial(devs0, s.order)[e.minor], SerialReply(devs0, s.order, th.ticket))
  }

  ghost predicate MinorInv(devs0: seq<Device>, s: System, m: nat)
    requires Shape(s) && InRange(devs0, s.order) && |devs0| == |s.devs| && m < |s.devs|
  {
    match s.owners[m]
    case Free => s.devs[m] == Serial(devs0, s.order)[m]
    case Held(tid) => ThreadOf(s, tid).Inside? && s.order[ThreadOf(s, tid).ticket].minor == m
  }

  ghost predicate Inv(devs0: seq<Device>, s: System) {
    && Shape(s) && InRange(devs0, s.order) && |devs0| == |s.devs|
    && (forall d | d in s.devs :: ValidDevice(d))
    && (forall tid :: InsideInv(devs0, s, tid))
    && (forall m | 0 <= m < |s.devs| :: MinorInv(devs0, s, m))
    && (forall k | k in s.replies :: k < |s.order| && s.replies[k] == SerialReply(devs0, s.order, k))
    && (forall k | 0 <= k < |s.order| :: k in s.replies || Running(s, k))
  }

  /** The call with this place in the order is still inside. */
  predicate Running(s: System, k: nat)
    requires k < |s.order|
  {
    ThreadOf(s, s.order[k].tid).Inside? && ThreadOf(s, s.order[k].tid).ticket == k
  }

  /** All mutexes free, nobody inside. */
  ghost function Load(devs0: seq<Device>): (s: System)
    requires forall d | d in devs0 :: ValidDevice(d)
    ensures Inv(devs0, s)
  {
    System(devs0, seq(|devs0|, i => Free), map[], [], map[])
  }

  // ---------- runs ----------

  /** The system after a schedule of actions. */
  ghost function Run(devs0: seq<Device>, s: System, schedule: seq<Action>): (r: System)
    requires Inv(devs0, s)
    ensures Inv(devs0, r)
    decreases schedule
  {
    if schedule == [] then s
    else
      StepKeeps(devs0, s, schedule[0]);
      Run(devs0, Step(s, schedule[0]), schedule[1..])
  }

  /** Whatever the threads do and however their bytes interleave: every reply given so far is the
      reply of the sequential execution in mutex order, every unlocked device is that execution's
      device, and every call that took its mutex has been answered or is still inside. */
  lemma Linearizable(devs0: seq<Device>, schedule: seq<Action>)
    requires forall d | d in devs0 :: ValidDevice(d)
    ensures var s := Run(devs0, Load(devs0), schedule);
      && (forall k | k in s.replies :: k < |s.order| && s.replies[k] == SerialReply(devs0, s.order, k))
      && (forall m | 0 <= m < |devs0| && s.owners[m].Free? :: s.devs[m] == Serial(devs0, s.order)[m])
      && (forall k | 0 <= k < |s.order| :: k in s.replies || Running(s, k))
  {
    var s := Run(devs0, Load(devs0), schedule);
    forall m | 0 <= m < |devs0| && s.owners[m].Free? ensures s.devs[m] == Serial(devs0, s.order)[m] {
      assert MinorInv(devs0, s, m);
    }
  }

  lemma PrefixTransitive<T>(x: seq<T>, y: seq<T>, z: seq<T>)
    requires x <= y <= z
    ensures x <= z
  {
  }

  lemma OrderStep(devs0: seq<Device>, s: System, a: Action)
    requires Inv(devs0, s)
    ensures s.order <= Step(s, a).order
    ensures s.replies.Keys <= Step(s, a).replies.Keys
  {
  }

  /** The order only grows at its end, so it respects real time: a call answered before another is
      invoked comes before it. */
  lemma {:induction false} OrderGrows(devs0: seq<Device>, s: System, schedule: seq<Action>)
    requires Inv(devs0, s)
    ensures s.order <= Run(devs0, s, schedule).order
    ensures s.replies.Keys <= Run(devs0, s, schedule).replies.Keys
    ensures forall k | k in s.replies :: k < |s.order|
    decreases schedule
  {
    if schedule != [] {
      var s' := Step(s, schedule[0]);
      StepKeeps(devs0, s, schedule[0]);
      OrderStep(devs0, s, schedule[0]);
      OrderGrows(devs0, s', schedule[1..]);
      PrefixTransitive(s.order, s'.order, Run(devs0, s', schedule[1..]).order);
    }
  }

  /** No call under way or in the order is on this minor. */
  predicate Unnamed(s: System, m: nat) {
    && (forall e | e in s.order :: e.minor != m)
    && (forall t | t in s.threads && s.threads[t].Blocked? :: s.threads[t].minor != m)
  }

  lemma UnnamedStep(s: System, a: Action, m: nat)
    requires Shape(s) && m < |s.devs| && Unnamed(s, m) && (a.Invoke? ==> a.minor != m)
    ensures Unnamed(Step(s, a), m) && |Step(s, a).devs| == |s.devs| && Step(s, a).devs[m] == s.devs[m]
  {
  }

  lemma {:induction false} UnnamedRun(devs0: seq<Device>, s: System, schedule: seq<Action>, m: nat)
    requires Inv(devs0, s) && m < |s.devs| && Unnamed(s, m)
    requires forall a | a in schedule && a.Invoke? :: a.minor != m
    ensures Run(devs0, s, schedule).devs[m] == s.devs[m]
    decreases schedule
  {
    if schedule != [] {
      UnnamedStep(s, schedule[0], m);
      StepKeeps(devs0, s, schedule[0]);
      UnnamedRun(devs0, Step(s, schedule[0]), schedule[1..], m);
    }
  }

  /** While any threads are in any stage of calls on other minors, a minor that no call names is as
      it was loaded. */
  lemma OtherMinorsUntouched(devs0: seq<Device>, schedule: seq<Action>, m: nat)
    requires (forall d | d in devs0 :: ValidDevice(d)) && m < |devs0|
    requires forall a | a in schedule && a.Invoke? :: a.minor != m
    ensures Run(devs0, Load(devs0), schedule).devs[m] == devs0[m]
  {
    UnnamedRun(devs0, Load(devs0), schedule, m);
  }

  // ---------- every step keeps it ----------

  lemma OneHolder(devs0: seq<Device>, s: System, t: nat, u: nat)
    requires Inv(devs0, s) && ThreadOf(s, t).Inside? && ThreadOf(s, u).Inside? && t != u
    ensures s.order[ThreadOf(s, t).ticket].minor != s.order[ThreadOf(s, u).ticket].minor
    ensures ThreadOf(s, t).ticket != ThreadOf(s, u).ticket
  {
    assert InsideInv(devs0, s, t) && InsideInv(devs0, s, u);
  }

  lemma InvokeKeeps(devs0: seq<Device>, s: System, a: Action)
    requires Inv(devs0, s) && a.Invoke?
    ensures Inv(devs0, Step(s, a))
  {
    var s' := Step(s, a);
    forall t ensures InsideInv(devs0, s', t) {
      assert InsideInv(devs0, s, t);
    }
    forall m | 0 <= m < |s'.devs| ensures MinorInv(devs0, s', m) {
      assert MinorInv(devs0, s, m);
    }
    forall k | 0 <= k < |s'.order| ensures k in s'.replies || Running(s', k) {
      assert k in s.replies || Running(s, k);
    }
  }

  lemma AcquireThread(devs0: seq<Device>, s: System, tid: nat, t: nat)
    requires Inv(devs0, s) && ThreadOf(s, tid).Blocked? && s.owners[ThreadOf(s, tid).minor].Free?
    requires Shape(Acquire(s, tid)) && InRange(devs0, Acquire(s, tid).order)
    ensures InsideInv(devs0, Acquire(s, tid), t)
  {
    var th := ThreadOf(s, tid);
    var e := Entry(tid, th.minor, th.pos, th.call);
    assert MinorInv(devs0, s, th.minor) && InsideInv(devs0, s, t);
    if t == tid {
      FinishIsApply(s.devs[th.minor], th.pos, th.call);
      assert |s.order| !in s.replies;
    } else if ThreadOf(s, t).Inside? {
      SerialReplyKept(devs0, s.order, e, ThreadOf(s, t).ticket);
    }
  }

  lemma AcquireKeeps(devs0: seq<Device>, s: System, tid: nat)
    requires Inv(devs0, s) && ThreadOf(s, tid).Blocked? && s.owners[ThreadOf(s, tid).minor].Free?
    ensures Inv(devs0, Acquire(s, tid))
  {
    var s' := Acquire(s, tid);
    var th := ThreadOf(s, tid);
    var e := Entry(tid, th.minor, th.pos, th.call);
    assert s'.order == s.order + [e];
    forall t ensures InsideInv(devs0, s', t) {
      AcquireThread(devs0, s, tid, t);
    }
    forall m | 0 <= m < |s'.devs| ensures MinorInv(devs0, s', m) {
      assert MinorInv(devs0, s, m);
    }
    forall k | k in s'.replies ensures k < |s'.order| && s'.replies[k] == SerialReply(devs0, s'.order, k) {
      SerialReplyKept(devs0, s.order, e, k);
    }
    forall k | 0 <= k < |s'.order| ensures k in s'.replies || Running(s', k) {
      assert k < |s.order| ==> k in s.replies || Running(s, k);
    }
  }

  lemma AdvanceShape(devs0: seq<Device>, s: System, tid: nat)
    requires Inv(devs0, s) && ThreadOf(s, tid).Inside?
    ensures Shape(Advance(s, tid))
  {
  }

  lemma AdvanceKeeps(devs0: seq<Device>, s: System, tid: nat)
    requires Inv(devs0, s) && ThreadOf(s, tid).Inside? && !ThreadOf(s, tid).stage.Leaving?
    ensures Inv(devs0, Advance(s, tid))
  {
    var s' := Advance(s, tid);
    AdvanceShape(devs0, s, tid);
    forall t ensures InsideInv(devs0, s', t) {
      assert InsideInv(devs0, s, t) && InsideInv(devs0, s, tid);
      if t != tid && ThreadOf(s, t).Inside? {
        OneHolder(devs0, s, t, tid);
      }
    }
    forall m | 0 <= m < |s'.devs| ensures MinorInv(devs0, s', m) {
      assert MinorInv(devs0, s, m) && InsideInv(devs0, s, tid);
    }
    forall k | 0 <= k < |s'.order| ensures k in s'.replies || Running(s', k) {
      assert k in s.replies || Running(s, k);
    }
  }

  lemma ReleaseKeeps(devs0: seq<Device>, s: System, tid: nat)
    requires Inv(devs0, s) && ThreadOf(s, tid).Inside? && ThreadOf(s, tid).stage.Leaving?
    ensures Inv(devs0, Release(s, tid))
  {
    var s' := Release(s, tid);
    var ticket := ThreadOf(s, tid).ticket;
    assert InsideInv(devs0, s, tid);
    forall t ensures InsideInv(devs0, s', t) {
      assert InsideInv(devs0, s, t);
      if t != tid && ThreadOf(s, t).Inside? {
        OneHolder(devs0, s, t, tid);
      }
    }
    forall m | 0 <= m < |s'.devs| ensures MinorInv(devs0, s', m) {
      assert MinorInv(devs0, s, m);
    }
    forall k | 0 <= k < |s'.order| ensures k in s'.replies || Running(s', k) {
      assert k in s.replies || Running(s, k);
    }
  }

  lemma StepKeeps(devs0: seq<Device>, s: System, a: Action)
    requires Inv(devs0, s)
    ensures Inv(devs0, Step(s, a))
  {
    match a
    case Invoke(tid, minor, pos, call) => InvokeKeeps(devs0, s, a);
    case Move(tid) =>
      match ThreadOf(s, tid) {
        case Idle =>
        case Blocked(minor, pos, call) =>
          if s.owners[minor].Free? {
            AcquireKeeps(devs0, s, tid);
          }
        case Inside(ticket, stage) =>
          if stage.Leaving? {
            ReleaseKeeps(devs0, s, tid);
          } else {
            AdvanceKeeps(devs0, s, tid);
          }
      }
  }
}
