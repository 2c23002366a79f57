/**
 The mailbox's buffer under any number of readers and writers that move one byte at a time. The driver
 has no lock around it, so strings can be torn; but no interleaving takes a string, a scan or a copy
 out of the buffer. Reads begin at any time here, whatever the flag says.
 */
module WaitQueueBytes {
  import opened Common
  import opened WaitQueueDevice

  /** A handler between two bytes. `n` is how many bytes it copies, `len` how far it has scanned. */
  datatype Thread =
    | Idle
    | Clearing(i: nat, data: seq<Byte>, n: nat)
    | Storing(k: nat, data: seq<Byte>, n: nat)
    | Terminating(n: nat)
    | Measuring(len: nat, count: nat, writable: nat)
    | Delivering(n: nat, count: nat, writable: nat, got: seq<Byte>)

  datatype Delivery = Delivery(count: nat, out: seq<Byte>)

  /** `strayed` is set when a handler accesses a place that is not in the buffer. */
  datatype System = System(
    buffer: seq<Byte>, threads: map<nat, Thread>, deliveries: seq<Delivery>, strayed: bool)

  datatype Action =
    | Write(tid: nat, data: seq<Byte>, count: nat)
    | Read(tid: nat, count: nat, writable: nat)
    | Move(tid: nat)

  function Load(): System {
    System(seq(BUFFER_SIZE, i => 0), map[], [], false)
  }

  function ThreadOf(s: System, tid: nat): Thread {
    if tid in s.threads then s.threads[tid] else Idle
  }

  function At(s: System, tid: nat, th: Thread): System {
    s.(threads := s.threads[tid := th])
  }

  function Put(s: System, i: nat, b: Byte): System {
    if i < |s.buffer| then s.(buffer := s.buffer[i := b]) else s.(strayed := true)
  }

  /** The next byte of a handler. A user copy that cannot fetch a byte stores zero for it and fails in
      the end; one that cannot deliver a byte stops there. */
  function ThreadStep(s: System, tid: nat): System {
    match ThreadOf(s, tid)
    case Idle => s
    case Clearing(i, data, n) =>
      if i < BUFFER_SIZE then At(Put(s, i, 0), tid, Clearing(i + 1, data, n))
      else At(s, tid, Storing(0, data, n))
    case Storing(k, data, n) =>
      if k < n then At(Put(s, k, if k < |data| then data[k] else 0), tid, Storing(k + 1, data, n))
      else At(s, tid, if n <= |data| then Terminating(n) else Idle)
    case Terminating(n) => At(Put(s, n, 0), tid, Idle)
    case Measuring(len, count, writable) =>
      if len >= |s.buffer| then s.(strayed := true)
      else if s.buffer[len] != 0 then At(s, tid, Measuring(len + 1, count, writable))
      else At(s, tid, Delivering(Min(count, len), count, writable, []))
    case Delivering(n, count, writable, got) =>
      if |got| < Min(n, writable) then
        if |got| >= |s.buffer| then s.(strayed := true)
        else At(s, tid, Delivering(n, count, writable, got + [s.buffer[|got|]]))
      else At(s, tid, Idle).(deliveries := s.deliveries + [Delivery(count, got)])
  }

  function Step(s: System, a: Action): System {
    match a
    case Write(tid, data, count) =>
      if ThreadOf(s, tid).Idle? then At(s, tid, Clearing(0, data, Min(count, BUFFER_SIZE - 1))) else s
    case Read(tid, count, writable) =>
      if ThreadOf(s, tid).Idle? then At(s, tid, Measuring(0, count, writable)) else s
    case Move(tid) => ThreadStep(s, tid)
  }

  function Run(s: System, actions: seq<Action>): System
    decreases actions
  {
    if actions == [] then s else Run(Step(s, actions[0]), actions[1..])
  }

  // ---------- nothing leaves the buffer ----------

  /** The last byte of the buffer ends every string. */
  predicate Ended(s: System) {
    !s.strayed && |s.buffer| == BUFFER_SIZE && s.buffer[BUFFER_SIZE - 1] == 0
  }

  predicate Within(th: Thread) {
    match th
    case Idle => true
    case Clearing(i, data, n) => n < BUFFER_SIZE
    case Storing(k, data, n) => n < BUFFER_SIZE
    case Terminating(n) => n < BUFFER_SIZE
    case Measuring(len, count, writable) => len < BUFFER_SIZE
    case Delivering(n, count, writable, got) => n < BUFFER_SIZE && n <= count && |got| <= n
  }

  predicate Short(d: Delivery) {
    |d.out| <= Min(d.count, BUFFER_SIZE - 1)
  }

  predicate Inv(s: System) {
    Ended(s) && (forall t | t in s.threads :: Within(s.threads[t])) && forall d | d in s.deliveries :: Short(d)
  }

  lemma {:induction false} RunKeeps(s: System, actions: seq<Action>)
    requires Inv(s)
    ensures Inv(Run(s, actions))
    decreases actions
  {
    if actions != [] {
      RunKeeps(Step(s, actions[0]), actions[1..]);
    }
  }

  /** In every interleaving of any readers and writers, with any faults: the last byte of the buffer
      stays zero, no scan and no copy ever accesses a place outside the buffer, and no reader is given
      more bytes than it asked for or than a string can have. */
  lemma StringsEndInBuffer(actions: seq<Action>)
    ensures var s := Run(Load(), actions);
      && !s.strayed
      && |s.buffer| == BUFFER_SIZE && s.buffer[BUFFER_SIZE - 1] == 0
      && forall d | d in s.deliveries :: |d.out| <= d.count && |d.out| < BUFFER_SIZE
  {
    RunKeeps(Load(), actions);
    forall d | d in Run(Load(), actions).deliveries ensures |d.out| <= d.count && |d.out| < BUFFER_SIZE {
      assert Short(d);
    }
  }

  // ---------- undisturbed handlers ----------

  predicate MovesOf(tid: nat, x: seq<Action>) {
    forall a | a in x :: a == Move(tid)
  }

  predicate Overwritten(b: seq<Byte>, data: seq<Byte>, k: nat) {
    |b| == BUFFER_SIZE && forall j | 0 <= j < BUFFER_SIZE :: b[j] == if j < k && j < |data| then data[j] else 0
  }

  /** How far an undisturbed write of `n` bytes has come. */
  predicate WriteInv(s: System, tid: nat, data: seq<Byte>, n: nat) {
    n < BUFFER_SIZE == |s.buffer| &&
    match ThreadOf(s, tid)
    case Clearing(i, d, m) => d == data && m == n && i <= BUFFER_SIZE && forall j | 0 <= j < i :: s.buffer[j] == 0
    case Storing(k, d, m) => d == data && m == n && k <= n && Overwritten(s.buffer, data, k)
    case Terminating(m) => m == n <= |data| && Overwritten(s.buffer, data, n)
    case Idle => Overwritten(s.buffer, data, n)
    case _ => false
  }

  function WriteRank(th: Thread): nat {
    match th
    case Clearing(i, data, n) => n + 3 + if i < BUFFER_SIZE then BUFFER_SIZE - i else 0
    case Storing(k, data, n) => 2 + if k < n then n - k else 0
    case Terminating(n) => 1
    case _ => 0
  }

  lemma {:induction false} WriteFinishes(s: System, tid: nat, data: seq<Byte>, n: nat) returns (x: seq<Action>)
    requires WriteInv(s, tid, data, n)
    ensures MovesOf(tid, x)
    ensures ThreadOf(Run(s, x), tid).Idle? && Run(s, x).buffer == Stored(data[..Min(n, |data|)])
    decreases WriteRank(ThreadOf(s, tid))
  {
    x := [];
    if !ThreadOf(s, tid).Idle? {
      x := WriteFinishes(ThreadStep(s, tid), tid, data, n);
      x := [Move(tid)] + x;
    }
  }

  /** How far an undisturbed read has come. */
  predicate ReadInv(s: System, tid: nat) {
    Ended(s) &&
    match ThreadOf(s, tid)
    case Measuring(len, count, writable) => len <= |CString(s.buffer)|
    case Delivering(n, count, writable, got) =>
      n == Min(count, |CString(s.buffer)|) && |got| <= Min(n, writable) && got == s.buffer[..|got|]
    case _ => false
  }

  function ReadRank(th: Thread): nat {
    match th
    case Measuring(len, count, writable) => BUFFER_SIZE + 1 + if len < BUFFER_SIZE then BUFFER_SIZE - len else 0
    case Delivering(n, count, writable, got) => if |got| < n then n - |got| else 0
    case _ => 0
  }

  lemma MeasureStep(s: System, tid: nat)
    requires ReadInv(s, tid) && ThreadOf(s, tid).Measuring?
    ensures var th, th' := ThreadOf(s, tid), ThreadOf(ThreadStep(s, tid), tid);
      && ReadInv(ThreadStep(s, tid), tid) && ThreadStep(s, tid) == At(s, tid, th')
      && ReadRank(th') < ReadRank(th) && th'.count == th.count && th'.writable == th.writable
  {
    var str := CString(s.buffer);
    assert s.buffer[BUFFER_SIZE - 1] == 0;
    if ThreadOf(s, tid).len < |str| {
      assert str[ThreadOf(s, tid).len] in str;
    }
  }

  lemma DeliverStep(s: System, tid: nat)
    requires ReadInv(s, tid) && ThreadOf(s, tid).Delivering?
    requires |ThreadOf(s, tid).got| < Min(ThreadOf(s, tid).n, ThreadOf(s, tid).writable)
    ensures var th, th' := ThreadOf(s, tid), ThreadOf(ThreadStep(s, tid), tid);
      && ReadInv(ThreadStep(s, tid), tid) && ThreadStep(s, tid) == At(s, tid, th')
      && ReadRank(th') < ReadRank(th) && th'.count == th.count && th'.writable == th.writable
  {
    var got := ThreadOf(s, tid).got;
    assert s.buffer[..|got| + 1] == got + [s.buffer[|got|]];
  }

  lemma {:induction false} ReadFinishes(s: System, tid: nat) returns (x: seq<Action>)
    requires ReadInv(s, tid)
    ensures MovesOf(tid, x)
    ensures var th, str := ThreadOf(s, tid), CString(s.buffer);
      && ThreadOf(Run(s, x), tid).Idle? && Run(s, x).buffer == s.buffer
      && Run(s, x).deliveries ==
         s.deliveries + [Delivery(th.count, str[..Min(Min(th.count, |str|), th.writable)])]
    decreases ReadRank(ThreadOf(s, tid))
  {
    var th := ThreadOf(s, tid);
    if th.Measuring? || |th.got| < Min(th.n, th.writable) {
      if th.Measuring? {
        MeasureStep(s, tid);
      } else {
        DeliverStep(s, tid);
      }
      x := ReadFinishes(ThreadStep(s, tid), tid);
    } else {
      x := [];
      assert th.got == CString(s.buffer)[..|th.got|];
      assert Run(ThreadStep(s, tid), []) == ThreadStep(s, tid);
    }
    x := [Move(tid)] + x;
  }

  /** A write of `count` bytes that nobody disturbs leaves what the handler on its own leaves: at most 99
      bytes, cut where user space ends, and zeros behind them. */
  lemma WriteAlone(s: System, tid: nat, data: seq<Byte>, count: nat) returns (x: seq<Action>)
    requires Ended(s) && ThreadOf(s, tid).Idle?
    ensures MovesOf(tid, x)
    ensures var s' := Run(Step(s, Write(tid, data, count)), x);
      ThreadOf(s', tid).Idle? && s'.buffer == Stored(data[..Min(Min(count, 99), |data|)])
  {
    x := WriteFinishes(Step(s, Write(tid, data, count)), tid, data, Min(count, BUFFER_SIZE - 1));
  }

  /** And a read delivers what the handler on its own delivers: the string up to its first zero byte, cut
      at the count and where user space ends. */
  lemma ReadAlone(s: System, tid: nat, count: nat, writable: nat) returns (x: seq<Action>)
    requires Ended(s) && ThreadOf(s, tid).Idle?
    ensures MovesOf(tid, x)
    ensures var s' := Run(Step(s, Read(tid, count, writable)), x);
      var str := CString(s.buffer);
      && ThreadOf(s', tid).Idle? && s'.buffer == s.buffer
      && s'.deliveries == s.deliveries + [Delivery(count, str[..Min(Min(count, |str|), writable)])]
  {
    x := ReadFinishes(Step(s, Read(tid, count, writable)), tid);
  }
}
