/**
 What programs that open the devices may rely on: over every history of calls, faulting ones included,
 each minor behaves as a sparse file that is nothing but the list of writes made to it. A write whose
 user copy faults is in that list too, but does not count for the size of the file.
 */
module MultiCharFiles {
  import opened Common
  import opened MultiChar

  // ---------- the reference: a file is its list of writes ----------

  datatype Record = Record(pos: nat, data: seq<Byte>, counts: bool)

  function End(w: Record): nat {
    if w.counts then w.pos + |w.data| else 0
  }

  /** The byte at `i`: from the latest write that covers it, zero if there is none. */
  function ByteAt(log: seq<Record>, i: nat): Byte
    decreases |log|
  {
    if log == [] then 0
    else
      var w := log[|log| - 1];
      if w.pos <= i < w.pos + |w.data| then w.data[i - w.pos] else ByteAt(log[..|log| - 1], i)
  }

  /** The furthest end of any write that counts, an empty write counting with its position. */
  function SizeOf(log: seq<Record>): nat
    decreases |log|
  {
    if log == [] then 0
    else Max(SizeOf(log[..|log| - 1]), End(log[|log| - 1]))
  }

  function BytesFrom(log: seq<Record>, pos: nat, n: nat): (r: seq<Byte>)
    ensures |r| == n
    ensures forall i | 0 <= i < n :: r[i] == ByteAt(log, pos + i)
  {
    seq(n, i requires 0 <= i < n => ByteAt(log, pos + i))
  }

  datatype LogResult = LogResult(log: seq<Record>, reply: Reply)

  /** What a call means for the list of writes. */
  function Meaning(log: seq<Record>, pos: nat, call: Call): LogResult {
    match call
    case Read(count, writable) =>
      var n := if pos < SizeOf(log) then Min(count, SizeOf(log) - pos) else 0;
      LogResult(log, if n <= writable then Reply(n, pos + n, BytesFrom(log, pos, n))
                     else Reply(-EFAULT, pos, BytesFrom(log, pos, writable)))
    case Write(data, count) =>
      if pos >= BUFFER_SIZE then LogResult(log, Reply(-ENOSPC, pos, []))
      else
        var n := Min(count, BUFFER_SIZE - pos);
        if n <= |data| then LogResult(log + [Record(pos, data[..n], true)], Reply(n, pos + n, []))
        else LogResult(log + [Record(pos, Fetched(data, n), false)], Reply(-EFAULT, pos, []))
    case Seek(offset, whence) =>
      var p := match whence
        case SeekSet => offset
        case SeekCur => pos + offset
        case SeekEnd => SizeOf(log) + offset
        case SeekOther => -1;
      LogResult(log, if 0 <= p <= BUFFER_SIZE then Reply(p, p, []) else Reply(-EINVAL, pos, []))
  }

  /** A seek offset is a 64-bit number. */
  predicate OffsetInWord(call: Call) {
    call.Seek? ==> -(HALF as int) <= call.offset < HALF
  }

  // ---------- one call ----------

  /** The buffer holds the bytes of the writes, the data size is the furthest end. */
  ghost predicate Holds(d: Device, log: seq<Record>) {
    && ValidDevice(d)
    && d.dataSize == SizeOf(log)
    && forall i | 0 <= i < BUFFER_SIZE :: d.buffer[i] == ByteAt(log, i)
  }

  /** Every write in the list counts, or has only zeros past the size it found. */
  predicate NoResidue(log: seq<Record>)
    decreases |log|
  {
    log == [] ||
    var before, w := log[..|log| - 1], log[|log| - 1];
    && NoResidue(before)
    && (w.counts || forall i | 0 <= i < |w.data| && SizeOf(before) <= w.pos + i :: w.data[i] == 0)
  }

  lemma {:induction false} PastTheEndIsZero(log: seq<Record>, i: nat)
    requires SizeOf(log) <= i && NoResidue(log)
    ensures ByteAt(log, i) == 0
    decreases |log|
  {
    if log != [] {
      PastTheEndIsZero(log[..|log| - 1], i);
    }
  }

  lemma AppendRecord(log: seq<Record>, w: Record)
    ensures SizeOf(log + [w]) == Max(SizeOf(log), End(w))
    ensures forall i: nat :: ByteAt(log + [w], i) ==
              if w.pos <= i < w.pos + |w.data| then w.data[i - w.pos] else ByteAt(log, i)
  {
  }

  lemma ReadMeans(d: Device, log: seq<Record>, pos: nat, count: nat, writable: nat)
    requires Holds(d, log)
    ensures ReadCall(d, pos, count, writable) == Meaning(log, pos, Read(count, writable)).reply
  {
    if pos < d.dataSize {
      var n := Min(count, d.dataSize - pos);
      var got := Min(n, writable);
      assert d.buffer[pos..pos + got] == BytesFrom(log, pos, got);
    }
  }

  lemma WriteMeans(d: Device, log: seq<Record>, pos: nat, data: seq<Byte>, count: nat)
    requires Holds(d, log)
    ensures WriteCall(d, pos, data, count).reply == Meaning(log, pos, Write(data, count)).reply
    ensures Holds(WriteCall(d, pos, data, count).dev, Meaning(log, pos, Write(data, count)).log)
  {
    if pos < BUFFER_SIZE {
      var n := Min(count, BUFFER_SIZE - pos);
      var w := Record(pos, Fetched(data, n), n <= |data|);
      AppendRecord(log, w);
      assert n <= |data| ==> Fetched(data, n) == data[..n];
    }
  }

  /** Every call, also one whose user copy faults, replies as the list of writes says and leaves the
      device holding the extended list. */
  lemma CallMeans(d: Device, log: seq<Record>, pos: nat, call: Call)
    requires Holds(d, log) && pos <= BUFFER_SIZE && OffsetInWord(call)
    ensures Apply(d, pos, call).reply == Meaning(log, pos, call).reply
    ensures Holds(Apply(d, pos, call).dev, Meaning(log, pos, call).log)
  {
    match call
    case Read(count, writable) => ReadMeans(d, log, pos, count, writable);
    case Write(data, count) => WriteMeans(d, log, pos, data, count);
    case Seek(offset, whence) => SeekAcceptsTrueSum(d, pos, offset, whence);
  }

  // ---------- histories over many minors and many open files ----------

  datatype OpenFile = OpenFile(minor: nat, pos: nat)

  datatype Op = Open(minor: nat) | Do(fd: nat, call: Call)

  /** The driver: devices and open files. */
  datatype Driver = Driver(devs: seq<Device>, files: seq<OpenFile>)

  /** The reference: lists of writes and open files. */
  datatype Reference = Reference(logs: seq<seq<Record>>, files: seq<OpenFile>)

  predicate FilesInRange(files: seq<OpenFile>, minors: nat) {
    forall f | f in files :: f.minor < minors && f.pos <= BUFFER_SIZE
  }

  predicate DriverOk(s: Driver) {
    (forall d | d in s.devs :: ValidDevice(d)) && FilesInRange(s.files, |s.devs|)
  }

  const NOTHING := Reply(0, 0, [])

  /** One system call on the driver; opening a missing minor or using an unopened file does nothing. */
  function Perform(s: Driver, op: Op): (r: (Driver, Reply))
    requires DriverOk(s)
    ensures DriverOk(r.0)
  {
    match op
    case Open(minor) =>
      (if minor < |s.devs| then s.(files := s.files + [OpenFile(minor, 0)]) else s, NOTHING)
    case Do(fd, call) =>
      if fd >= |s.files| then (s, NOTHING)
      else
        var f := s.files[fd];
        var r := Apply(s.devs[f.minor], f.pos, call);
        PositionStaysInside(s.devs[f.minor], f.pos, call);
        (Driver(s.devs[f.minor := r.dev], s.files[fd := f.(pos := r.reply.pos)]), r.reply)
  }

  function Replies(s: Driver, history: seq<Op>): seq<Reply>
    requires DriverOk(s)
    decreases history
  {
    if history == [] then []
    else
      var r := Perform(s, history[0]);
      [r.1] + Replies(r.0, history[1..])
  }

  function Final(s: Driver, history: seq<Op>): (r: Driver)
    requires DriverOk(s)
    ensures DriverOk(r)
    decreases history
  {
    if history == [] then s else Final(Perform(s, history[0]).0, history[1..])
  }

  /** An opened file is a new one on its minor, at position zero, and the first call through it is the
      call at position zero; what it replies and where it ends is that call's, and no other file moves. */
  lemma OpenedFile(s: Driver, minor: nat, call: Call)
    requires DriverOk(s) && minor < |s.devs|
    ensures var fd, grown := |s.files|, Perform(s, Open(minor)).0;
      var after := Perform(grown, Do(fd, call));
      && grown.devs == s.devs && |grown.files| == fd + 1
      && after.1 == Apply(s.devs[minor], 0, call).reply
      && after.0.devs == s.devs[minor := Apply(s.devs[minor], 0, call).dev]
      && after.0.files == s.files + [OpenFile(minor, after.1.pos)]
  {
    PositionStaysInside(s.devs[minor], 0, call);
  }

  /** Opening a minor that does not exist, and a call through a file that is not open, change nothing. */
  lemma NothingToOpen(s: Driver, minor: nat, fd: nat, call: Call)
    requires DriverOk(s)
    ensures minor >= |s.devs| ==> Perform(s, Open(minor)) == (s, NOTHING)
    ensures fd >= |s.files| ==> Perform(s, Do(fd, call)) == (s, NOTHING)
  {
  }

  predicate ReferenceOk(t: Reference) {
    FilesInRange(t.files, |t.logs|) && forall log | log in t.logs :: SizeOf(log) <= BUFFER_SIZE
  }

  predicate Valid(op: Op) {
    op.Do? ==> OffsetInWord(op.call)
  }

  /** The same system call on the reference. */
  function Intend(t: Reference, op: Op): (r: (Reference, Reply))
    requires ReferenceOk(t)
    ensures ReferenceOk(r.0)
  {
    match op
    case Open(minor) =>
      (if minor < |t.logs| then t.(files := t.files + [OpenFile(minor, 0)]) else t, NOTHING)
    case Do(fd, call) =>
      if fd >= |t.files| then (t, NOTHING)
      else
        var f := t.files[fd];
        var r := Meaning(t.logs[f.minor], f.pos, call);
        (Reference(t.logs[f.minor := r.log], t.files[fd := f.(pos := r.reply.pos)]), r.reply)
  }

  function Intended(t: Reference, history: seq<Op>): seq<Reply>
    requires ReferenceOk(t)
    decreases history
  {
    if history == [] then []
    else
      var r := Intend(t, history[0]);
      [r.1] + Intended(r.0, history[1..])
  }

  function Meant(t: Reference, history: seq<Op>): (r: Reference)
    requires ReferenceOk(t)
    ensures ReferenceOk(r)
    decreases history
  {
    if history == [] then t else Meant(Intend(t, history[0]).0, history[1..])
  }

  ghost predicate Refines(s: Driver, t: Reference) {
    && DriverOk(s) && ReferenceOk(t)
    && s.files == t.files && |s.devs| == |t.logs|
    && forall m | 0 <= m < |s.devs| :: Holds(s.devs[m], t.logs[m])
  }

  lemma PerformRefines(s: Driver, t: Reference, op: Op)
    requires Refines(s, t) && Valid(op)
    ensures Refines(Perform(s, op).0, Intend(t, op).0)
    ensures Perform(s, op).1 == Intend(t, op).1
  {
    if op.Do? && op.fd < |s.files| {
      var f := s.files[op.fd];
      assert Holds(s.devs[f.minor], t.logs[f.minor]);
      CallMeans(s.devs[f.minor], t.logs[f.minor], f.pos, op.call);
      PositionStaysInside(s.devs[f.minor], f.pos, op.call);
    }
  }

  lemma {:induction false} HistoryRefines(s: Driver, t: Reference, history: seq<Op>)
    requires Refines(s, t) && forall op | op in history :: Valid(op)
    ensures Replies(s, history) == Intended(t, history)
    ensures Refines(Final(s, history), Meant(t, history))
    decreases history
  {
    if history != [] {
      PerformRefines(s, t, history[0]);
      HistoryRefines(Perform(s, history[0]).0, Intend(t, history[0]).0, history[1..]);
    }
  }

  /** The driver as loaded: `n` zero-filled devices, nothing open. */
  function Loaded(n: nat): (s: Driver)
    ensures DriverOk(s)
  {
    Driver(seq(n, i => Device(Zeros(BUFFER_SIZE), 0)), [])
  }

  function NoWrites(n: nat): (t: Reference)
    ensures ReferenceOk(t)
  {
    Reference(seq(n, i => []), [])
  }

  /** From load on, over any number of minors and open files: every reply is the one the lists of
      writes give, every device holds exactly what its writes left, every position is inside the
      buffer, and where no faulting write left a residue the bytes at and past the data size are zero. */
  lemma SparseFiles(n: nat, history: seq<Op>)
    requires forall op | op in history :: Valid(op)
    ensures Replies(Loaded(n), history) == Intended(NoWrites(n), history)
    ensures var s, t := Final(Loaded(n), history), Meant(NoWrites(n), history);
      && |s.devs| == |t.logs| == n
      && FilesInRange(s.files, n)
      && forall m | 0 <= m < n :: Holds(s.devs[m], t.logs[m]) && (NoResidue(t.logs[m]) ==> ZeroTail(s.devs[m]))
  {
    HistoryRefines(Loaded(n), NoWrites(n), history);
    SizesKept(Loaded(n), history);
    var s, t := Final(Loaded(n), history), Meant(NoWrites(n), history);
    forall m | 0 <= m < n && NoResidue(t.logs[m]) ensures ZeroTail(s.devs[m]) {
      forall i | s.devs[m].dataSize <= i < BUFFER_SIZE ensures s.devs[m].buffer[i] == 0 {
        PastTheEndIsZero(t.logs[m], i);
      }
    }
  }

  /** In no history, whatever faults and whatever is sought, does a minor's data size fall. */
  lemma {:induction false} SizesKept(s: Driver, history: seq<Op>)
    requires DriverOk(s)
    ensures |Final(s, history).devs| == |s.devs|
    ensures forall m | 0 <= m < |s.devs| :: s.devs[m].dataSize <= Final(s, history).devs[m].dataSize
    decreases history
  {
    if history != [] {
      SizesKept(Perform(s, history[0]).0, history[1..]);
    }
  }
}
