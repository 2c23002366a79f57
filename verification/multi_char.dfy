/**
 One device of the multi-minor character driver: what a read, a write or a seek does to the
 device's buffer and data size, and what it hands back. The position argument of a read or write
 is the one the VFS passes, which is never negative.
 */
module MultiChar {
  import opened Common

  const BUFFER_SIZE: nat := 1024

  datatype Device = Device(buffer: seq<Byte>, dataSize: nat)

  predicate ValidDevice(d: Device) {
    |d.buffer| == BUFFER_SIZE && d.dataSize <= BUFFER_SIZE
  }

  datatype Whence = SeekSet | SeekCur | SeekEnd | SeekOther

  /** A call with its user memory. A read may fill `writable` bytes of user space before the copy
      faults; a write can fetch the bytes of `data` and faults if `count` reaches further. */
  datatype Call =
    | Read(count: nat, writable: nat)
    | Write(data: seq<Byte>, count: nat)
    | Seek(offset: int, whence: Whence)

  /** Return value, new position, and the bytes delivered to user space. */
  datatype Reply = Reply(ret: int, pos: int, data: seq<Byte>)

  datatype Result = Result(dev: Device, reply: Reply)

  function Overlay(b: seq<Byte>, pos: nat, x: seq<Byte>): (r: seq<Byte>)
    requires pos + |x| <= |b|
    ensures |r| == |b|
    ensures forall i | 0 <= i < |b| :: r[i] == if pos <= i < pos + |x| then x[i - pos] else b[i]
  {
    b[..pos] + x + b[pos + |x|..]
  }

  /** What `copy_from_user` leaves in the destination: the bytes it could fetch, then zeros. */
  function Fetched(data: seq<Byte>, n: nat): (r: seq<Byte>)
    ensures |r| == n
    ensures forall i | 0 <= i < n :: r[i] == if i < |data| then data[i] else 0
  {
    seq(n, i requires 0 <= i < n => if i < |data| then data[i] else 0)
  }

  function ReadCall(d: Device, pos: nat, count: nat, writable: nat): Reply
    requires ValidDevice(d)
  {
    if pos >= d.dataSize then Reply(0, pos, [])
    else
      var n := Min(count, d.dataSize - pos);
      if n > writable then Reply(-EFAULT, pos, d.buffer[pos..pos + writable])
      else Reply(n, pos + n, d.buffer[pos..pos + n])
  }

  /** A write raises the data size even when it writes no byte; a faulting one changes the buffer
      but neither size nor position. */
  function WriteCall(d: Device, pos: nat, data: seq<Byte>, count: nat): (r: Result)
    requires ValidDevice(d)
    ensures ValidDevice(r.dev)
  {
    if pos >= BUFFER_SIZE then Result(d, Reply(-ENOSPC, pos, []))
    else
      var n := Min(count, BUFFER_SIZE - pos);
      var b := Overlay(d.buffer, pos, Fetched(data, n));
      if n > |data| then Result(Device(b, d.dataSize), Reply(-EFAULT, pos, []))
      else Result(Device(b, Max(d.dataSize, pos + n)), Reply(n, pos + n, []))
  }

  const WORD: nat := 0x1_0000_0000_0000_0000
  const HALF: nat := 0x8000_0000_0000_0000

  /** The 64-bit two's complement value of an integer. */
  function Signed64(x: int): int {
    (x + HALF) % WORD - HALF
  }

  /** The sum a seek asks for, without wrap-around. */
  function TruePosition(d: Device, pos: int, offset: int, whence: Whence): int {
    match whence
    case SeekSet => offset
    case SeekCur => pos + offset
    case SeekEnd => d.dataSize + offset
    case SeekOther => -1
  }

  /** The sum the driver computes: 64-bit additions wrap. */
  function WrappedPosition(d: Device, pos: int, offset: int, whence: Whence): int {
    match whence
    case SeekSet => offset
    case SeekCur => Signed64(pos + offset)
    case SeekEnd => Signed64(d.dataSize + offset)
    case SeekOther => -1
  }

  function SeekCall(d: Device, pos: int, offset: int, whence: Whence): Reply {
    if whence == SeekOther then Reply(-EINVAL, pos, [])
    else
      var newPos := WrappedPosition(d, pos, offset, whence);
      if newPos < 0 || newPos > BUFFER_SIZE then Reply(-EINVAL, pos, [])
      else Reply(newPos, newPos, [])
  }

  function Apply(d: Device, pos: nat, call: Call): (r: Result)
    requires ValidDevice(d)
    ensures ValidDevice(r.dev)
  {
    match call
    case Read(count, writable) => Result(d, ReadCall(d, pos, count, writable))
    case Write(data, count) => WriteCall(d, pos, data, count)
    case Seek(offset, whence) => Result(d, SeekCall(d, pos, offset, whence))
  }

  // ---------- positions ----------

  /** The wrapped sum is accepted exactly when the true sum is a position of the buffer, and then
      it is the true sum, for every 64-bit offset and every position the driver can store. */
  lemma SeekAcceptsTrueSum(d: Device, pos: nat, offset: int, whence: Whence)
    requires ValidDevice(d) && pos < HALF && -(HALF as int) <= offset < HALF
    ensures var p := TruePosition(d, pos, offset, whence);
      SeekCall(d, pos, offset, whence) ==
        if 0 <= p <= BUFFER_SIZE then Reply(p, p, []) else Reply(-EINVAL, pos, [])
  {
  }

  /** From a position inside the buffer every call leaves a position inside the buffer. */
  lemma PositionStaysInside(d: Device, pos: nat, call: Call)
    requires ValidDevice(d) && pos <= BUFFER_SIZE
    ensures 0 <= Apply(d, pos, call).reply.pos <= BUFFER_SIZE
  {
  }

  // ---------- bytes past the data size ----------

  ghost predicate ZeroTail(d: Device) {
    forall i | d.dataSize <= i < |d.buffer| :: d.buffer[i] == 0
  }

  /** A write that faults after having fetched a nonzero byte for a place past the data size. */
  ghost predicate LeavesResidue(d: Device, pos: nat, call: Call) {
    && call.Write? && pos < BUFFER_SIZE
    && |call.data| < Min(call.count, BUFFER_SIZE - pos)
    && exists i :: 0 <= i < |call.data| && d.dataSize <= pos + i && call.data[i] != 0
  }

  /** Bytes at and past the data size stay zero under every call except exactly those writes. */
  lemma ZeroTailKeptUnlessResidue(d: Device, pos: nat, call: Call)
    requires ValidDevice(d) && ZeroTail(d)
    ensures ZeroTail(Apply(d, pos, call).dev) <==> !LeavesResidue(d, pos, call)
  {
    var d' := Apply(d, pos, call).dev;
    if LeavesResidue(d, pos, call) {
      var i :| 0 <= i < |call.data| && d.dataSize <= pos + i && call.data[i] != 0;
      assert d'.buffer[pos + i] == call.data[i];
    } else if call.Write? && pos < BUFFER_SIZE {
      var n := Min(call.count, BUFFER_SIZE - pos);
      forall i | d'.dataSize <= i < |d'.buffer| ensures d'.buffer[i] == 0 {
        if n > |call.data| && pos <= i < pos + |call.data| {
          assert call.data[i - pos] == 0;
        }
      }
    }
  }

  function Zeros(n: nat): (r: seq<Byte>)
    ensures |r| == n && forall i | 0 <= i < n :: r[i] == 0
  {
    seq(n, i => 0)
  }

  /** Such a residue shows: after a faulting write of one byte at 0, moving past it and writing,
      the hole reads back as that byte. */
  lemma ResidueShowsInHole(b: Byte)
    requires b != 0
    ensures var d0 := Device(Zeros(BUFFER_SIZE), 0);
      var d1 := Apply(d0, 0, Write([b], 2)).dev;
      var d2 := Apply(d1, 1, Write([7], 1)).dev;
      && Apply(d0, 0, Write([b], 2)).reply.ret == -EFAULT
      && Apply(d2, 0, Read(1, 1)).reply.data == [b]
  {
  }
}
