/** The handlers in their own form: they lock the device, change its array in place byte by byte,
    move the caller's position, and unlock on every path. */
module MultiCharDevice {
  import opened Common
  import opened MultiChar

  class Dev {
    const minor: nat
    const buffer: array<Byte>
    var dataSize: nat
    var locked: bool

    ghost predicate Valid()
      reads this
    {
      buffer.Length == BUFFER_SIZE && dataSize <= BUFFER_SIZE
    }

    ghost function Contents(): (d: Device)
      requires Valid()
      reads this, buffer
      ensures ValidDevice(d)
    {
      Device(buffer[..], dataSize)
    }

    /** A device as the module's init leaves it: zero-filled memory, no data, lock free. */
    constructor (minor: nat)
      ensures Valid() && !locked && fresh(buffer) && this.minor == minor
      ensures Contents() == Device(Zeros(BUFFER_SIZE), 0)
    {
      this.minor := minor;
      this.buffer := new Byte[BUFFER_SIZE](_ => 0);
      this.dataSize := 0;
      this.locked := false;
      new;
      assert buffer[..] == Zeros(BUFFER_SIZE);
    }

    method Lock()
      requires !locked
      modifies this`locked
      ensures locked
    {
      locked := true;
    }

    method Unlock()
      requires locked
      modifies this`locked
      ensures !locked
    {
      locked := false;
    }

    /** Copies up to `n` bytes from `pos` on; stops at the first byte user space does not take. */
    method CopyToUser(pos: nat, n: nat, writable: nat) returns (out: seq<Byte>, ok: bool)
      requires pos + n <= buffer.Length
      ensures ok <==> n <= writable
      ensures out == buffer[pos..pos + Min(n, writable)]
    {
      out := [];
      while |out| < n && |out| < writable
        invariant |out| <= Min(n, writable)
        invariant out == buffer[pos..pos + |out|]
      {
        out := out + [buffer[pos + |out|]];
      }
      ok := |out| == n;
    }

    /** Fills `n` bytes from `pos` on with what user space yields, then with zeros. */
    method CopyFromUser(pos: nat, data: seq<Byte>, n: nat) returns (ok: bool)
      requires pos + n <= buffer.Length
      modifies buffer
      ensures ok <==> n <= |data|
      ensures buffer[..] == Overlay(old(buffer[..]), pos, Fetched(data, n))
    {
      var k := 0;
      while k < n
        invariant k <= n
        invariant forall i | 0 <= i < buffer.Length ::
          buffer[i] == if pos <= i < pos + k then Fetched(data, n)[i - pos] else old(buffer[i])
      {
        buffer[pos + k] := if k < |data| then data[k] else 0;
        k := k + 1;
      }
      ok := n <= |data|;
    }

    method Read(count: nat, writable: nat, offset: nat) returns (ret: int, newOffset: nat, out: seq<Byte>)
      requires Valid() && !locked
      modifies this`locked
      ensures Valid() && !locked && Contents() == old(Contents())
      ensures Reply(ret, newOffset, out) == ReadCall(Contents(), offset, count, writable)
      ensures ret == -14 || 0 <= ret == newOffset - offset == |out| <= count
      ensures ret == -14 <==> offset < dataSize && writable < Min(count, dataSize - offset)
      ensures forall k | 0 <= k < |out| :: offset + k < dataSize && out[k] == buffer[offset + k]
      ensures ret >= 0 && ret < count ==> offset + ret >= dataSize
    {
      Lock();
      newOffset, out := offset, [];
      if offset >= dataSize {
        ret := 0;
      } else {
        var bytesToRead := Min(count, dataSize - offset);
        var ok;
        out, ok := CopyToUser(offset, bytesToRead, writable);
        var n := Min(bytesToRead, writable);
        assert buffer[offset..offset + n] == buffer[..][offset..offset + n];
        if ok {
          newOffset := offset + bytesToRead;
          ret := bytesToRead;
        } else {
          ret := -EFAULT;
        }
      }
      Unlock();
    }

    method Write(data: seq<Byte>, count: nat, offset: nat) returns (ret: int, newOffset: nat)
      requires Valid() && !locked
      modifies this`locked, this`dataSize, buffer
      ensures Valid() && !locked
      ensures Result(Contents(), Reply(ret, newOffset, [])) == WriteCall(old(Contents()), offset, data, count)
      ensures offset >= 1024 ==> ret == -28 && Contents() == old(Contents())
      ensures offset < 1024 ==> ret == if Min(count, 1024 - offset) <= |data| then Min(count, 1024 - offset) else -14
      ensures ret >= 0 ==>
                && newOffset == offset + ret && dataSize == Max(old(dataSize), newOffset)
                && forall i | 0 <= i < buffer.Length ::
                     buffer[i] == if offset <= i < newOffset then data[i - offset] else old(buffer[i])
      ensures ret < 0 ==> newOffset == offset && dataSize == old(dataSize)
    {
      Lock();
      newOffset := offset;
      if offset >= BUFFER_SIZE {
        ret := -ENOSPC;
      } else {
        var bytesToWrite := Min(count, BUFFER_SIZE - offset);
        var ok := CopyFromUser(offset, data, bytesToWrite);
        if ok {
          newOffset := offset + bytesToWrite;
          if dataSize < newOffset {
            dataSize := newOffset;
          }
          ret := bytesToWrite;
        } else {
          ret := -EFAULT;
        }
      }
      Unlock();
    }
  }

  /** An open file: its device and its position. */
  class File {
    const privateData: Dev
    var fPos: int

    constructor (dev: Dev)
      ensures privateData == dev && fPos == 0
    {
      privateData := dev;
      fPos := 0;
    }

    method Llseek(offset: int, whence: Whence) returns (ret: int)
      requires privateData.Valid() && !privateData.locked
      modifies this, privateData`locked
      ensures privateData.Valid() && !privateData.locked
      ensures privateData.Contents() == old(privateData.Contents())
      ensures Reply(ret, fPos, []) == SeekCall(privateData.Contents(), old(fPos), offset, whence)
      ensures 0 <= old(fPos) <= 1024 && -(HALF as int) <= offset < HALF ==>
                var p := match whence
                  case SeekSet => offset
                  case SeekCur => old(fPos) + offset
                  case SeekEnd => privateData.dataSize + offset
                  case SeekOther => -1;
                if 0 <= p <= 1024 then ret == fPos == p else ret == -22 && fPos == old(fPos)
    {
      privateData.Lock();
      var newPos: int;
      match whence {
        case SeekSet => newPos := offset;
        case SeekCur => newPos := Signed64(fPos + offset);
        case SeekEnd => newPos := Signed64(privateData.dataSize + offset);
        case SeekOther =>
          privateData.Unlock();
          return -EINVAL;
      }
      if newPos < 0 || newPos > BUFFER_SIZE {
        privateData.Unlock();
        return -EINVAL;
      }
      fPos := newPos;
      privateData.Unlock();
      ret := newPos;
    }
  }
}
