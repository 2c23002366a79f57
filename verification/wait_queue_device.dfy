/** The mailbox used by one process at a time: a write replaces the stored string, a read that finds
    data takes it. */
module WaitQueueDevice {
  import opened Common

  const BUFFER_SIZE: nat := 100

  /** A stored string ends at its first zero byte. */
  function CString(b: seq<Byte>): (r: seq<Byte>)
    ensures |r| <= |b| && r == b[..|r|] && 0 !in r
    ensures |r| < |b| ==> b[|r|] == 0
    ensures forall k | 0 <= k < |b| && b[k] == 0 :: |r| <= k
  {
    if b == [] || b[0] == 0 then [] else [b[0]] + CString(b[1..])
  }

  /** What a message leaves in the cleared buffer. */
  function Stored(data: seq<Byte>): (r: seq<Byte>)
    ensures |r| == BUFFER_SIZE
    ensures forall i | 0 <= i < 100 :: r[i] == if i < 99 && i < |data| then data[i] else 0
  {
    var n := Min(|data|, BUFFER_SIZE - 1);
    data[..n] + seq(BUFFER_SIZE - n, i => 0)
  }

  class Mailbox {
    const deviceBuffer: array<Byte>
    var dataAvailable: bool

    predicate Valid()
      reads this
    {
      deviceBuffer.Length == BUFFER_SIZE
    }

    constructor ()
      ensures Valid() && !dataAvailable && fresh(deviceBuffer)
    {
      deviceBuffer := new Byte[BUFFER_SIZE](_ => 0);
      dataAvailable := false;
    }

    /** A write of `count` bytes of which user space holds only `data`. The buffer is cleared before
        the copy, so a faulting one loses the stored message, and says nothing to a reader. */
    method WqWrite(data: seq<Byte>, count: nat) returns (ret: int)
      requires Valid()
      modifies this`dataAvailable, deviceBuffer
      ensures |data| >= Min(count, BUFFER_SIZE - 1) ==>
                && ret == Min(count, BUFFER_SIZE - 1) && dataAvailable
                && deviceBuffer[..] == Stored(data[..ret])
      ensures |data| < Min(count, BUFFER_SIZE - 1) ==>
                && ret == -EFAULT && dataAvailable == old(dataAvailable)
                && deviceBuffer[..] == Stored(data)
    {
      var bytesToWrite := Min(count, BUFFER_SIZE - 1);
      var i := 0;
      while i < BUFFER_SIZE
        modifies deviceBuffer
        invariant i <= BUFFER_SIZE && forall k | 0 <= k < i :: deviceBuffer[k] == 0
      {
        deviceBuffer[i] := 0;
        i := i + 1;
      }
      var fetched := Min(bytesToWrite, |data|);
      i := 0;
      while i < fetched
        modifies deviceBuffer
        invariant i <= fetched
        invariant forall k | 0 <= k < BUFFER_SIZE :: deviceBuffer[k] == if k < i then data[k] else 0
      {
        deviceBuffer[i] := data[i];
        i := i + 1;
      }
      assert deviceBuffer[..] == Stored(data[..fetched]);
      if fetched < bytesToWrite {
        assert data[..fetched] == data;
        return -EFAULT;
      }
      deviceBuffer[bytesToWrite] := 0;
      assert deviceBuffer[..] == Stored(data[..fetched]);
      dataAvailable := true;
      ret := bytesToWrite;
    }

    method StrLen() returns (n: nat)
      requires Valid()
      ensures n == |CString(deviceBuffer[..])|
    {
      n := 0;
      ghost var all := deviceBuffer[..];
      while n < BUFFER_SIZE && deviceBuffer[n] != 0
        invariant n <= BUFFER_SIZE && forall k | 0 <= k < n :: all[k] != 0
      {
        n := n + 1;
      }
    }

    /** A read into `writable` bytes of user space, with data there or a signal waiting. Only a read
        whose copy succeeds takes the message. */
    method WqRead(count: nat, writable: nat, signalled: bool) returns (ret: int, out: seq<Byte>)
      requires Valid() && (dataAvailable || signalled)
      modifies this`dataAvailable
      ensures var s := CString(deviceBuffer[..]);
        var n := Min(count, |s|);
        if !old(dataAvailable) then ret == -ERESTARTSYS && out == [] && !dataAvailable
        else if writable < n then ret == -EFAULT && out == s[..writable] && dataAvailable
        else ret == n && out == s[..n] && !dataAvailable
    {
      if !dataAvailable {
        return -ERESTARTSYS, [];
      }
      var len := StrLen();
      var bytesToRead := Min(count, len);
      out := deviceBuffer[..Min(bytesToRead, writable)];
      assert out == deviceBuffer[..][..Min(bytesToRead, writable)];
      if writable < bytesToRead {
        return -EFAULT, out;
      }
      dataAvailable := false;
      ret := bytesToRead;
    }
  }

  /** What a read of `count` bytes returns after a message has been written. */
  function Delivered(data: seq<Byte>, count: nat): seq<Byte> {
    var s := CString(Stored(data));
    s[..Min(count, |s|)]
  }

  /** A message comes back whole exactly when it has no zero byte, leaves room for the terminator,
      and the reader asks for all of it. */
  lemma RoundTrip(data: seq<Byte>, count: nat)
    ensures Delivered(data, count) == data <==> 0 !in data && |data| < BUFFER_SIZE && |data| <= count
  {
    var b := Stored(data);
    var s := CString(b);
    var n := Min(|data|, BUFFER_SIZE - 1);
    assert b[n] == 0;
    if 0 !in data && |data| < BUFFER_SIZE {
      assert forall k | 0 <= k < n :: b[k] == data[k];
      assert s == data;
    }
    if Delivered(data, count) == data {
      assert data == s[..|data|];
    }
  }
}
