/** Splitting a transfer into several system calls changes nothing. */
module MultiCharChunks {
  import opened Common
  import opened MultiChar

  datatype Place = Place(dev: Device, pos: nat)

  function WholeWrite(data: seq<Byte>): Call {
    Write(data, |data|)
  }

  /** A program that writes `data`, resubmits what a short write left over, and gives up on an error. */
  function Submit(p: Place, data: seq<Byte>): (r: Place)
    requires ValidDevice(p.dev)
    ensures ValidDevice(r.dev)
    decreases |data|
  {
    var r := Apply(p.dev, p.pos, WholeWrite(data));
    if r.reply.ret <= 0 then Place(r.dev, r.reply.pos)
    else if r.reply.ret == |data| then Place(r.dev, r.reply.pos)
    else Submit(Place(r.dev, r.reply.pos), data[r.reply.ret..])
  }

  function SubmitAll(p: Place, chunks: seq<seq<Byte>>): (r: Place)
    requires ValidDevice(p.dev)
    ensures ValidDevice(r.dev)
    decreases chunks
  {
    if chunks == [] then p else SubmitAll(Submit(p, chunks[0]), chunks[1..])
  }

  function Concat(chunks: seq<seq<Byte>>): seq<Byte> {
    if chunks == [] then [] else chunks[0] + Concat(chunks[1..])
  }

  /** The device and position after one write of everything. */
  function Once(p: Place, data: seq<Byte>): (r: Place)
    requires ValidDevice(p.dev)
    ensures ValidDevice(r.dev)
  {
    var r := Apply(p.dev, p.pos, WholeWrite(data));
    Place(r.dev, r.reply.pos)
  }

  /** Resubmitting the rest of a short write writes nothing more. */
  lemma SubmitIsOnce(p: Place, data: seq<Byte>)
    requires ValidDevice(p.dev)
    ensures Submit(p, data) == Once(p, data)
  {
  }

  lemma OverlayTwice(b: seq<Byte>, pos: nat, x: seq<Byte>, y: seq<Byte>)
    requires pos + |x| + |y| <= |b|
    ensures Overlay(Overlay(b, pos, x), pos + |x|, y) == Overlay(b, pos, x + y)
  {
  }

  /** Two writes in a row are one write of both. */
  lemma TwoWrites(p: Place, x: seq<Byte>, y: seq<Byte>)
    requires ValidDevice(p.dev)
    ensures Once(Once(p, x), y) == Once(p, x + y)
  {
    if p.pos < BUFFER_SIZE {
      if p.pos + |x| < BUFFER_SIZE {
        var k := Min(|y|, BUFFER_SIZE - p.pos - |x|);
        assert x[..|x|] == x;
        OverlayTwice(p.dev.buffer, p.pos, x, y[..k]);
        assert (x + y)[..|x| + k] == x + y[..k];
      } else {
        assert (x + y)[..BUFFER_SIZE - p.pos] == x[..BUFFER_SIZE - p.pos];
      }
    }
  }

  /** A message cut into any nonempty list of writes, empty ones included, with remainders
      resubmitted, leaves the buffer, the size and the position of a single write. */
  lemma {:induction false} ChunkedWrites(p: Place, chunks: seq<seq<Byte>>)
    requires ValidDevice(p.dev) && chunks != []
    ensures SubmitAll(p, chunks) == Once(p, Concat(chunks))
    decreases chunks
  {
    SubmitIsOnce(p, chunks[0]);
    if |chunks| == 1 {
      assert chunks[0] + Concat(chunks[1..]) == chunks[0];
    } else {
      ChunkedWrites(Once(p, chunks[0]), chunks[1..]);
      TwoWrites(p, chunks[0], Concat(chunks[1..]));
    }
  }

  /** An empty list is the exception: no write at all leaves the size alone, while an empty write
      past the end raises it. */
  lemma NoWriteIsNotAnEmptyWrite(p: Place)
    requires ValidDevice(p.dev)
    ensures SubmitAll(p, []) == Once(p, []) <==> p.pos <= p.dev.dataSize || p.pos >= BUFFER_SIZE
  {
  }

  // ---------- reading in pieces ----------

  datatype Transcript = Transcript(data: seq<Byte>, pos: nat)

  /** Successive reads of the given counts from a position. */
  function ReadAll(d: Device, pos: nat, counts: seq<nat>): Transcript
    requires ValidDevice(d)
    decreases counts
  {
    if counts == [] then Transcript([], pos)
    else
      var r := Apply(d, pos, Read(counts[0], counts[0])).reply;
      var rest := ReadAll(d, r.pos, counts[1..]);
      Transcript(r.data + rest.data, rest.pos)
  }

  function Sum(counts: seq<nat>): nat {
    if counts == [] then 0 else counts[0] + Sum(counts[1..])
  }

  /** What is stored between a position and the data size, cut to `n` bytes. */
  function Stored(d: Device, pos: nat, n: nat): seq<Byte>
    requires ValidDevice(d)
  {
    if pos >= d.dataSize then [] else d.buffer[pos..pos + Min(n, d.dataSize - pos)]
  }

  lemma OneRead(d: Device, pos: nat, count: nat)
    requires ValidDevice(d)
    ensures var x := Stored(d, pos, count);
      Apply(d, pos, Read(count, count)).reply == Reply(|x|, pos + |x|, x)
  {
  }

  /** Reads of any counts deliver, joined, the stored bytes from the position on, and leave the
      position right behind them. */
  lemma {:induction false} ChunkedReads(d: Device, pos: nat, counts: seq<nat>)
    requires ValidDevice(d)
    ensures ReadAll(d, pos, counts) ==
            Transcript(Stored(d, pos, Sum(counts)), pos + |Stored(d, pos, Sum(counts))|)
    decreases counts
  {
    if counts != [] {
      var n := |Stored(d, pos, counts[0])|;
      OneRead(d, pos, counts[0]);
      ChunkedReads(d, pos + n, counts[1..]);
      StoredSplits(d, pos, counts[0], Sum(counts[1..]));
    }
  }

  lemma StoredSplits(d: Device, pos: nat, m: nat, n: nat)
    requires ValidDevice(d)
    ensures var k := |Stored(d, pos, m)|;
      Stored(d, pos, m) + Stored(d, pos + k, n) == Stored(d, pos, m + n)
  {
  }

  lemma {:induction false} SumOfPositive(counts: seq<nat>)
    requires forall i | 0 <= i < |counts| :: counts[i] > 0
    ensures Sum(counts) >= |counts|
    decreases counts
  {
    if counts != [] {
      SumOfPositive(counts[1..]);
    }
  }

  /** As many reads of positive counts as there are bytes left deliver all of them, and from then
      on every read of any count is at end of file. */
  lemma ReadsReachEnd(d: Device, pos: nat, counts: seq<nat>, more: nat)
    requires ValidDevice(d) && pos <= d.dataSize
    requires forall i | 0 <= i < |counts| :: counts[i] > 0
    requires |counts| >= d.dataSize - pos
    ensures var t := ReadAll(d, pos, counts);
      && t == Transcript(d.buffer[pos..d.dataSize], d.dataSize)
      && Apply(d, t.pos, Read(more, more)).reply == Reply(0, t.pos, [])
  {
    SumOfPositive(counts);
    ChunkedReads(d, pos, counts);
  }
}
