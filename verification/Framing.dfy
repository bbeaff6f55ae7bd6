/** The compressed stream: length, data and a hash chained over all chunks so far.
    Compression and HMAC (section 2 of RFC 2104) are parameters. */
module Framing {
  import opened Words
  import Compressio

  type Bytes = seq<u8>

  /** The keyed hash, or none when no key was given. */
  datatype Hash = NoHash | Keyed(hmac: Bytes -> Bytes, size: nat)

  ghost predicate FixedSize(h: Hash) {
    h.Keyed? ==> forall b :: |h.hmac(b)| == h.size
  }

  // ----- big-endian words -----

  function PutUint32(n: u32): (b: Bytes)
    ensures |b| == 4
  {
    [n / 0x100 / 0x100 / 0x100, n / 0x100 / 0x100 % 0x100, n / 0x100 % 0x100, n % 0x100]
  }

  function GetUint32(b: Bytes): u32
    requires |b| >= 4
  {
    var b0: int, b1: int, b2: int, b3: int := b[0], b[1], b[2], b[3];
    ((b0 * 0x100 + b1) * 0x100 + b2) * 0x100 + b3
  }

  lemma GetPut(n: u32, rest: Bytes)
    ensures GetUint32(PutUint32(n) + rest) == n && (PutUint32(n) + rest)[4..] == rest
  {
    var b := PutUint32(n);
    assert (b + rest)[0] == b[0] && (b + rest)[1] == b[1] && (b + rest)[2] == b[2] && (b + rest)[3] == b[3];
    var q1: int := n / 0x100;
    var q2: int := q1 / 0x100;
    var q3: int := q2 / 0x100;
    assert n == q1 * 0x100 + b[3] && q1 == q2 * 0x100 + b[2] && q2 == q3 * 0x100 + b[1] && q3 == b[0];
  }

  lemma PutGet(b: Bytes)
    requires |b| >= 4
    ensures PutUint32(GetUint32(b)) == b[..4]
  {
    var b0: int, b1: int, b2: int, b3: int := b[0], b[1], b[2], b[3];
    var n := GetUint32(b);
    assert n % 0x100 == b3 && n / 0x100 == (b0 * 0x100 + b1) * 0x100 + b2;
    assert n / 0x100 / 0x100 == b0 * 0x100 + b1 && n / 0x100 / 0x100 / 0x100 == b0;
  }

  // ----- the stream -----

  /** The hash of a chunk: over its data, its length, and the hash before it. */
  function Sum(h: Hash, d: Bytes, last: Bytes): Bytes
    requires |d| < 0x1_0000_0000
  {
    if h.NoHash? then [] else h.hmac(d + PutUint32(|d|) + last)
  }

  function HeaderSum(h: Hash, chunkSize: u32): Bytes {
    if h.NoHash? then [] else h.hmac(PutUint32(chunkSize))
  }

  ghost predicate Small(ds: seq<Bytes>) {
    forall k :: 0 <= k < |ds| ==> |ds[k]| < 0x1_0000_0000
  }

  /** The chunks `ds` as they follow a hash `last`. */
  ghost function Frames(h: Hash, ds: seq<Bytes>, last: Bytes): Bytes
    requires Small(ds)
  {
    if ds == [] then []
    else
      var sum := Sum(h, ds[0], last);
      PutUint32(|ds[0]|) + ds[0] + sum + Frames(h, ds[1..], sum)
  }

  ghost function LastSum(h: Hash, ds: seq<Bytes>, last: Bytes): Bytes
    requires Small(ds)
  {
    if ds == [] then last else LastSum(h, ds[1..], Sum(h, ds[0], last))
  }

  lemma {:induction false} FramesAppend(h: Hash, ds: seq<Bytes>, d: Bytes, last: Bytes)
    requires Small(ds) && |d| < 0x1_0000_0000
    ensures Small(ds + [d])
    ensures var l := LastSum(h, ds, last);
            && Frames(h, ds + [d], last) == Frames(h, ds, last) + (PutUint32(|d|) + d + Sum(h, d, l))
            && LastSum(h, ds + [d], last) == Sum(h, d, l)
    decreases |ds|
  {
    if ds == [] {
      assert ds + [d] == [d];
      assert [d][1..] == [];
      assert Frames(h, [d], last) == PutUint32(|d|) + d + Sum(h, d, last) + [];
    } else {
      assert (ds + [d])[1..] == ds[1..] + [d];
      FramesAppend(h, ds[1..], d, Sum(h, ds[0], last));
    }
  }

  /** A whole stream: the header, then the frames. */
  ghost function Stream(h: Hash, chunkSize: u32, ds: seq<Bytes>): Bytes
    requires Small(ds)
  {
    PutUint32(chunkSize) + HeaderSum(h, chunkSize) + Frames(h, ds, HeaderSum(h, chunkSize))
  }

  lemma StreamAppend(h: Hash, chunkSize: u32, ds: seq<Bytes>, d: Bytes)
    requires Small(ds) && |d| < 0x1_0000_0000
    ensures var last := LastSum(h, ds, HeaderSum(h, chunkSize));
            && Small(ds + [d]) && LastSum(h, ds + [d], HeaderSum(h, chunkSize)) == Sum(h, d, last)
            && Stream(h, chunkSize, ds + [d]) == Stream(h, chunkSize, ds) + (PutUint32(|d|) + d + Sum(h, d, last))
  {
    hide Frames, LastSum, PutUint32, HeaderSum, Small, Sum;
    FramesAppend(h, ds, d, HeaderSum(h, chunkSize));
  }

  /** `writer`: what has reached the output, and the chain so far. */
  class Writer {
    const h: Hash
    const chunkSize: u32
    var out: Bytes
    var lastSum: Bytes
    ghost var written: seq<Bytes>

    ghost predicate Valid()
      reads this
    {
      && Small(written)
      && out == Stream(h, chunkSize, written)
      && lastSum == LastSum(h, written, HeaderSum(h, chunkSize))
    }

    constructor (h: Hash, chunkSize: u32)
      ensures Valid() && written == [] && this.h == h && this.chunkSize == chunkSize
    {
      this.h := h;
      this.chunkSize := chunkSize;
      lastSum := HeaderSum(h, chunkSize);
      out := PutUint32(chunkSize) + HeaderSum(h, chunkSize);
      written := [];
      new;
      assert out == out + [];
    }

    /** Writes one compressed chunk: length, data, hash. */
    method Flush(compressed: Bytes)
      requires Valid() && |compressed| < 0x1_0000_0000
      modifies this
      ensures Valid() && written == old(written) + [compressed]
    {
      hide Frames, LastSum, PutUint32, HeaderSum, Small, Stream;
      StreamAppend(h, chunkSize, written, compressed);
      out := out + PutUint32(|compressed|);
      out := out + compressed;
      if h.Keyed? {
        var sum := h.hmac(compressed + PutUint32(|compressed|) + lastSum);
        out := out + sum;
        lastSum := sum;
      } else {
        lastSum := [];
      }
      written := written + [compressed];
      assert out == old(out) + (PutUint32(|compressed|) + compressed + Sum(h, compressed, old(lastSum)));
    }
  }

  // ----- reading -----

  /** A chunk as scheduled for decompression: its data, the hash before it, the expected hash. */
  datatype Chunk = Chunk(data: Bytes, lastSum: Bytes, sum: Bytes)

  datatype Next = Got(c: Chunk) | EndOfStream | Unexpected

  /** The worker's check before decompressing. */
  predicate Accepts(h: Hash, c: Chunk)
    requires |c.data| < 0x1_0000_0000
  {
    h.Keyed? ==> h.hmac(c.data + PutUint32(|c.data|) + c.lastSum) == c.sum
  }

  /** What reading one chunk does to the remaining input and the chain. A stream that
      stops inside a length is taken as finished. */
  function ReadStep(h: Hash, input: Bytes, last: Bytes): (Next, Bytes, Bytes) {
    if |input| < 4 then (EndOfStream, input, last)
    else
      var l := GetUint32(input);
      var n := if h.NoHash? then 0 else |last|;
      if |input| < 4 + l + n then (Unexpected, [], last)
      else
        var sum := input[4 + l..4 + l + n];
        (Got(Chunk(input[4..4 + l], last, sum)), input[4 + l + n..], sum)
  }

  function OpenStep(h: Hash, input: Bytes): (bool, Bytes, Bytes) {
    if |input| < 4 then (false, input, [])
    else
      var sum := HeaderSum(h, GetUint32(input));
      if |input| < 4 + |sum| || input[4..4 + |sum|] != sum then (false, input, sum)
      else (true, input[4 + |sum|..], sum)
  }

  class Reader {
    const h: Hash
    var input: Bytes
    var lastSum: Bytes

    constructor (h: Hash, input: Bytes)
      ensures this.h == h && this.input == input && lastSum == []
    {
      this.h := h;
      this.input := input;
      lastSum := [];
    }

    /** Reads and checks the header. */
    method Open() returns (ok: bool)
      modifies this
      ensures ok == OpenStep(h, old(input)).0
      ensures ok ==> input == OpenStep(h, old(input)).1 && lastSum == OpenStep(h, old(input)).2
    {
      if |input| < 4 {
        return false;
      }
      var chunkSize := GetUint32(input);
      input := input[4..];
      lastSum := [];
      if h.Keyed? {
        lastSum := h.hmac(PutUint32(chunkSize));
        if |input| < |lastSum| {
          return false;
        }
        assert input[..|lastSum|] == old(input)[4..4 + |lastSum|];
        if input[..|lastSum|] != lastSum {
          return false;
        }
        input := input[|lastSum|..];
      }
      ok := true;
    }

    /** Reads the next chunk and moves the chain on. */
    method ReadChunk() returns (r: Next)
      modifies this
      ensures r == ReadStep(h, old(input), old(lastSum)).0
      ensures !r.Unexpected? ==> (input, lastSum) == (ReadStep(h, old(input), old(lastSum)).1, ReadStep(h, old(input), old(lastSum)).2)
    {
      if |input| < 4 {
        return EndOfStream;
      }
      var l := GetUint32(input);
      input := input[4..];
      if |input| < l {
        return Unexpected;
      }
      var data := input[..l];
      input := input[l..];
      var sum: Bytes := [];
      if h.Keyed? {
        if |input| < |lastSum| {
          return Unexpected;
        }
        sum := input[..|lastSum|];
        input := input[|lastSum|..];
      }
      r := Got(Chunk(data, lastSum, sum));
      lastSum := sum;
    }
  }

  // ----- round trip -----

  /** Reads the whole stream; fails on a cut chunk or a hash that does not match. */
  function ReadAll(h: Hash, input: Bytes, last: Bytes): (r: (bool, seq<Bytes>))
    decreases |input|
  {
    var (r, rest, sum) := ReadStep(h, input, last);
    match r
    case EndOfStream => (true, [])
    case Unexpected => (false, [])
    case Got(c) =>
      if !Accepts(h, c) then (false, [])
      else
        var (ok, ds) := ReadAll(h, rest, sum);
        (ok, [c.data] + ds)
  }

  lemma ReadFrame(h: Hash, d: Bytes, last: Bytes, rest: Bytes)
    requires FixedSize(h) && |d| < 0x1_0000_0000 && (h.Keyed? ==> |last| == h.size)
    ensures var sum := Sum(h, d, last);
            && ReadStep(h, PutUint32(|d|) + d + sum + rest, last) == (Got(Chunk(d, last, sum)), rest, sum)
            && Accepts(h, Chunk(d, last, sum))
            && (h.Keyed? ==> |sum| == h.size)
  {
    var sum := Sum(h, d, last);
    var input := PutUint32(|d|) + d + sum + rest;
    GetPut(|d|, d + sum + rest);
    assert input == PutUint32(|d|) + (d + sum + rest);
    assert input[4..4 + |d|] == d;
    assert input[4 + |d|..4 + |d| + |sum|] == sum;
    assert input[4 + |d| + |sum|..] == rest;
  }

  /** A reader that recomputes the chain accepts every chunk of a written stream and
      gets back exactly the chunks that were written, also with a short tail. */
  lemma {:induction false} ReadBack(h: Hash, ds: seq<Bytes>, last: Bytes, tail: Bytes)
    requires FixedSize(h) && Small(ds) && (h.Keyed? ==> |last| == h.size) && |tail| < 4
    ensures ReadAll(h, Frames(h, ds, last) + tail, last) == (true, ds)
    decreases |ds|
  {
    hide PutUint32, ReadStep, Accepts, Sum;
    if ds == [] {
      ReadEnds(h, tail, last);
      assert Frames(h, ds, last) + tail == tail;
    } else {
      var sum := Sum(h, ds[0], last);
      ReadFrame(h, ds[0], last, Frames(h, ds[1..], sum) + tail);
      ReadBack(h, ds[1..], sum, tail);
      assert [ds[0]] + ds[1..] == ds;
      assert Frames(h, ds, last) + tail == PutUint32(|ds[0]|) + ds[0] + sum + (Frames(h, ds[1..], sum) + tail);
    }
  }

  /** What one accepted chunk was read from: a frame, with the hash a writer would give it. */
  lemma ReadIsFrame(h: Hash, input: Bytes, last: Bytes)
    requires ReadStep(h, input, last).0.Got? && Accepts(h, ReadStep(h, input, last).0.c)
    ensures var (r, rest, sum) := ReadStep(h, input, last);
            input == PutUint32(|r.c.data|) + r.c.data + Sum(h, r.c.data, last) + rest && sum == Sum(h, r.c.data, last)
  {
    hide PutUint32, GetUint32;
    var l, n := GetUint32(input), if h.NoHash? then 0 else |last|;
    PutGet(input);
    assert input == input[..4] + input[4..4 + l] + input[4 + l..4 + l + n] + input[4 + l + n..];
  }

  /** Nothing else is accepted: what reads as the chunks `ds` is what a writer makes of them,
      but for a tail too short to hold a length. */
  lemma {:induction false} ReadOnlyFrames(h: Hash, input: Bytes, last: Bytes) returns (tail: Bytes)
    requires ReadAll(h, input, last).0
    ensures var ds := ReadAll(h, input, last).1;
            Small(ds) && |tail| < 4 && input == Frames(h, ds, last) + tail
    decreases |input|
  {
    hide ReadStep, Accepts, PutUint32, Sum;
    var (r, rest, sum) := ReadStep(h, input, last);
    ReadEnds(h, input, last);
    if r.EndOfStream? {
      tail := input;
      assert Frames(h, [], last) + tail == tail;
    } else {
      ReadIsFrame(h, input, last);
      tail := ReadOnlyFrames(h, rest, sum);
      var ds := ReadAll(h, input, last).1;
      assert ds == [r.c.data] + ds[1..] && ds[1..] == ReadAll(h, rest, sum).1;
      assert Frames(h, ds, last) == PutUint32(|ds[0]|) + ds[0] + Sum(h, ds[0], last) + Frames(h, ds[1..], sum);
    }
  }

  lemma ReadEnds(h: Hash, input: Bytes, last: Bytes)
    ensures var r := ReadStep(h, input, last).0;
            && (r.EndOfStream? <==> |input| < 4)
            && (r.Got? ==> |r.c.data| < 0x1_0000_0000 && |ReadStep(h, input, last).1| < |input|)
  {
  }

  /** Only the header of a written stream is accepted. */
  lemma OpenOnlyHeader(h: Hash, input: Bytes) returns (chunkSize: u32)
    requires OpenStep(h, input).0
    ensures var (_, rest, sum) := OpenStep(h, input);
            sum == HeaderSum(h, chunkSize) && input == PutUint32(chunkSize) + sum + rest
  {
    hide PutUint32, GetUint32, HeaderSum;
    chunkSize := GetUint32(input);
    PutGet(input);
    var n := |HeaderSum(h, chunkSize)|;
    assert input == input[..4] + input[4..4 + n] + input[4 + n..];
  }

  /** A reader accepts exactly the streams a writer can write, whole or with up to three bytes
      more. */
  lemma AcceptedExactlyWhenWritten(h: Hash, input: Bytes)
    requires FixedSize(h)
    ensures Readable(h, input) <==> exists chunkSize, ds, tail :: IsStream(h, chunkSize, ds, tail, input)
  {
    hide *;
    ReadableIs(h, input);
    if OpenStep(h, input).0 && ReadAll(h, OpenStep(h, input).1, OpenStep(h, input).2).0 {
      var (_, body, sum) := OpenStep(h, input);
      var chunkSize := OpenOnlyHeader(h, input);
      var tail := ReadOnlyFrames(h, body, sum);
      var ds := ReadAll(h, body, sum).1;
      StreamOf(h, chunkSize, ds, tail, input, body, sum);
    }
    if chunkSize, ds, tail :| IsStream(h, chunkSize, ds, tail, input) {
      StreamReads(h, chunkSize, ds, tail, input);
    }
  }

  ghost predicate Readable(h: Hash, input: Bytes) {
    var (ok, body, sum) := OpenStep(h, input);
    ok && ReadAll(h, body, sum).0
  }

  lemma ReadableIs(h: Hash, input: Bytes)
    ensures Readable(h, input) <==> OpenStep(h, input).0 && ReadAll(h, OpenStep(h, input).1, OpenStep(h, input).2).0
  {
  }

  ghost predicate IsStream(h: Hash, chunkSize: u32, ds: seq<Bytes>, tail: Bytes, input: Bytes) {
    Small(ds) && |tail| < 4 && input == Stream(h, chunkSize, ds) + tail
  }

  lemma StreamOf(h: Hash, chunkSize: u32, ds: seq<Bytes>, tail: Bytes, input: Bytes, body: Bytes, sum: Bytes)
    requires Small(ds) && |tail| < 4 && sum == HeaderSum(h, chunkSize)
    requires input == PutUint32(chunkSize) + sum + body && body == Frames(h, ds, sum) + tail
    ensures IsStream(h, chunkSize, ds, tail, input)
  {
    hide PutUint32, HeaderSum, Frames, Small;
    assert PutUint32(chunkSize) + sum + (Frames(h, ds, sum) + tail) == PutUint32(chunkSize) + sum + Frames(h, ds, sum) + tail;
  }

  lemma StreamReads(h: Hash, chunkSize: u32, ds: seq<Bytes>, tail: Bytes, input: Bytes)
    requires FixedSize(h) && IsStream(h, chunkSize, ds, tail, input)
    ensures Readable(h, input)
  {
    hide PutUint32, Frames, Small, ReadAll, OpenStep;
    var sum := HeaderSum(h, chunkSize);
    assert input == PutUint32(chunkSize) + sum + (Frames(h, ds, sum) + tail);
    OpenHeader(h, chunkSize, Frames(h, ds, sum) + tail);
    ReadBack(h, ds, sum, tail);
  }

  lemma OpenHeader(h: Hash, chunkSize: u32, rest: Bytes)
    ensures OpenStep(h, PutUint32(chunkSize) + HeaderSum(h, chunkSize) + rest) == (true, rest, HeaderSum(h, chunkSize))
  {
    var sum := HeaderSum(h, chunkSize);
    var input := PutUint32(chunkSize) + sum + rest;
    GetPut(chunkSize, sum + rest);
    assert input == PutUint32(chunkSize) + (sum + rest);
    assert input[4..4 + |sum|] == sum && input[4 + |sum|..] == rest;
  }

  /** End to end, for any number of workers on both sides and any interleaving of
      theirs: what the writer's pool delivers and flushes, read back and
      decompressed by the reader's pool, is what was scheduled for writing, in order. */
  lemma StreamRoundTrip(h: Hash, chunkSize: u32, deflate: Bytes -> Bytes, inflate: Bytes -> Bytes,
                        n: nat, m: nat,
                        writing: seq<Compressio.Action<Bytes>>, reading: seq<Compressio.Action<Bytes>>)
    requires FixedSize(h) && forall x :: inflate(deflate(x)) == x
    requires Compressio.Possible<Bytes, Bytes>(n, writing, deflate) && Compressio.Possible<Bytes, Bytes>(m, reading, inflate)
    requires var w := Compressio.Final<Bytes, Bytes>(n, writing, deflate);
             var r := Compressio.Final<Bytes, Bytes>(m, reading, inflate);
             && w.nextOutput == w.nextInput && r.nextOutput == r.nextInput && Small(w.delivered)
             && var (ok, body, sum) := OpenStep(h, Stream(h, chunkSize, w.delivered));
                ok && ReadAll(h, body, sum).0 ==> r.scheduled == ReadAll(h, body, sum).1
    ensures var w := Compressio.Final<Bytes, Bytes>(n, writing, deflate);
            var (ok, body, sum) := OpenStep(h, Stream(h, chunkSize, w.delivered));
            ok && ReadAll(h, body, sum).0 && Compressio.Final<Bytes, Bytes>(m, reading, inflate).delivered == w.scheduled
  {
    var w := Compressio.Final<Bytes, Bytes>(n, writing, deflate);
    var r := Compressio.Final<Bytes, Bytes>(m, reading, inflate);
    Compressio.DeliveredInOrder<Bytes, Bytes>(n, writing, deflate);
    Compressio.DeliveredInOrder<Bytes, Bytes>(m, reading, inflate);
    OpenHeader(h, chunkSize, Frames(h, w.delivered, HeaderSum(h, chunkSize)));
    ReadBack(h, w.delivered, HeaderSum(h, chunkSize), []);
    assert Frames(h, w.delivered, HeaderSum(h, chunkSize)) + [] == Frames(h, w.delivered, HeaderSum(h, chunkSize));
    assert r.scheduled == w.delivered;
    assert forall k :: 0 <= k < |w.scheduled| ==> r.delivered[k] == inflate(deflate(w.scheduled[k]));
  }
}
