/** Directory entries on the wire: the consuming buffer with its sticky overrun
    flag, the entry codec, and `Rreaddir`, which cuts its payload at a byte count. */
module Readdir {
  import opened Words

  type Bytes = seq<u8>
  type u16 = x: int | 0 <= x < 0x1_0000

  datatype QID = QID(kind: u8, version: u32, path: u64)
  datatype Dirent = Dirent(qid: QID, offset: u64, kind: u8, name: Bytes)

  // ----- little-endian words -----

  /** The `n` low bytes of `v`, least significant first. */
  function Put(n: nat, v: nat): (b: Bytes)
    ensures |b| == n
  {
    if n == 0 then [] else [v % 0x100] + Put(n - 1, v / 0x100)
  }

  function Get(b: Bytes): nat {
    if b == [] then 0 else b[0] as int + 0x100 * Get(b[1..])
  }

  /** 256 to the power `n`. */
  function Range(n: nat): nat {
    if n == 0 then 1 else 0x100 * Range(n - 1)
  }

  lemma {:induction false} GetPut(n: nat, v: nat)
    requires v < Range(n)
    ensures Get(Put(n, v)) == v
  {
    if n > 0 {
      GetPut(n - 1, v / 0x100);
    }
  }

  lemma {:induction false} GetBound(b: Bytes)
    ensures Get(b) < Range(|b|)
  {
    if b != [] {
      GetBound(b[1..]);
    }
  }

  lemma {:induction false} PutGet(b: Bytes)
    ensures Put(|b|, Get(b)) == b
  {
    if b != [] {
      PutGet(b[1..]);
      assert Get(b) % 0x100 == b[0] as int && Get(b) / 0x100 == Get(b[1..]);
    }
  }

  lemma Ranges()
    ensures Range(1) == 0x100 && Range(2) == 0x1_0000 && Range(4) == 0x1_0000_0000 && Range(8) == 0x1_0000_0000_0000_0000
  {
    assert Range(4) == 0x100 * Range(3) && Range(3) == 0x100 * Range(2);
    assert Range(8) == 0x100 * Range(7) && Range(7) == 0x100 * Range(6) && Range(6) == 0x100 * Range(5);
  }

  // ----- the buffer as a value -----

  datatype Buf = Buf(data: Bytes, overflow: bool)

  /** Reading `n` bytes as a number; zero, and a mark that stays, when there are too few. */
  function Read(b: Buf, n: nat): (r: (nat, Buf))
    ensures r.0 < Range(n)
  {
    if |b.data| < n then
      GetBound(Put(n, 0));
      (0, Buf(b.data, true))
    else
      GetBound(b.data[..n]);
      (Get(b.data[..n]), Buf(b.data[n..], b.overflow))
  }

  function ReadName(b: Buf): (Bytes, Buf) {
    var (l, b) := Read(b, 2);
    if |b.data| < l then ([], Buf(b.data, true)) else (b.data[..l], Buf(b.data[l..], b.overflow))
  }

  function ReadQID(b: Buf): (QID, Buf) {
    Ranges();
    var (kind, b) := Read(b, 1);
    var (version, b) := Read(b, 4);
    var (path, b) := Read(b, 8);
    (QID(kind, version, path), b)
  }

  function ReadDirent(b: Buf): (Dirent, Buf) {
    Ranges();
    var (qid, b) := ReadQID(b);
    var (offset, b) := Read(b, 8);
    var (kind, b) := Read(b, 1);
    var (name, b) := ReadName(b);
    (Dirent(qid, offset, kind, name), b)
  }

  /** The encoding of an entry; the length of its name is cut to 16 bits. */
  function Encoding(d: Dirent): Bytes {
    Put(1, d.qid.kind) + Put(4, d.qid.version) + Put(8, d.qid.path) + Put(8, d.offset) + Put(1, d.kind)
    + Put(2, |d.name| % 0x1_0000) + d.name
  }

  // ----- the buffer object -----

  class Buffer {
    var data: Bytes
    var overflow: bool

    function Value(): Buf
      reads this
    {
      Buf(data, overflow)
    }

    constructor (data: Bytes)
      ensures Value() == Buf(data, false)
    {
      this.data := data;
      overflow := false;
    }

    method Consume(n: nat) returns (v: Bytes, ok: bool)
      modifies this
      ensures ok <==> |old(data)| >= n
      ensures ok ==> old(data) == v + data && |v| == n && overflow == old(overflow)
      ensures !ok ==> data == old(data) && overflow
    {
      if |data| < n {
        overflow := true;
        return [], false;
      }
      v, ok := data[..n], true;
      data := data[n..];
    }

    /** Read8, Read16, Read32 and Read64 are this with 1, 2, 4 and 8. */
    method ReadWord(n: nat) returns (v: nat)
      modifies this
      ensures (v, Value()) == Read(old(Value()), n)
    {
      var b, ok := Consume(n);
      if !ok {
        return 0;
      }
      v := Get(b);
      assert old(data)[..n] == b && old(data)[n..] == data;
    }

    method ReadString() returns (s: Bytes)
      modifies this
      ensures (s, Value()) == ReadName(old(Value()))
    {
      Ranges();
      var l := ReadWord(2);
      ghost var mid := Value();
      if |data| < l {
        overflow := true;
        return [];
      }
      s := [];
      for i := 0 to l
        invariant |s| == i && s == mid.data[..i] && data == mid.data[i..] && overflow == mid.overflow && |mid.data| >= l
      {
        ghost var before := data;
        var c := ReadWord(1);
        assert before[..1] == [before[0]] && Get([before[0]]) == before[0] as int;
        s := s + [c];
      }
    }

    method DecodeQID() returns (q: QID)
      modifies this
      ensures (q, Value()) == ReadQID(old(Value()))
    {
      Ranges();
      var kind := ReadWord(1);
      var version := ReadWord(4);
      var path := ReadWord(8);
      q := QID(kind, version, path);
    }

    method DecodeDirent() returns (d: Dirent)
      modifies this
      ensures (d, Value()) == ReadDirent(old(Value()))
    {
      Ranges();
      var qid := DecodeQID();
      var offset := ReadWord(8);
      var kind := ReadWord(1);
      var name := ReadString();
      d := Dirent(qid, offset, kind, name);
    }

    method WriteWord(n: nat, v: nat)
      modifies this
      ensures data == old(data) + Put(n, v) && overflow == old(overflow)
    {
      data := data + Put(n, v);
    }

    method WriteString(s: Bytes)
      modifies this
      ensures data == old(data) + Put(2, |s| % 0x1_0000) + s && overflow == old(overflow)
    {
      WriteWord(2, |s| % 0x1_0000);
      ghost var start := data;
      for i := 0 to |s|
        invariant data == start + s[..i] && overflow == old(overflow)
      {
        WriteWord(1, s[i]);
        assert Put(1, s[i]) == [s[i]];
        assert s[..i + 1] == s[..i] + [s[i]];
      }
      assert s[..|s|] == s;
    }

    method EncodeDirent(d: Dirent)
      modifies this
      ensures data == old(data) + Encoding(d) && overflow == old(overflow)
    {
      hide Put;
      WriteWord(1, d.qid.kind);
      WriteWord(4, d.qid.version);
      WriteWord(8, d.qid.path);
      WriteWord(8, d.offset);
      WriteWord(1, d.kind);
      WriteString(d.name);
      Grouped(old(data), Put(1, d.qid.kind), Put(4, d.qid.version), Put(8, d.qid.path), Put(8, d.offset), Put(1, d.kind),
              Put(2, |d.name| % 0x1_0000), d.name);
    }
  }

  lemma Grouped(s: Bytes, a: Bytes, b: Bytes, c: Bytes, d: Bytes, e: Bytes, f: Bytes, g: Bytes)
    ensures s + a + b + c + d + e + f + g == s + (a + b + c + d + e + f + g)
  {
  }

  // ----- one entry -----

  lemma ReadPut(n: nat, v: nat, rest: Bytes, o: bool)
    requires v < Range(n)
    ensures Read(Buf(Put(n, v) + rest, o), n) == (v, Buf(rest, o))
  {
    GetPut(n, v);
    var b := Put(n, v) + rest;
    assert b[..n] == Put(n, v) && b[n..] == rest;
  }

  /** A whole entry decodes to itself and leaves what follows. */
  lemma EntryRoundTrip(d: Dirent, rest: Bytes)
    requires |d.name| < 0x1_0000
    ensures ReadDirent(Buf(Encoding(d) + rest, false)) == (d, Buf(rest, false))
  {
    Ranges();
    var r6 := d.name + rest;
    var r5 := Put(2, |d.name|) + r6;
    var r4 := Put(1, d.kind) + r5;
    var r3 := Put(8, d.offset) + r4;
    var r2 := Put(8, d.qid.path) + r3;
    var r1 := Put(4, d.qid.version) + r2;
    assert Encoding(d) + rest == Put(1, d.qid.kind) + r1;
    ReadPut(1, d.qid.kind, r1, false);
    ReadPut(4, d.qid.version, r2, false);
    ReadPut(8, d.qid.path, r3, false);
    ReadPut(8, d.offset, r4, false);
    ReadPut(1, d.kind, r5, false);
    ReadPut(2, |d.name|, r6, false);
    assert r6[..|d.name|] == d.name && r6[|d.name|..] == rest;
  }

  /** The overrun mark stays, and a read without one takes exactly its bytes. */
  lemma ReadTakes(b: Buf, n: nat)
    ensures var b' := Read(b, n).1;
            && (b.overflow ==> b'.overflow)
            && (!b'.overflow ==> |b.data| >= n && b'.data == b.data[n..])
  {
  }

  /** A read without overrun found the encoding of what it returns. */
  lemma ReadFound(b: Buf, n: nat)
    requires !Read(b, n).1.overflow
    ensures !b.overflow && b.data == Put(n, Read(b, n).0) + Read(b, n).1.data
  {
    PutGet(b.data[..n]);
  }

  /** Whatever decodes to an entry is its encoding and what follows. */
  lemma EntryOnlyEncoding(data: Bytes)
    requires !ReadDirent(Buf(data, false)).1.overflow
    ensures var (d, b) := ReadDirent(Buf(data, false)); |d.name| < 0x1_0000 && data == Encoding(d) + b.data
  {
    Ranges();
    hide Read, Put;
    var (d, b) := ReadDirent(Buf(data, false));
    var b0 := Buf(data, false);
    var b1 := Read(b0, 1).1;
    var b2 := Read(b1, 4).1;
    var b3 := Read(b2, 8).1;
    var b4 := Read(b3, 8).1;
    var b5 := Read(b4, 1).1;
    var (l, b6) := Read(b5, 2);
    assert !b6.overflow && d.name == b6.data[..l] && b.data == b6.data[l..];
    ReadFound(b5, 2);
    ReadFound(b4, 1);
    ReadFound(b3, 8);
    ReadFound(b2, 8);
    ReadFound(b1, 4);
    ReadFound(b0, 1);
    assert b6.data == d.name + b.data && |d.name| == l;
    Grouped([], Put(1, d.qid.kind), Put(4, d.qid.version), Put(8, d.qid.path), Put(8, d.offset), Put(1, d.kind), Put(2, l), d.name + b.data);
  }

  /** An entry cut anywhere before its end cannot be decoded: it would be another one. */
  lemma CutEntryOverruns(d: Dirent, cut: Bytes)
    requires |d.name| < 0x1_0000 && cut < Encoding(d)
    ensures ReadDirent(Buf(cut, false)).1.overflow
  {
    hide ReadDirent, Encoding;
    var (e, b) := ReadDirent(Buf(cut, false));
    if !b.overflow {
      EntryOnlyEncoding(cut);
      var more := b.data + Encoding(d)[|cut|..];
      assert Encoding(d) + [] == Encoding(e) + more;
      EntryRoundTrip(d, []);
      EntryRoundTrip(e, more);
    }
  }

  // ----- a directory -----

  function Encodings(ds: seq<Dirent>): Bytes {
    if ds == [] then [] else Encoding(ds[0]) + Encodings(ds[1..])
  }

  /** The entries decoded from `b` until one overruns. Every entry takes bytes. */
  function Entries(data: Bytes): seq<Dirent>
    decreases |data|
  {
    var (d, b) := ReadDirent(Buf(data, false));
    if b.overflow || |b.data| >= |data| then [] else [d] + Entries(b.data)
  }

  lemma EntryShrinks(data: Bytes)
    ensures var b := ReadDirent(Buf(data, false)).1; !b.overflow ==> |b.data| < |data|
  {
    Ranges();
    var b0 := Buf(data, false);
    var b1 := Read(b0, 1).1;
    ReadTakes(b0, 1);
    var b2 := Read(b1, 4).1;
    ReadTakes(b1, 4);
    var b3 := Read(b2, 8).1;
    ReadTakes(b2, 8);
    var b4 := Read(b3, 8).1;
    ReadTakes(b3, 8);
    var b5 := Read(b4, 1).1;
    ReadTakes(b4, 1);
    ReadTakes(b5, 2);
  }

  /** Whatever decodes to the entries `ds` is their encodings and a tail that holds no entry. */
  lemma {:induction false} EntriesOnlyEncodings(data: Bytes) returns (tail: Bytes)
    ensures ShortNames(Entries(data)) && data == Encodings(Entries(data)) + tail && ReadDirent(Buf(tail, false)).1.overflow
    decreases |data|
  {
    hide ReadDirent, Encoding, Encodings, ShortNames;
    EntryShrinks(data);
    NoEncodings();
    var (d, b) := ReadDirent(Buf(data, false));
    if b.overflow {
      tail := data;
    } else {
      EntryOnlyEncoding(data);
      tail := EntriesOnlyEncodings(b.data);
      EncodingsCons(d, Entries(b.data));
      assert Entries(data) == [d] + Entries(b.data);
      assert Encoding(d) + (Encodings(Entries(b.data)) + tail) == Encodings(Entries(data)) + tail;
    }
  }

  lemma NoEncodings()
    ensures Encodings([]) == [] && ShortNames([])
  {
  }

  lemma EncodingsCons(d: Dirent, ds: seq<Dirent>)
    requires |d.name| < 0x1_0000 && ShortNames(ds)
    ensures Encodings([d] + ds) == Encoding(d) + Encodings(ds) && ShortNames([d] + ds)
  {
    assert ([d] + ds)[1..] == ds;
  }

  /** How many leading entries fit whole into `count` bytes. */
  function Fitting(ds: seq<Dirent>, count: nat): (n: nat)
    ensures n <= |ds|
  {
    if ds == [] || |Encoding(ds[0])| > count then 0 else 1 + Fitting(ds[1..], count - |Encoding(ds[0])|)
  }

  ghost predicate ShortNames(ds: seq<Dirent>) {
    forall i :: 0 <= i < |ds| ==> |ds[i].name| < 0x1_0000
  }

  /** Decoding the encodings of `ds` cut at `count` bytes gives the entries that fit. */
  lemma {:induction false} CutDecodes(ds: seq<Dirent>, count: nat)
    requires ShortNames(ds) && count <= |Encodings(ds)|
    ensures Entries(Encodings(ds)[..count]) == ds[..Fitting(ds, count)]
    decreases |ds|
  {
    hide ReadDirent, Encoding;
    var cut := Encodings(ds)[..count];
    EntryShrinks(cut);
    if ds == [] {
      assert cut == [];
      EmptyOverruns();
    } else {
      var e := Encoding(ds[0]);
      if count < |e| {
        assert cut == e[..count];
        CutEntryOverruns(ds[0], cut);
      } else {
        var rest := Encodings(ds[1..])[..count - |e|];
        assert cut == e + rest;
        EntryRoundTrip(ds[0], rest);
        EncodingLength(ds[0]);
        CutDecodes(ds[1..], count - |e|);
        assert [ds[0]] + ds[1..][..Fitting(ds[1..], count - |e|)] == ds[..Fitting(ds, count)];
      }
    }
  }

  lemma EncodingLength(d: Dirent)
    ensures |Encoding(d)| == 24 + |d.name|
  {
  }

  lemma EmptyOverruns()
    ensures Entries([]) == []
  {
    EntryShrinks([]);
  }

  /** `Fitting` is the longest prefix: it fits, and one more entry would not. */
  lemma {:induction false} FittingIsLongest(ds: seq<Dirent>, count: nat, n: nat)
    requires n <= |ds|
    ensures |Encodings(ds[..n])| <= count <==> n <= Fitting(ds, count)
    decreases |ds|
  {
    if n > 0 {
      assert ds[..n][0] == ds[0] && ds[..n][1..] == ds[1..][..n - 1];
      if |Encoding(ds[0])| <= count {
        FittingIsLongest(ds[1..], count - |Encoding(ds[0])|, n - 1);
      }
    }
  }

  lemma {:induction false} EncodingsAppend(ds: seq<Dirent>, d: Dirent)
    ensures Encodings(ds + [d]) == Encodings(ds) + Encoding(d)
  {
    hide Encoding;
    if ds == [] {
      assert ds + [d] == [d] && [d][1..] == [];
      assert Encodings([d]) == Encoding(d) + [];
    } else {
      assert (ds + [d])[1..] == ds[1..] + [d];
      EncodingsAppend(ds[1..], d);
    }
  }

  lemma {:induction false} EncodingsPrefix(ds: seq<Dirent>, n: nat)
    requires n <= |ds|
    ensures Encodings(ds[..n]) <= Encodings(ds)
    decreases |ds|
  {
    hide Encoding;
    if n > 0 {
      assert ds[..n][0] == ds[0] && ds[..n][1..] == ds[1..][..n - 1];
      EncodingsPrefix(ds[1..], n - 1);
    }
  }

  /** The readdir response. */
  class Rreaddir {
    var count: u32
    var entries: seq<Dirent>
    var payload: Bytes

    constructor (count: u32, entries: seq<Dirent>, payload: Bytes)
      ensures this.count == count && this.entries == entries && this.payload == payload
    {
      this.count := count;
      this.entries := entries;
      this.payload := payload;
    }

    /** Encodes entries until the byte limit is reached, and cuts there. */
    method Encode(b: Buffer)
      modifies this, b
      ensures var all := Encodings(old(entries));
              && payload == all[..if |all| < old(count) then |all| else old(count)]
              && count == |payload|
              && entries == old(entries)
      ensures b.data == old(b.data) + Put(4, count)
    {
      hide Encoding, Put;
      var buf := new Buffer([]);
      var i := 0;
      while i < |entries|
        invariant 0 <= i <= |entries| && entries == old(entries) && count == old(count) && b.data == old(b.data)
        invariant buf.data == Encodings(entries[..i])
      {
        buf.EncodeDirent(entries[i]);
        EncodingsAppend(entries[..i], entries[i]);
        assert entries[..i + 1] == entries[..i] + [entries[i]];
        i := i + 1;
        if |buf.data| >= count {
          break;
        }
      }
      EncodingsPrefix(entries, i);
      assert i == |entries| ==> entries[..i] == entries;
      if |buf.data| < count {
        count := |buf.data|;
        payload := buf.data;
      } else {
        payload := buf.data[..count];
      }
      b.WriteWord(4, count);
    }

    /** Decodes the count, then entries from the payload until one overruns. */
    method Decode(b: Buffer)
      modifies this, b
      ensures payload == old(payload)
      ensures count as nat == Read(old(b.Value()), 4).0
      ensures entries == old(entries) + Entries(old(payload))
    {
      Ranges();
      count := b.ReadWord(4);
      var more := DecodeEntries(payload);
      entries := entries + more;
    }
  }

  method DecodeEntries(payload: Bytes) returns (entries: seq<Dirent>)
    ensures entries == Entries(payload)
  {
    hide ReadDirent, Entries;
    var buf := new Buffer(payload);
    entries := [];
    while true
      invariant !buf.overflow && entries + Entries(buf.data) == Entries(payload)
      decreases |buf.data|
    {
      EntryShrinks(buf.data);
      EntriesStep(buf.data);
      ghost var before := buf.data;
      var d := buf.DecodeDirent();
      if buf.overflow {
        assert entries + [] == entries;
        break;
      }
      assert entries + ([d] + Entries(buf.data)) == (entries + [d]) + Entries(buf.data);
      entries := entries + [d];
    }
  }

  lemma EntriesStep(data: Bytes)
    ensures var (d, b) := ReadDirent(Buf(data, false));
            Entries(data) == if b.overflow then [] else [d] + Entries(b.data)
  {
    EntryShrinks(data);
  }

  /** The truncating round trip: for every entry list with names under 2^16 bytes and
      every byte count, decoding the encoded payload yields exactly the longest
      prefix of the entries whose total encoding fits, wherever the cut falls. */
  method RoundTrip(entries: seq<Dirent>, count: u32) returns (got: seq<Dirent>)
    requires ShortNames(entries)
    ensures |got| <= |entries| && got == entries[..|got|]
    ensures |Encodings(got)| <= count
    ensures |got| < |entries| ==> |Encodings(entries[..|got| + 1])| > count
  {
    hide Entries, Fitting, Encodings, ShortNames;
    var wire := new Buffer([]);
    var sent := new Rreaddir(count, entries, []);
    sent.Encode(wire);
    var received := new Rreaddir(0, [], sent.payload);
    received.Decode(wire);
    got := received.entries;
    var all := Encodings(entries);
    var n := if |all| < count then |all| else count;
    assert got == Entries(all[..n]);
    CutIsLongest(entries, count, n);
  }

  /** The entries decoded from what fits are the longest prefix that fits. */
  lemma CutIsLongest(entries: seq<Dirent>, count: u32, n: nat)
    requires ShortNames(entries) && n == if |Encodings(entries)| < count then |Encodings(entries)| else count
    ensures var got := Entries(Encodings(entries)[..n]);
            && |got| <= |entries| && got == entries[..|got|] && |Encodings(got)| <= count
            && (|got| < |entries| ==> |Encodings(entries[..|got| + 1])| > count)
  {
    hide Entries, Encodings;
    CutDecodes(entries, n);
    var k := Fitting(entries, n);
    FittingIsLongest(entries, n, k);
    if k < |entries| {
      FittingIsLongest(entries, n, k + 1);
      EncodingsPrefix(entries, k + 1);
    }
  }
}
