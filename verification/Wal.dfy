/** Write-ahead log framing: the writer, the reader, and what survives a torn tail (wal/writer.go, wal/reader.go). */
module Wal {
  import opened Bytes

  type uint32 = n: nat | n < 0x1_0000_0000

  type uint64 = n: nat | n < 0x1_0000_0000_0000_0000

  /** Every result below holds for any checksum function. */
  type Checksum = bytes -> uint32

  const MAGIC: uint32 := 0x5A57414C
  const VERSION: byte := 1
  const HEADER := 24
  const MAX_RECORD := 0x400_0000

  type Payload = p: bytes | |p| <= MAX_RECORD

  datatype Record = Record(tx: uint64, payload: Payload)

  function Covered(r: Record): bytes {
    LE(r.tx, 8) + LE(|r.payload|, 4)
  }

  function Frame(crc: Checksum, r: Record): (f: bytes)
    ensures |f| == HEADER + |r.payload|
  {
    LE(MAGIC, 4) + [VERSION, 0, 0, 0] + Covered(r) + LE(crc(Covered(r) + r.payload), 4) + r.payload
  }

  function Encode(crc: Checksum, rs: seq<Record>): bytes {
    if rs == [] then [] else Frame(crc, rs[0]) + Encode(crc, rs[1..])
  }

  /** What one read attempt finds at the start of `d`. */
  datatype Read = Whole(record: Record) | CleanEnd | Corrupt | BadVersion

  function Parse(crc: Checksum, d: bytes): Read {
    if d == [] then CleanEnd
    else if |d| < HEADER || FromLE(d[..4]) != MAGIC then Corrupt
    else if d[4] != VERSION then BadVersion
    else
      PowersOf256();
      var len := FromLE(d[16..20]);
      if len > MAX_RECORD || |d| < HEADER + len then Corrupt
      else
        var payload := d[HEADER..HEADER + len];
        if crc(d[8..20] + payload) != FromLE(d[20..24]) then Corrupt
        else
          assert |d[8..16]| == 8;
          Whole(Record(FromLE(d[8..16]), payload))
  }

  /** The bytes at the start of `d` are a whole record: header, limits, payload and checksum. */
  ghost predicate Readable(crc: Checksum, d: bytes) {
    && |d| >= 24 && FromLE(d[..4]) == 0x5A57_414C && d[4] == 1 && FromLE(d[16..20]) <= 0x400_0000
    && |d| >= 24 + FromLE(d[16..20])
    && FromLE(d[20..24]) == crc(d[8..20] + d[24..24 + FromLE(d[16..20])])
  }

  lemma ParseIs(crc: Checksum, d: bytes)
    ensures Parse(crc, d).Whole? <==> Readable(crc, d)
    ensures Parse(crc, d).Whole? ==>
              var r := Parse(crc, d).record; r.tx == FromLE(d[8..16]) && r.payload == d[24..24 + FromLE(d[16..20])]
    ensures Parse(crc, d) == CleanEnd <==> d == []
    ensures Parse(crc, d) == BadVersion <==> |d| >= 24 && FromLE(d[..4]) == 0x5A57_414C && d[4] != 1
  {
    hide FromLE;
  }

  /** Everything a reader gets out of a file: the records, the durable length, and how it ended. */
  datatype Log = Log(records: seq<Record>, offset: nat, end: Read)

  function Replay(crc: Checksum, d: bytes): (log: Log)
    ensures log.offset <= |d|
    ensures !log.end.Whole?
    decreases |d|
  {
    match Parse(crc, d)
    case Whole(r) =>
      var n := HEADER + |r.payload|;
      var rest := Replay(crc, d[n..]);
      Log([r] + rest.records, n + rest.offset, rest.end)
    case other => Log([], 0, other)
  }

  // ---- Writer and reader ----

  method PutLE(a: array<byte>, off: nat, n: nat, w: nat)
    requires off + w <= a.Length
    modifies a
    ensures a[..off] == old(a[..off])
    ensures a[off..off + w] == LE(n, w)
    ensures a[off + w..] == old(a[off + w..])
  {
    var i, rest := 0, n;
    while i < w
      invariant 0 <= i <= w
      invariant a[..off] == old(a[..off]) && a[off + w..] == old(a[off + w..])
      invariant LE(n, w) == a[off..off + i] + LE(rest, w - i)
    {
      ghost var written := a[off..off + i];
      a[off + i] := rest % 256;
      assert a[off..off + i + 1] == written + [rest % 256];
      rest := rest / 256;
      i := i + 1;
    }
  }

  /** Fills in the fixed header field by field; the checksum goes in last. */
  method Header(crc: Checksum, r: Record) returns (hdr: array<byte>)
    ensures fresh(hdr) && hdr.Length == HEADER
    ensures hdr[..] + r.payload == Frame(crc, r)
  {
    hide LE, Frame;
    hdr := new byte[HEADER](_ => 0);
    PutLE(hdr, 0, MAGIC, 4);
    assert hdr[4..] == seq(20, _ => 0);
    hdr[4] := VERSION;
    ghost var start := hdr[..8];
    assert start == hdr[0..4] + [hdr[4], hdr[5], hdr[6], hdr[7]];
    PutLE(hdr, 8, r.tx, 8);
    ghost var start16 := hdr[..16];
    assert start16 == start + hdr[8..16];
    PutLE(hdr, 16, |r.payload|, 4);
    ghost var start20 := hdr[..20];
    assert start20 == start16 + hdr[16..20];
    assert hdr[8..20] == Covered(r) by { assert hdr[8..20] == start20[8..]; }
    PutLE(hdr, 20, crc(hdr[8..20] + r.payload), 4);
    assert hdr[..] == start20 + hdr[20..24];
    FrameLayout(crc, r, hdr[..], start);
  }

  lemma FrameLayout(crc: Checksum, r: Record, hdr: bytes, start: bytes)
    requires start == LE(MAGIC, 4) + [VERSION, 0, 0, 0]
    requires hdr == start + LE(r.tx, 8) + LE(|r.payload|, 4) + LE(crc(Covered(r) + r.payload), 4)
    ensures hdr + r.payload == Frame(crc, r)
  {
    hide LE;
    assert hdr == start + Covered(r) + LE(crc(Covered(r) + r.payload), 4);
  }

  class Writer {
    const crc: Checksum
    var file: bytes
    var offset: nat

    ghost predicate Valid()
      reads this
    {
      offset == |file|
    }

    constructor (crc: Checksum, file: bytes)
      ensures Valid() && this.crc == crc && this.file == file
    {
      this.crc, this.file, offset := crc, file, |file|;
    }

    /** Appends one framed record; an oversized payload changes nothing. */
    method Append(tx: uint64, payload: bytes) returns (ok: bool)
      requires Valid()
      modifies this
      ensures Valid()
      ensures ok <==> |payload| <= MAX_RECORD
      ensures file == if ok then old(file) + Frame(crc, Record(tx, payload)) else old(file)
    {
      if |payload| > MAX_RECORD {
        return false;
      }
      var hdr := Header(crc, Record(tx, payload));
      file := file + (hdr[..] + payload);
      offset := offset + HEADER + |payload|;
      return true;
    }
  }

  lemma Behind(file: bytes, pos: nat, n: nat)
    requires pos <= |file|
    ensures pos + n <= |file| ==> file[pos + n..] == file[pos..][n..]
  {
  }

  lemma HeaderOf(d: bytes)
    requires |d| >= HEADER
    ensures var hdr := d[..HEADER];
            && hdr[..4] == d[..4] && hdr[4] == d[4] && hdr[8..16] == d[8..16] && hdr[16..20] == d[16..20]
            && hdr[20..] == d[20..24] && hdr[8..20] == d[8..20] && |hdr[8..16]| == 8
  {
  }

  lemma PayloadOf(d: bytes, len: nat)
    requires |d| >= HEADER
    ensures len <= |d[HEADER..]| <==> HEADER + len <= |d|
    ensures len <= |d[HEADER..]| ==> d[HEADER..][..len] == d[HEADER..HEADER + len]
  {
  }

  class Reader {
    const crc: Checksum
    const file: bytes
    var pos: nat
    var offset: nat

    ghost predicate Valid()
      reads this
    {
      offset <= pos <= |file|
    }

    constructor (crc: Checksum, file: bytes)
      ensures Valid() && this.crc == crc && this.file == file && pos == offset == 0
    {
      this.crc, this.file, pos, offset := crc, file, 0, 0;
    }

    /** Reads up to `n` bytes from the stream. */
    method ReadFull(n: nat) returns (buf: bytes)
      requires Valid()
      modifies `pos
      ensures Valid()
      ensures pos == if old(pos) + n <= |file| then old(pos) + n else |file|
      ensures var d := file[old(pos)..]; buf == if n <= |d| then d[..n] else d
    {
      var end := if pos + n <= |file| then pos + n else |file|;
      buf := file[pos..end];
      pos := end;
    }

    /**
     * One read: a record if and only if a whole header with the right magic number and version is
     * there, its length is within the limit, the payload is whole, and the stored sum is that of
     * the number, the length and the payload. Only a record moves the durable offset, and then by
     * exactly its length.
     */
    method Next() returns (r: Read)
      requires Valid()
      modifies this
      ensures Valid()
      ensures var d := file[old(pos)..];
              r.Whole? <==>
                && |d| >= 24 && FromLE(d[..4]) == 0x5A57_414C && d[4] == 1 && FromLE(d[16..20]) <= 0x400_0000
                && |d| >= 24 + FromLE(d[16..20])
                && FromLE(d[20..24]) == crc(d[8..20] + d[24..24 + FromLE(d[16..20])])
      ensures var d := file[old(pos)..];
              r.Whole? ==> r.record.tx == FromLE(d[8..16]) && r.record.payload == d[24..24 + FromLE(d[16..20])]
      ensures r == CleanEnd <==> old(pos) == |file|
      ensures var d := file[old(pos)..];
              r == BadVersion <==> |d| >= 24 && FromLE(d[..4]) == 0x5A57_414C && d[4] != 1
      ensures r == Parse(crc, file[old(pos)..])
      ensures r.Whole? ==> pos == old(pos) + HEADER + |r.record.payload|
      ensures offset == old(offset) + if r.Whole? then HEADER + |r.record.payload| else 0
    {
      ParseIs(crc, file[pos..]);
      hide FromLE, Pow256;
      ghost var d := file[pos..];
      Behind(file, pos, HEADER);
      var hdr := ReadFull(HEADER);
      if hdr == [] {
        return CleanEnd;
      }
      if |hdr| < HEADER {
        return Corrupt;
      }
      HeaderOf(d);
      if FromLE(hdr[..4]) != MAGIC {
        return Corrupt;
      }
      if hdr[4] != VERSION {
        return BadVersion;
      }
      PowersOf256();
      var tx, len := FromLE(hdr[8..16]), FromLE(hdr[16..20]);
      if len > MAX_RECORD {
        return Corrupt;
      }
      var want := FromLE(hdr[20..]);
      Behind(file, pos, len);
      PayloadOf(d, len);
      var payload := ReadFull(len);
      if |payload| < len {
        return Corrupt;
      }
      if crc(hdr[8..20] + payload) != want {
        return Corrupt;
      }
      assert |hdr[8..16]| == 8;
      offset := offset + HEADER + len;
      return Whole(Record(tx, payload));
    }
  }

  /** What was read up to a position, followed by what reading from there gives, is what reading it all gives. */
  ghost predicate SoFar(crc: Checksum, file: bytes, records: seq<Record>, pos: nat) {
    && pos <= |file|
    && var rest := Replay(crc, file[pos..]);
       Replay(crc, file) == Log(records + rest.records, pos + rest.offset, rest.end)
  }

  lemma FromTheStart(crc: Checksum, file: bytes)
    ensures SoFar(crc, file, [], 0)
  {
    assert file[0..] == file;
  }

  lemma ReadOn(crc: Checksum, file: bytes, records: seq<Record>, pos: nat, r: Read)
    requires SoFar(crc, file, records, pos) && r == Parse(crc, file[pos..])
    ensures !r.Whole? ==> Replay(crc, file) == Log(records, pos, r)
    ensures r.Whole? ==> SoFar(crc, file, records + [r.record], pos + HEADER + |r.record.payload|)
  {
    hide Parse, Replay;
    var d := file[pos..];
    ReplayStep(crc, d);
    if r.Whole? {
      var n := HEADER + |r.record.payload|;
      assert d[n..] == file[pos + n..];
      var rest := Replay(crc, file[pos + n..]);
      assert records + ([r.record] + rest.records) == records + [r.record] + rest.records;
    }
  }

  /** The loop every consumer of a log runs: read until anything but a whole record comes back. */
  method ReadAll(crc: Checksum, file: bytes) returns (log: Log)
    ensures log == Replay(crc, file)
  {
    hide Parse, Replay, FromLE, SoFar;
    var reader := new Reader(crc, file);
    var records: seq<Record> := [];
    FromTheStart(crc, file);
    while true
      invariant reader.Valid() && reader.crc == crc && reader.file == file
      invariant reader.pos == reader.offset && SoFar(crc, file, records, reader.pos)
      decreases |file| - reader.pos
    {
      ghost var pos := reader.pos;
      var r := reader.Next();
      ReadOn(crc, file, records, pos, r);
      if !r.Whole? {
        return Log(records, reader.offset, r);
      }
      records := records + [r.record];
    }
  }

  // ---- What the framing guarantees ----

  lemma Slices(magic: bytes, start: bytes, tx: bytes, len: bytes, sum: bytes, rest: bytes)
    requires |magic| == 4 && |start| == 4 && |tx| == 8 && |len| == 4 && |sum| == 4
    ensures var d := magic + start + (tx + len) + sum + rest;
            && d[..4] == magic && d[4] == start[0] && d[8..16] == tx && d[16..20] == len
            && d[8..20] == tx + len && d[20..24] == sum && d[24..] == rest
  {
  }

  /** Where the fields of a frame are, whatever follows it. */
  lemma FrameFields(crc: Checksum, r: Record, tail: bytes)
    ensures var d := Frame(crc, r) + tail;
            && d[..4] == LE(MAGIC, 4) && d[4] == VERSION && d[8..16] == LE(r.tx, 8) && d[16..20] == LE(|r.payload|, 4)
            && d[8..20] == Covered(r) && d[20..24] == LE(crc(Covered(r) + r.payload), 4)
            && d[HEADER..HEADER + |r.payload|] == r.payload
  {
    hide LE;
    var d := Frame(crc, r) + tail;
    var sum := LE(crc(Covered(r) + r.payload), 4);
    Slices(LE(MAGIC, 4), [VERSION, 0, 0, 0], LE(r.tx, 8), LE(|r.payload|, 4), sum, r.payload + tail);
    assert d == LE(MAGIC, 4) + [VERSION, 0, 0, 0] + Covered(r) + sum + (r.payload + tail);
    assert d[HEADER..HEADER + |r.payload|] == d[HEADER..][..|r.payload|];
  }

  lemma FieldValues(crc: Checksum, r: Record)
    ensures FromLE(LE(MAGIC, 4)) == MAGIC && FromLE(LE(r.tx, 8)) == r.tx && FromLE(LE(|r.payload|, 4)) == |r.payload|
    ensures var sum := crc(Covered(r) + r.payload); FromLE(LE(sum, 4)) == sum
  {
    PowersOf256();
    hide LE, FromLE, Pow256, Covered;
    LERoundTrip(MAGIC, 4);
    LERoundTrip(r.tx, 8);
    LERoundTrip(|r.payload|, 4);
    LERoundTrip(crc(Covered(r) + r.payload), 4);
  }

  /** A whole frame is read back as the record it was written for, whatever follows it. */
  lemma FrameParses(crc: Checksum, r: Record, tail: bytes)
    ensures Parse(crc, Frame(crc, r) + tail) == Whole(r)
  {
    hide LE, FromLE, Pow256, Frame, Covered;
    FrameFields(crc, r, tail);
    FieldValues(crc, r);
  }

  /** A frame that lost at least its last byte is never mistaken for a record. */
  lemma CutFrameIsTorn(crc: Checksum, r: Record, cut: nat)
    requires cut < HEADER + |r.payload|
    ensures Parse(crc, Frame(crc, r)[..cut]) == if cut == 0 then CleanEnd else Corrupt
  {
    hide LE, FromLE, Pow256, Frame, Covered;
    if cut >= HEADER {
      var f := Frame(crc, r);
      CutFields(crc, r, cut);
      FieldValues(crc, r);
    }
  }

  lemma CutFields(crc: Checksum, r: Record, cut: nat)
    requires HEADER <= cut < HEADER + |r.payload|
    ensures var d := Frame(crc, r)[..cut];
            |d| == cut && d[..4] == LE(MAGIC, 4) && d[4] == VERSION && d[16..20] == LE(|r.payload|, 4)
  {
    hide LE, Frame, Covered;
    var f := Frame(crc, r);
    FrameFields(crc, r, []);
    NothingBehind(f);
    PrefixFields(f, cut);
  }

  lemma NothingBehind(f: bytes)
    ensures f + [] == f
  {
  }

  lemma PrefixFields(f: bytes, cut: nat)
    requires HEADER <= cut <= |f|
    ensures var d := f[..cut]; |d| == cut && d[..4] == f[..4] && d[4] == f[4] && d[16..20] == f[16..20]
  {
  }

  // ---- What is not a record is not read ----

  /** Reading stops at the first bytes that are no whole record, as corrupt unless they are a version
      it does not know or the end of the file, and reports where they start. */
  lemma ReadingStops(crc: Checksum, rs: seq<Record>, d: bytes)
    requires !Readable(crc, d)
    ensures Replay(crc, Encode(crc, rs) + d).records == rs
    ensures Replay(crc, Encode(crc, rs) + d).offset == |Encode(crc, rs)|
    ensures Replay(crc, Encode(crc, rs) + d).end ==
            if d == [] then CleanEnd
            else if |d| >= 24 && FromLE(d[..4]) == 0x5A57_414C && d[4] != 1 then BadVersion else Corrupt
  {
    ParseIs(crc, d);
    hide Readable, Parse, FromLE;
    ReplayAppend(crc, rs, d);
    ReplayStep(crc, d);
  }

  /** What is on disk where a record was written, its number or payload since changed. */
  function Altered(crc: Checksum, r: Record, tx: uint64, payload: Payload): bytes {
    LE(MAGIC, 4) + [VERSION, 0, 0, 0] + (LE(tx, 8) + LE(|payload|, 4)) + LE(crc(Covered(r) + r.payload), 4) + payload
  }

  lemma AlteredFields(crc: Checksum, r: Record, tx: uint64, payload: Payload, tail: bytes)
    requires |payload| == |r.payload|
    ensures var d := Altered(crc, r, tx, payload) + tail;
            && |d| >= 24 + |payload| && d[..4] == LE(MAGIC, 4) && d[4] == VERSION && d[16..20] == LE(|payload|, 4)
            && d[8..20] == LE(tx, 8) + LE(|payload|, 4) && d[20..24] == LE(crc(Covered(r) + r.payload), 4)
            && d[24..24 + |payload|] == payload
  {
    hide LE, Covered;
    var d := Altered(crc, r, tx, payload) + tail;
    var sum := LE(crc(Covered(r) + r.payload), 4);
    Slices(LE(MAGIC, 4), [VERSION, 0, 0, 0], LE(tx, 8), LE(|payload|, 4), sum, payload + tail);
    assert d == LE(MAGIC, 4) + [VERSION, 0, 0, 0] + (LE(tx, 8) + LE(|payload|, 4)) + sum + (payload + tail);
    assert d[24..24 + |payload|] == d[24..][..|payload|];
  }

  /**
   * Bit rot: if a record's number or payload was changed on disk and its sum tells, reading returns
   * exactly the records before it and stops as corrupt where it starts, whatever follows.
   */
  lemma AlteredRecordStopsReading(crc: Checksum, rs: seq<Record>, r: Record, tx: uint64, payload: Payload, tail: bytes)
    requires |payload| == |r.payload|
    requires crc(LE(tx, 8) + LE(|payload|, 4) + payload) != crc(LE(r.tx, 8) + LE(|r.payload|, 4) + r.payload)
    ensures Replay(crc, Encode(crc, rs) + (Altered(crc, r, tx, payload) + tail)) == Log(rs, |Encode(crc, rs)|, Corrupt)
  {
    var d := Altered(crc, r, tx, payload) + tail;
    AlteredFields(crc, r, tx, payload, tail);
    FieldValues(crc, r);
    hide LE, FromLE, Pow256, Altered;
    ReadingStops(crc, rs, d);
  }

  function Prepend(rs: seq<Record>, n: nat, log: Log): Log {
    Log(rs + log.records, n + log.offset, log.end)
  }

  lemma ReplayStep(crc: Checksum, d: bytes)
    ensures Replay(crc, d) ==
            match Parse(crc, d)
            case Whole(r) => Prepend([r], HEADER + |r.payload|, Replay(crc, d[HEADER + |r.payload|..]))
            case other => Log([], 0, other)
    ensures d == [] ==> Parse(crc, d) == CleanEnd
  {
  }

  /** Reading is compositional: written records come first, then whatever the rest reads as. */
  lemma {:induction false} ReplayAppend(crc: Checksum, rs: seq<Record>, tail: bytes)
    ensures Replay(crc, Encode(crc, rs) + tail) == Prepend(rs, |Encode(crc, rs)|, Replay(crc, tail))
  {
    hide Parse, Frame;
    var d := Encode(crc, rs) + tail;
    if rs == [] {
      assert d == tail;
    } else {
      var f := Frame(crc, rs[0]);
      assert d == f + (Encode(crc, rs[1..]) + tail);
      FrameParses(crc, rs[0], Encode(crc, rs[1..]) + tail);
      assert d[|f|..] == Encode(crc, rs[1..]) + tail;
      ReplayAppend(crc, rs[1..], tail);
      assert rs == [rs[0]] + rs[1..];
    }
  }

  lemma {:induction false} EncodeAppend(crc: Checksum, a: seq<Record>, b: seq<Record>)
    ensures Encode(crc, a + b) == Encode(crc, a) + Encode(crc, b)
  {
    hide Frame;
    if a == [] {
      assert a + b == b;
    } else {
      EncodeAppend(crc, a[1..], b);
      assert (a + b)[1..] == a[1..] + b;
    }
  }

  /** `log` holds exactly the records of `rs` that lie wholly in the first `cut` bytes of their encoding. */
  ghost predicate HoldsWholeRecords(crc: Checksum, rs: seq<Record>, cut: nat, log: Log) {
    var k := |log.records|;
    && log.records <= rs
    && log.offset == |Encode(crc, rs[..k])| <= cut
    && (k < |rs| ==> cut < |Encode(crc, rs[..k + 1])|)
    && (log.end == CleanEnd <==> log.offset == cut)
    && log.end != BadVersion
  }

  lemma HoldsOneMore(crc: Checksum, rs: seq<Record>, cut: nat, rest: Log)
    requires rs != [] && HEADER + |rs[0].payload| <= cut
    requires HoldsWholeRecords(crc, rs[1..], cut - HEADER - |rs[0].payload|, rest)
    ensures HoldsWholeRecords(crc, rs, cut, Prepend([rs[0]], HEADER + |rs[0].payload|, rest))
  {
    hide Frame;
    var k := |rest.records| + 1;
    assert [rs[0]] + rest.records <= rs;
    assert rs[..k][1..] == rs[1..][..k - 1];
    if k < |rs| {
      assert rs[..k + 1][1..] == rs[1..][..k];
    }
  }

  lemma CutFirst(crc: Checksum, rs: seq<Record>, cut: nat)
    requires rs != [] && cut < HEADER + |rs[0].payload|
    ensures cut <= |Encode(crc, rs)| && HoldsWholeRecords(crc, rs, cut, Replay(crc, Encode(crc, rs)[..cut]))
  {
    hide *;
    CutFrameIsTorn(crc, rs[0], cut);
    FirstFrame(crc, rs, cut);
    ReplayStep(crc, Encode(crc, rs)[..cut]);
    HoldsNone(crc, rs, cut, Replay(crc, Encode(crc, rs)[..cut]));
  }

  lemma HoldsNone(crc: Checksum, rs: seq<Record>, cut: nat, log: Log)
    requires rs != [] && cut < HEADER + |rs[0].payload|
    requires log == Log([], 0, if cut == 0 then CleanEnd else Corrupt)
    ensures HoldsWholeRecords(crc, rs, cut, log)
  {
    hide Encode, Frame;
    FirstFrame(crc, rs, cut);
  }

  lemma FirstFrame(crc: Checksum, rs: seq<Record>, cut: nat)
    requires rs != [] && cut <= HEADER + |rs[0].payload|
    ensures cut <= |Encode(crc, rs)| && Encode(crc, rs)[..cut] == Frame(crc, rs[0])[..cut]
    ensures Encode(crc, rs[..0]) == [] && |Encode(crc, rs[..1])| == HEADER + |rs[0].payload|
  {
    hide Frame;
    assert rs[..1] == [rs[0]] && Encode(crc, rs[..1]) == Frame(crc, rs[0]) + Encode(crc, []);
  }

  lemma CutLater(crc: Checksum, rs: seq<Record>, cut: nat)
    requires rs != [] && HEADER + |rs[0].payload| <= cut <= |Encode(crc, rs)|
    ensures var n := HEADER + |rs[0].payload|;
            cut - n <= |Encode(crc, rs[1..])| &&
            Replay(crc, Encode(crc, rs)[..cut]) == Prepend([rs[0]], n, Replay(crc, Encode(crc, rs[1..])[..cut - n]))
  {
    hide Parse, Frame;
    var f, rest := Frame(crc, rs[0]), Encode(crc, rs[1..]);
    var d := Encode(crc, rs)[..cut];
    assert d == f + rest[..cut - |f|];
    FrameParses(crc, rs[0], rest[..cut - |f|]);
    assert d[|f|..] == rest[..cut - |f|];
  }

  lemma NothingToCut(crc: Checksum, rs: seq<Record>, cut: nat)
    requires rs == [] && cut <= |Encode(crc, rs)|
    ensures HoldsWholeRecords(crc, rs, cut, Replay(crc, Encode(crc, rs)[..cut]))
  {
    assert Encode(crc, rs)[..cut] == [] && Parse(crc, []) == CleanEnd;
  }

  /**
   * Torn tail: whatever byte a crash cuts the log at, reading it returns exactly the records that
   * lie wholly before the cut, ends without a version error, and reports their byte length.
   */
  lemma {:induction false} TornTail(crc: Checksum, rs: seq<Record>, cut: nat)
    requires cut <= |Encode(crc, rs)|
    ensures HoldsWholeRecords(crc, rs, cut, Replay(crc, Encode(crc, rs)[..cut]))
  {
    hide *;
    if rs == [] {
      NothingToCut(crc, rs, cut);
    } else if cut < HEADER + |rs[0].payload| {
      CutFirst(crc, rs, cut);
    } else {
      var n := HEADER + |rs[0].payload|;
      CutLater(crc, rs, cut);
      TornTail(crc, rs[1..], cut - n);
      HoldsOneMore(crc, rs, cut, Replay(crc, Encode(crc, rs[1..])[..cut - n]));
    }
  }

  /** Records whose bytes were synced before the crash are among those read back. */
  lemma SyncedRecordsSurvive(crc: Checksum, rs: seq<Record>, synced: nat, cut: nat)
    requires synced <= |rs| && |Encode(crc, rs[..synced])| <= cut <= |Encode(crc, rs)|
    ensures rs[..synced] <= Replay(crc, Encode(crc, rs)[..cut]).records <= rs
  {
    hide *;
    TornTail(crc, rs, cut);
    var log := Replay(crc, Encode(crc, rs)[..cut]);
    HeldRecords(crc, rs, cut, log);
    var k := |log.records|;
    if k < synced {
      InTwo(rs, k + 1, synced);
      EncodeAppend(crc, rs[..k + 1], rs[k + 1..synced]);
    }
    Shorter(rs, synced, log.records);
  }

  lemma HeldRecords(crc: Checksum, rs: seq<Record>, cut: nat, log: Log)
    requires HoldsWholeRecords(crc, rs, cut, log)
    ensures log.records <= rs && (|log.records| < |rs| ==> cut < |Encode(crc, rs[..|log.records| + 1])|)
  {
    hide Encode;
  }

  lemma InTwo<T>(s: seq<T>, i: nat, j: nat)
    requires i <= j <= |s|
    ensures s[..j] == s[..i] + s[i..j]
  {
  }

  lemma Shorter<T>(s: seq<T>, n: nat, t: seq<T>)
    requires n <= |s| && t <= s && n <= |t|
    ensures s[..n] <= t
  {
  }

  lemma SameSlice<T>(d: seq<T>, e: seq<T>, n: nat, i: nat, j: nat)
    requires i <= j <= n <= |d| && n <= |e| && d[..n] == e[..n]
    ensures d[i..j] == e[i..j]
  {
    assert d[i..j] == d[..n][i..j] && e[i..j] == e[..n][i..j];
  }

  /** A record's parse looks at no byte behind the record. */
  lemma ParseReadsOneRecord(crc: Checksum, d: bytes, e: bytes)
    requires Parse(crc, d).Whole?
    requires var n := HEADER + |Parse(crc, d).record.payload|; n <= |e| && d[..n] == e[..n]
    ensures Parse(crc, e) == Parse(crc, d)
  {
    var n := HEADER + |Parse(crc, d).record.payload|;
    hide LE, FromLE, Pow256;
    SameSlice(d, e, n, 0, 4);
    SameSlice(d, e, n, 4, 5);
    SameSlice(d, e, n, 8, 16);
    SameSlice(d, e, n, 16, 20);
    SameSlice(d, e, n, 8, 20);
    SameSlice(d, e, n, 20, 24);
    SameSlice(d, e, n, HEADER, n);
    assert d[4..5][0] == e[4..5][0];
  }

  /**
   * Recovery's truncation, for a file with any contents at all: cutting at the durable offset and
   * appending more records reads back the old records and the new ones, to a clean end. With
   * nothing appended, a second recovery therefore sees exactly what the first one saw.
   */
  lemma {:induction false} TruncateThenAppend(crc: Checksum, d: bytes, more: seq<Record>)
    ensures Replay(crc, d[..Replay(crc, d).offset] + Encode(crc, more)) ==
            Prepend(Replay(crc, d).records, Replay(crc, d).offset, Log(more, |Encode(crc, more)|, CleanEnd))
    decreases |d|
  {
    ReplayStep(crc, d);
    hide Parse, Frame, Replay;
    var log := Replay(crc, d);
    var e := d[..log.offset] + Encode(crc, more);
    if Parse(crc, d).Whole? {
      var r := Parse(crc, d).record;
      var n := HEADER + |r.payload|;
      var rest := Replay(crc, d[n..]);
      TruncateThenAppend(crc, d[n..], more);
      assert e[n..] == d[n..][..rest.offset] + Encode(crc, more);
      ParseReadsOneRecord(crc, d, e);
      ReplayStep(crc, e);
      assert [r] + (rest.records + more) == log.records + more;
    } else {
      assert e == Encode(crc, more) + [];
      ReplayAppend(crc, more, []);
      ReplayStep(crc, []);
      assert [] + more == more + [];
    }
  }

  /** Behind whole records, anything that is not a record hides all that follows it, and only that. */
  lemma ReadStopsAt(crc: Checksum, rs: seq<Record>, tail: bytes)
    ensures Replay(crc, Encode(crc, rs) + tail).records == rs <==> !Parse(crc, tail).Whole?
  {
    ReplayAppend(crc, rs, tail);
    ReplayStep(crc, tail);
    hide Parse, Encode, Replay;
  }

  lemma MagicBytes()
    ensures |LE(MAGIC, 4)| == 4 && LE(MAGIC, 4)[0] == 0x4C && LE(MAGIC, 4)[1] == 0x41 && LE(MAGIC, 4)[2] == 0x57
    ensures LE(MAGIC, 4)[3] == 0x5A
  {
    assert LE(MAGIC, 4) == [MAGIC % 256] + LE(MAGIC / 256, 3);
    assert LE(MAGIC / 256, 3) == [MAGIC / 256 % 256] + LE(MAGIC / 256 / 256, 2);
    assert LE(MAGIC / 256 / 256, 2) == [MAGIC / 256 / 256 % 256] + LE(MAGIC / 256 / 256 / 256, 1);
    assert LE(MAGIC / 256 / 256 / 256, 1) == [MAGIC / 256 / 256 / 256 % 256] + LE(0, 0);
  }

  lemma OnlyMagicPasses(crc: Checksum, d: bytes)
    requires Parse(crc, d).Whole?
    ensures |d| > 4 && d[..4] == LE(MAGIC, 4) && d[4] == VERSION
  {
    hide LE, FromLE, Pow256;
    LEInverts(d[..4]);
  }

  lemma {:induction false} LEInverts(b: bytes)
    ensures LE(FromLE(b), |b|) == b
  {
    if b != [] {
      LEInverts(b[1..]);
      LEHead(b[0], FromLE(b[1..]), |b| - 1);
      assert FromLE(b) == b[0] + 256 * FromLE(b[1..]);
      hide LE, FromLE;
      assert b == [b[0]] + b[1..];
    }
  }

  lemma FrameStart(crc: Checksum, r: Record)
    ensures Frame(crc, r)[..4] == LE(MAGIC, 4)
  {
    FrameFields(crc, r, []);
    hide LE, Frame, Covered;
    assert Frame(crc, r) + [] == Frame(crc, r);
  }

  lemma MixedBytes(crc: Checksum, r: Record, cut: nat, more: seq<Record>)
    requires 1 <= cut <= 4
    ensures var d := Frame(crc, r)[..cut] + Encode(crc, more);
            && (more == [] ==> |d| == cut)
            && (more != [] ==> |d| > cut && d[cut] == 0x4C)
            && (|d| > 4 && cut < 4 ==> d[..4][cut] == d[cut])
  {
    MagicBytes();
    hide Frame, LE;
    if more != [] {
      NextFrame(crc, more);
      assert Encode(crc, more)[0] == Encode(crc, more)[..4][0];
    }
  }

  /** A frame cut inside its magic number, or right behind it, and further frames after it. */
  lemma CutThenMore(crc: Checksum, r: Record, cut: nat, more: seq<Record>)
    requires 1 <= cut <= 4
    ensures !Parse(crc, Frame(crc, r)[..cut] + Encode(crc, more)).Whole?
  {
    hide Parse, Frame, LE, Encode;
    var d := Frame(crc, r)[..cut] + Encode(crc, more);
    MagicBytes();
    MixedBytes(crc, r, cut, more);
    if Parse(crc, d).Whole? {
      OnlyMagicPasses(crc, d);
    }
  }

  lemma NextFrame(crc: Checksum, more: seq<Record>)
    requires more != []
    ensures |Encode(crc, more)| >= 4 && Encode(crc, more)[..4] == LE(MAGIC, 4)
  {
    FrameStart(crc, more[0]);
    hide LE, Frame;
    assert Encode(crc, more)[..4] == Frame(crc, more[0])[..4];
  }

  /**
   * Without the truncation, records appended behind a torn one are invisible to every later reader:
   * always, if at most the magic number of the torn record was written, and otherwise exactly when
   * its remains do not happen to make a record together with what was appended.
   */
  lemma AppendBehindTornTailIsLost(crc: Checksum, rs: seq<Record>, r: Record, cut: nat, more: seq<Record>)
    requires 1 <= cut < HEADER + |r.payload|
    ensures var tail := Frame(crc, r)[..cut] + Encode(crc, more);
            && (cut <= 4 ==> Replay(crc, Encode(crc, rs) + tail).records == rs)
            && (Replay(crc, Encode(crc, rs) + tail).records == rs <==> !Parse(crc, tail).Whole?)
  {
    ReadStopsAt(crc, rs, Frame(crc, r)[..cut] + Encode(crc, more));
    hide Parse, Frame, Encode, Replay;
    if cut <= 4 {
      CutThenMore(crc, r, cut, more);
    }
  }
}
