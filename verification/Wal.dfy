/**
 The write-ahead log (src/persistence/wal.cpp): record framing, the recovery scan that keeps the
 intact prefix of a file, and the writer that appends, syncs and rotates.
 */
module Wal {
  import opened Common
  import opened Binary
  import Crc32
  import opened Disk

  datatype Record = Record(offset: uint64, opcode: uint16, payload: Bytes)

  /** "NCWAL" and three zero octets. */
  const MAGIC: Bytes := [78, 67, 87, 65, 76, 0, 0, 0]
  const VERSION: nat := 1
  const HEADER: Bytes := MAGIC + U32(VERSION) + U32(0)

  // ----- Framing -----

  function Body(r: Record): (b: Bytes)
    ensures |b| == 10 + |r.payload|
  {
    U64(r.offset) + U16(r.opcode) + r.payload
  }

  /** The frame of a body: its length cast to 32 bits, the body, its checksum. */
  function Frame(body: Bytes): (b: Bytes)
    ensures |b| == 8 + |body|
  {
    U32(|body| % TWO32) + body + U32(Crc32.Checksum(body))
  }

  function Encode(r: Record): (b: Bytes)
    ensures |b| == 18 + |r.payload|
  {
    Frame(Body(r))
  }

  function EncodeAll(rs: seq<Record>): Bytes
  {
    if rs == [] then [] else Encode(rs[0]) + EncodeAll(rs[1..])
  }

  /** The whole frame length still fits in the 32 bits in which recovery computes it. */
  predicate Small(r: Record) {
    10 + |r.payload| < TWO32 - 8
  }

  predicate AllSmall(rs: seq<Record>) {
    rs == [] || (Small(rs[0]) && AllSmall(rs[1..]))
  }

  // ----- The recovery scan -----

  /** Exceptions; `OutOfBounds` is the removal of a prefix longer than the view, which the language leaves undefined. */
  datatype Failure = UnsupportedVersion | OffsetsNotIncreasing | TruncatedChecksum | OutOfBounds

  datatype Scan = Kept(records: seq<Record>, end: nat, last: uint64) | Refused(why: Failure)

  function ParseBody(body: Bytes): Record
    requires |body| >= 10
  {
    LeValueBound(body[..8]);
    LeValueBound(body[8..10]);
    Pow256Four();
    Record(LeValue(body[..8]), LeValue(body[8..10]), body[10..])
  }

  lemma ParseBodyInverse(body: Bytes)
    requires |body| >= 10
    ensures Body(ParseBody(body)) == body
  {
    hide U16, U64, LeValue;
    WriteBackU64(body);
    WriteBackU16(body[8..]);
    assert body[8..][..2] == body[8..10] && body[8..][2..] == body[10..];
    var r := ParseBody(body);
    assert body == U64(r.offset) + (U16(r.opcode) + r.payload);
  }

  /** What the loop body decides about the bytes at the cursor. */
  datatype Probe = Stop | Throw(why: Failure) | Accept(record: Record, consumed: nat)

  /** A body whose checksum matches is accepted if it continues the offsets. */
  function AcceptBody(body: Bytes, last: uint64): (p: Probe)
    requires |body| >= 10
    ensures p.Accept? ==> last < p.record.offset && p.consumed == Wrap(8 + |body|)
  {
    var record := ParseBody(body);
    if record.offset <= last then Throw(OffsetsNotIncreasing)
    else Accept(record, Wrap(8 + |body|))
  }

  /** Lengths are added in 32-bit arithmetic. */
  function Wrap(n: nat): (r: nat)
    ensures r <= n && r < TWO32
  {
    n % TWO32
  }

  function ProbeRecord(cursor: Bytes, last: uint64): (p: Probe)
    ensures p.Accept? ==> last < p.record.offset && p.consumed <= |cursor|
  {
    if |cursor| < 4 then Stop else
    var length, probe := LeValue(cursor[..4]), cursor[4..];
    if length < 10 || |probe| < Wrap(length + 4) then Stop
    else if |probe| < length then Throw(OutOfBounds)
    else if |probe| - length < 4 then Throw(TruncatedChecksum)
    else
      var body := probe[..length];
      if LeValue(probe[length..][..4]) != Crc32.Checksum(body) then Stop
      else AcceptBody(body, last)
  }

  function Prepend(rs: seq<Record>, s: Scan): Scan {
    match s
    case Refused(_) => s
    case Kept(more, end, last) => Kept(rs + more, end, last)
  }

  function ScanFrom(cursor: Bytes, last: uint64, end: nat): (s: Scan)
    ensures s.Kept? ==> end <= s.end <= end + |cursor| && last <= s.last
    decreases TWO64 - last
  {
    match ProbeRecord(cursor, last)
    case Stop => Kept([], end, last)
    case Throw(why) => Refused(why)
    case Accept(record, consumed) =>
      Prepend([record], ScanFrom(cursor[consumed..], record.offset, end + consumed))
  }

  datatype Opened = Opened(records: seq<Record>, file: File, last: uint64) | Failed(why: Failure)

  /** The fresh log that replaces a short or foreign file; its header is not yet synced. */
  function Recreated(f: File): File {
    (if f.current.bytes == [] then f else f.Clear()).Write(HEADER)
  }

  /** `open_and_recover`: a cut tail is synced away, an intact file is left as it is. */
  function OpenFile(f: File): (o: Opened) {
    var bytes := f.current.bytes;
    if |bytes| < 16 || bytes[..8] != MAGIC then Opened([], Recreated(f), 0)
    else if LeValue(bytes[8..12]) != VERSION then Failed(UnsupportedVersion)
    else
      match ScanFrom(bytes[16..], 0, 16)
      case Refused(why) => Failed(why)
      case Kept(rs, end, last) =>
        Opened(rs, if end == |bytes| then f else OnDisk(bytes[..end]), last)
  }

  /** Recovery of the bytes that a crash left on disk. */
  function Open(bytes: Bytes): Opened {
    OpenFile(OnDisk(bytes))
  }

  // ----- Scanning what was written -----

  predicate Increasing(last: uint64, rs: seq<Record>)
    decreases |rs|
  {
    if rs == [] then true
    else last < rs[0].offset && Increasing(rs[0].offset, rs[1..])
  }

  function LastOffset(last: uint64, rs: seq<Record>): uint64 {
    if rs == [] then last else rs[|rs| - 1].offset
  }

  lemma BodyInjective(r: Record, r': Record)
    requires Body(r) == Body(r')
    ensures r == r'
  {
    var b := Body(r);
    U64Value(r.offset);
    U64Value(r'.offset);
    U16Value(r.opcode);
    U16Value(r'.opcode);
    assert b[..8] == U64(r.offset) == U64(r'.offset);
    assert b[8..10] == U16(r.opcode) == U16(r'.opcode);
    assert b[10..] == r.payload == r'.payload;
  }

  /** A frame whose length field is exact is found again, whatever follows it. */
  lemma ProbeFrame(body: Bytes, sum: nat, tail: Bytes, last: uint64)
    requires 10 <= |body| < TWO32 - 4 && sum < TWO32
    ensures var cursor := U32(|body|) + body + U32(sum) + tail;
            ProbeRecord(cursor, last) ==
            if sum != Crc32.Checksum(body) then Stop
            else if ParseBody(body).offset <= last then Throw(OffsetsNotIncreasing)
            else Accept(ParseBody(body), (8 + |body|) % TWO32)
  {
    hide U16, U32, U64, LeValue, Crc32.Checksum, ParseBody;
    var n := |body|;
    var cursor := U32(n) + body + U32(sum) + tail;
    assert cursor[..4] == U32(n);
    U32Value(n);
    var probe := cursor[4..];
    assert probe == body + U32(sum) + tail;
    assert probe[..n] == body && probe[n..][..4] == U32(sum);
    U32Value(sum);
  }

  lemma ProbeEncoded(r: Record, tail: Bytes, last: uint64)
    requires Small(r) && last < r.offset
    ensures ProbeRecord(Encode(r) + tail, last) == Accept(r, |Encode(r)|)
    ensures (Encode(r) + tail)[|Encode(r)|..] == tail
  {
    hide U16, U32, U64, LeValue, Crc32.Checksum, ParseBody, ProbeRecord;
    var body := Body(r);
    ProbeFrame(body, Crc32.Checksum(body), tail, last);
    ParseBodyInverse(body);
    BodyInjective(r, ParseBody(body));
    assert Encode(r) + tail == U32(|body|) + body + U32(Crc32.Checksum(body)) + tail;
  }

  lemma {:induction false} ScanAccepts(cursor: Bytes, last: uint64, end: nat, r: Record, consumed: nat)
    requires ProbeRecord(cursor, last) == Accept(r, consumed)
    ensures ScanFrom(cursor, last, end) == Prepend([r], ScanFrom(cursor[consumed..], r.offset, end + consumed))
  {
    hide ProbeRecord;
  }

  lemma {:induction false} ScanStops(cursor: Bytes, last: uint64, end: nat)
    requires ProbeRecord(cursor, last) == Stop
    ensures ScanFrom(cursor, last, end) == Kept([], end, last)
  {
    hide ProbeRecord;
  }

  lemma {:induction false} ScanThrows(cursor: Bytes, last: uint64, end: nat)
    ensures ProbeRecord(cursor, last).Throw? ==>
              ScanFrom(cursor, last, end) == Refused(ProbeRecord(cursor, last).why)
  {
    hide ProbeRecord;
  }

  lemma PrependPrepend(r: Record, rs: seq<Record>, s: Scan)
    requires rs != [] && rs[0] == r
    ensures Prepend([r], Prepend(rs[1..], s)) == Prepend(rs, s)
  {
    if s.Kept? {
      assert [r] + (rs[1..] + s.records) == rs + s.records;
    }
  }

  lemma {:induction false} ScanEncoded(rs: seq<Record>, tail: Bytes, last: uint64, end: nat)
    requires AllSmall(rs) && Increasing(last, rs)
    ensures ScanFrom(EncodeAll(rs) + tail, last, end) ==
            Prepend(rs, ScanFrom(tail, LastOffset(last, rs), end + |EncodeAll(rs)|))
    decreases |rs|
  {
    hide ScanFrom, ProbeRecord, Encode;
    if rs == [] {
      assert EncodeAll(rs) + tail == tail;
      assert Prepend([], ScanFrom(tail, last, end)) == ScanFrom(tail, last, end);
    } else {
      var r, more := rs[0], rs[1..];
      var rest := EncodeAll(more) + tail;
      assert EncodeAll(rs) + tail == Encode(r) + rest;
      ProbeEncoded(r, rest, last);
      ScanAccepts(Encode(r) + rest, last, end, r, |Encode(r)|);
      ScanEncoded(more, tail, r.offset, end + |Encode(r)|);
      PrependPrepend(r, rs, ScanFrom(tail, LastOffset(last, rs), end + |EncodeAll(rs)|));
    }
  }

  lemma ProbeShort(cursor: Bytes, last: uint64)
    requires |cursor| < 4
    ensures ProbeRecord(cursor, last) == Stop
  {
  }

  /** A strict prefix of one more record is an incomplete tail. */
  lemma ProbeTorn(r: Record, k: nat, last: uint64)
    requires Small(r) && k < |Encode(r)|
    ensures ProbeRecord(Encode(r)[..k], last) == Stop
  {
    hide U16, U32, U64, LeValue, Crc32.Checksum, Body, ParseBody;
    var body := Body(r);
    if k >= 4 {
      assert Encode(r)[..k][..4] == U32(|body|);
      U32Value(|body|);
    }
  }

  lemma OpenScan(tail: Bytes)
    ensures Open(HEADER + tail) ==
            match ScanFrom(tail, 0, 16)
            case Refused(why) => Failed(why)
            case Kept(rs, end, last) => Opened(rs, OnDisk((HEADER + tail)[..end]), last)
  {
    var bytes := HEADER + tail;
    assert bytes[..8] == MAGIC && bytes[8..12] == U32(VERSION) && bytes[16..] == tail;
    U32Value(VERSION);
  }

  /** A log of small records is recovered up to the first bytes that no record starts. */
  lemma LogRecovers(rs: seq<Record>, tail: Bytes)
    requires AllSmall(rs) && Increasing(0, rs)
    requires ProbeRecord(tail, LastOffset(0, rs)) == Stop
    ensures Open(HEADER + EncodeAll(rs) + tail) ==
            Opened(rs, OnDisk(HEADER + EncodeAll(rs)), LastOffset(0, rs))
  {
    hide ScanFrom, ProbeRecord, Encode, Open;
    var log := EncodeAll(rs);
    ScanEncoded(rs, tail, 0, 16);
    ScanStops(tail, LastOffset(0, rs), 16 + |log|);
    assert rs + [] == rs;
    assert HEADER + log + tail == HEADER + (log + tail);
    OpenScan(log + tail);
    assert (HEADER + (log + tail))[..16 + |log|] == HEADER + log;
  }

  /** Appended records followed by any strict prefix of another recover to exactly those records. */
  lemma TornTailRecovers(rs: seq<Record>, r: Record, k: nat)
    requires AllSmall(rs) && Increasing(0, rs)
    requires Small(r) && k < |Encode(r)|
    ensures Open(HEADER + EncodeAll(rs) + Encode(r)[..k]) ==
            Opened(rs, OnDisk(HEADER + EncodeAll(rs)), LastOffset(0, rs))
  {
    ProbeTorn(r, k, LastOffset(0, rs));
    LogRecovers(rs, Encode(r)[..k]);
  }

  lemma CleanLogRecovers(rs: seq<Record>)
    requires AllSmall(rs) && Increasing(0, rs)
    ensures Open(HEADER + EncodeAll(rs)) ==
            Opened(rs, OnDisk(HEADER + EncodeAll(rs)), LastOffset(0, rs))
  {
    LogRecovers(rs, []);
    assert HEADER + EncodeAll(rs) + [] == HEADER + EncodeAll(rs);
  }

  /** A burst of at most 32 damaged bits in one body ends recovery just before that record. */
  lemma DamagedRecordStops(rs: seq<Record>, r: Record, damaged: Bytes, p: nat, tail: Bytes)
    requires AllSmall(rs) && Increasing(0, rs)
    requires Small(r)
    requires damaged != Body(r) && Crc32.DifferInBurst(Crc32.Bits(damaged), Crc32.Bits(Body(r)), p)
    ensures |damaged| == |Body(r)|
    ensures var frame := U32(|Body(r)|) + damaged + U32(Crc32.Checksum(Body(r)));
            Open(HEADER + EncodeAll(rs) + (frame + tail)) ==
            Opened(rs, OnDisk(HEADER + EncodeAll(rs)), LastOffset(0, rs))
  {
    hide ScanFrom, ProbeRecord, Body, Open, U32, Crc32.Checksum, EncodeAll, Crc32.Bits;
    Crc32.BurstDetected(damaged, Body(r), p);
    ProbeFrame(damaged, Crc32.Checksum(Body(r)), tail, LastOffset(0, rs));
    LogRecovers(rs, U32(|damaged|) + damaged + U32(Crc32.Checksum(Body(r))) + tail);
  }

  // ----- Recovery is canonical -----

  lemma ProbeWriteBack(cursor: Bytes, last: uint64)
    requires ProbeRecord(cursor, last).Accept?
    ensures var p := ProbeRecord(cursor, last);
            var n := |Encode(p.record)|;
            && n <= |cursor| && cursor[..n] == Encode(p.record)
            && p.consumed == n % TWO32
  {
    hide U16, U32, U64, LeValue, Crc32.Checksum, ParseBody;
    var length, probe := LeValue(cursor[..4]), cursor[4..];
    WriteBackU32(cursor);
    WriteBackU32(probe[length..]);
    var body := probe[..length];
    var sum := U32(Crc32.Checksum(body));
    ParseBodyInverse(body);
    assert probe == body + (sum + probe[length..][4..]);
    assert cursor[..8 + length] == U32(length) + body + sum;
  }

  /**
   Re-encoding the kept records gives exactly the kept bytes, unless the length of some frame
   wrapped around: then the scan has kept fewer bytes than the records take.
   */
  lemma {:induction false} ScanCanonical(cursor: Bytes, last: uint64, end: nat)
    requires ScanFrom(cursor, last, end).Kept?
    ensures var s := ScanFrom(cursor, last, end);
            && Increasing(last, s.records) && s.last == LastOffset(last, s.records)
            && s.end - end <= |EncodeAll(s.records)|
            && (s.end - end == |EncodeAll(s.records)| <==> AllSmall(s.records))
            && (AllSmall(s.records) ==> cursor[..s.end - end] == EncodeAll(s.records))
    decreases TWO64 - last
  {
    hide Encode, ProbeRecord, ScanFrom;
    var p := ProbeRecord(cursor, last);
    if p.Stop? {
      ScanStops(cursor, last, end);
    } else {
      assert p.Accept? by { ScanThrows(cursor, last, end); }
      ProbeWriteBack(cursor, last);
      ScanAccepts(cursor, last, end, p.record, p.consumed);
      var rest := cursor[p.consumed..];
      ScanCanonical(rest, p.record.offset, end + p.consumed);
      var s, t := ScanFrom(cursor, last, end), ScanFrom(rest, p.record.offset, end + p.consumed);
      assert s.records == [p.record] + t.records;
      assert s.records[1..] == t.records;
      assert Small(p.record) <==> p.consumed == |Encode(p.record)|;
      if AllSmall(s.records) {
        var k := t.end - (end + p.consumed);
        assert cursor[..p.consumed + k] == cursor[..p.consumed] + rest[..k];
      }
    }
  }

  predicate GoodHeader(bytes: Bytes) {
    |bytes| >= 16 && bytes[..8] == MAGIC && LeValue(bytes[8..12]) == VERSION
  }

  /** Recovery keeps the header and the encodings of what it returns, exactly when no frame wraps. */
  lemma RecoveryIsCanonical(bytes: Bytes)
    requires GoodHeader(bytes) && Open(bytes).Opened?
    ensures var o := Open(bytes);
            && Increasing(0, o.records) && o.last == LastOffset(0, o.records)
            && o.file.current.bytes <= bytes
            && (o.file == OnDisk(bytes[..16] + EncodeAll(o.records)) <==>
                AllSmall(o.records))
  {
    hide LeValue, ScanFrom, EncodeAll, AllSmall, Increasing, LastOffset;
    ScanCanonical(bytes[16..], 0, 16);
    var s := ScanFrom(bytes[16..], 0, 16);
    assert bytes[..s.end] == bytes[..16] + bytes[16..][..s.end - 16];
  }

  /** A second recovery of the kept bytes changes nothing. */
  lemma RecoveryIsIdempotent(bytes: Bytes)
    requires GoodHeader(bytes) && Open(bytes).Opened?
    requires AllSmall(Open(bytes).records)
    ensures Open(Open(bytes).file.current.bytes) == Open(bytes)
  {
    hide ScanFrom, ProbeRecord, Encode, LeValue;
    var o := Open(bytes);
    RecoveryIsCanonical(bytes);
    var log := EncodeAll(o.records);
    var kept := bytes[..16] + log;
    ScanEncoded(o.records, [], 0, 16);
    assert ProbeRecord([], o.last) == Stop by { ProbeShort([], o.last); }
    ScanStops([], o.last, 16 + |log|);
    assert log + [] == log && o.records + [] == o.records;
    assert kept[16..] == log && kept[..8] == bytes[..8] && kept[8..12] == bytes[8..12];
    assert kept[..16 + |log|] == kept;
  }

  // ----- Recovery twice, wrapped lengths included -----

  /** Every frame that the scan accepts ends within the first `room` bytes. */
  predicate FramesWithin(cursor: Bytes, last: uint64, room: nat)
    decreases TWO64 - last
  {
    match ProbeRecord(cursor, last)
    case Accept(r, consumed) =>
      |Encode(r)| <= room && consumed <= room && FramesWithin(cursor[consumed..], r.offset, room - consumed)
    case _ => true
  }

  /** An accepted frame is accepted again from any prefix that holds all of it, and from no shorter one. */
  lemma ProbeCut(cursor: Bytes, last: uint64, k: nat)
    requires ProbeRecord(cursor, last).Accept? && k <= |cursor|
    ensures |Encode(ProbeRecord(cursor, last).record)| <= k ==>
              ProbeRecord(cursor[..k], last) == ProbeRecord(cursor, last)
    ensures |Encode(ProbeRecord(cursor, last).record)| > k ==> !ProbeRecord(cursor[..k], last).Accept?
  {
    hide U16, U32, U64, LeValue, Crc32.Checksum, ParseBody, AcceptBody;
    var r := ProbeRecord(cursor, last).record;
    var length, probe, cut := LeValue(cursor[..4]), cursor[4..], cursor[..k];
    FrameLength(cursor, last);
    if k >= 4 {
      assert cut[..4] == cursor[..4];
      assert cut[4..] == probe[..k - 4];
      if 8 + length <= k {
        assert cut[4..][..length] == probe[..length];
        assert cut[4..][length..][..4] == probe[length..][..4];
      }
    }
  }

  lemma FrameLength(cursor: Bytes, last: uint64)
    requires ProbeRecord(cursor, last).Accept?
    ensures |Encode(ProbeRecord(cursor, last).record)| == 8 + LeValue(cursor[..4])
  {
    hide U16, U32, U64, LeValue, Crc32.Checksum;
  }

  lemma PrependInjective(r: Record, s: Scan, t: Scan)
    requires s.Kept?
    ensures Prepend([r], s) == Prepend([r], t) <==> s == t
  {
    if t.Kept? && Prepend([r], s) == Prepend([r], t) {
      assert ([r] + s.records)[1..] == s.records && ([r] + t.records)[1..] == t.records;
    }
  }

  /** Scanning the kept bytes again gives the same records if and only if they hold every accepted frame whole. */
  lemma {:induction false} ScanOfKept(cursor: Bytes, last: uint64, end: nat)
    requires ScanFrom(cursor, last, end).Kept?
    ensures var k := ScanFrom(cursor, last, end).end - end;
            k <= |cursor| &&
            (ScanFrom(cursor[..k], last, end) == ScanFrom(cursor, last, end) <==> FramesWithin(cursor, last, k))
    decreases TWO64 - last
  {
    hide Encode, ProbeRecord, ScanFrom;
    var k := ScanFrom(cursor, last, end).end - end;
    var p, cut := ProbeRecord(cursor, last), cursor[..k];
    if p.Stop? {
      ScanStops(cursor, last, end);
      ProbeShort(cut, last);
      ScanStops(cut, last, end);
    } else {
      assert p.Accept? by { ScanThrows(cursor, last, end); }
      ScanAccepts(cursor, last, end, p.record, p.consumed);
      var rest := cursor[p.consumed..];
      ScanOfKept(rest, p.record.offset, end + p.consumed);
      ProbeCut(cursor, last, k);
      if |Encode(p.record)| <= k {
        ScanAccepts(cut, last, end, p.record, p.consumed);
        assert cut[p.consumed..] == rest[..k - p.consumed];
        PrependInjective(p.record, ScanFrom(rest, p.record.offset, end + p.consumed),
                         ScanFrom(cut[p.consumed..], p.record.offset, end + p.consumed));
      } else {
        ScanThrows(cut, last, end);
        if ProbeRecord(cut, last).Stop? {
          ScanStops(cut, last, end);
        }
      }
    }
  }

  /** For every file with a good header, a second recovery changes nothing if and only if no kept frame was cut. */
  lemma RecoveryIsIdempotentIff(bytes: Bytes)
    requires GoodHeader(bytes) && Open(bytes).Opened?
    ensures var kept := Open(bytes).file.current.bytes;
            |kept| >= 16 && (Open(kept) == Open(bytes) <==> FramesWithin(bytes[16..], 0, |kept| - 16))
  {
    hide LeValue, ScanFrom, FramesWithin;
    var s := ScanFrom(bytes[16..], 0, 16);
    ScanOfKept(bytes[16..], 0, 16);
    var kept := bytes[..s.end];
    assert Open(bytes) == Opened(s.records, OnDisk(kept), s.last) by { assert bytes[..|bytes|] == bytes; }
    assert kept[..8] == bytes[..8] && kept[8..12] == bytes[8..12] && kept[16..] == bytes[16..][..s.end - 16];
    var t := ScanFrom(kept[16..], 0, 16);
    if t.Kept? {
      assert Open(kept) == Opened(t.records, OnDisk(kept[..t.end]), t.last) by { assert kept[..|kept|] == kept; }
      assert kept[..t.end] == kept <==> t.end == s.end;
    }
  }

  /** One appended record survives recovery exactly when its frame length does not wrap. */
  lemma RecordRecoversIffSmall(r: Record)
    requires 0 < r.offset
    ensures Open(HEADER + Encode(r)) == Opened([r], OnDisk(HEADER + Encode(r)), r.offset) <==> Small(r)
  {
    hide U16, U32, U64, LeValue, Crc32.Checksum, Encode, ProbeRecord, Open;
    var bytes := HEADER + Encode(r);
    assert EncodeAll([r]) == Encode(r) + [] == Encode(r);
    if Small(r) {
      CleanLogRecovers([r]);
    } else {
      assert bytes[..8] == MAGIC && bytes[8..12] == U32(VERSION) && bytes[..16] == HEADER;
      U32Value(VERSION);
      if Open(bytes) == Opened([r], OnDisk(bytes), r.offset) {
        RecoveryIsCanonical(bytes);
      }
    }
  }
}
