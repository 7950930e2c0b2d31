/**
 Log recovery run twice, by the size of the file.  The scan advances by a frame length computed in 32
 bits (src/persistence/wal.cpp:159), so a frame of 2^32 bytes or more makes it keep less than it accepted.
 Up to 2^32 + 16 bytes every file is recovered the same way again; from one byte more on, some are not.
 */
module WalLimits {
  import opened Common
  import opened Binary
  import opened Disk
  import opened Wal
  import Crc32

  // ----- Files too short for a wrapped length -----

  /** A frame of exactly 2^32 bytes does not advance the scan, which then meets its offset again. */
  lemma StandstillThrows(cursor: Bytes, last: uint64)
    requires ProbeRecord(cursor, last).Accept? && ProbeRecord(cursor, last).consumed == 0
    ensures ProbeRecord(cursor, ProbeRecord(cursor, last).record.offset) == Throw(OffsetsNotIncreasing)
  {
    hide LeValue, Crc32.Checksum, ParseBody;
  }

  lemma {:induction false} ShortScanIsSmall(cursor: Bytes, last: uint64, end: nat)
    requires ScanFrom(cursor, last, end).Kept? && |cursor| <= TWO32
    ensures AllSmall(ScanFrom(cursor, last, end).records)
    decreases TWO64 - last
  {
    hide Encode, ProbeRecord, ScanFrom;
    var p := ProbeRecord(cursor, last);
    if p.Stop? {
      ScanStops(cursor, last, end);
    } else {
      assert p.Accept? by { ScanThrows(cursor, last, end); }
      ProbeWriteBack(cursor, last);
      ScanAccepts(cursor, last, end, p.record, p.consumed);
      var rest := cursor[p.consumed..];
      var t := ScanFrom(rest, p.record.offset, end + p.consumed);
      if p.consumed == 0 {
        assert rest == cursor;
        StandstillThrows(cursor, last);
        ScanThrows(rest, p.record.offset, end + p.consumed);
      }
      assert Small(p.record);
      ShortScanIsSmall(rest, p.record.offset, end + p.consumed);
      assert ([p.record] + t.records)[1..] == t.records;
    }
  }

  /** Every file of at most 2^32 + 16 bytes that is recovered is recovered the same way again. */
  lemma ShortFileIsIdempotent(bytes: Bytes)
    requires GoodHeader(bytes) && Open(bytes).Opened? && |bytes| <= TWO32 + 16
    ensures Open(Open(bytes).file.current.bytes) == Open(bytes)
  {
    hide ScanFrom, LeValue, AllSmall;
    ShortScanIsSmall(bytes[16..], 0, 16);
    RecoveryIsIdempotent(bytes);
  }

  // ----- Frames whose length wraps -----

  /** A whole frame is accepted however long it is; only the advance wraps. */
  lemma ProbeWhole(r: Record, tail: Bytes, last: uint64)
    requires 10 + |r.payload| < TWO32 && last < r.offset
    ensures ProbeRecord(Encode(r) + tail, last) == Accept(r, Wrap(18 + |r.payload|))
  {
    hide U16, U32, U64, LeValue, Crc32.Checksum, Body, ParseBody;
    var body := Body(r);
    var sum := Crc32.Checksum(body);
    var cursor := Encode(r) + tail;
    assert cursor == U32(|body|) + (body + (U32(sum) + tail));
    U32Value(|body|);
    U32Value(sum);
    var probe := cursor[4..];
    assert cursor[..4] == U32(|body|) && probe == body + (U32(sum) + tail);
    assert probe[..|body|] == body && probe[|body|..] == U32(sum) + tail;
    assert probe[|body|..][..4] == U32(sum);
    ParseBodyInverse(body);
    BodyInjective(ParseBody(body), r);
  }

  lemma OpenOf(bytes: Bytes, tail: Bytes)
    requires bytes == HEADER + tail
    ensures GoodHeader(bytes) && bytes[16..] == tail
  {
    hide U32, LeValue;
    U32Value(VERSION);
    assert bytes[..8] == MAGIC && bytes[8..12] == U32(VERSION);
  }

  /** The scan after one accepted frame, when it stops where the advance leads. */
  lemma OpenOne(r: Record, tail: Bytes, n: nat)
    requires 10 + |r.payload| < TWO32 && r.offset > 0 && n == Wrap(18 + |r.payload|)
    requires ProbeRecord((Encode(r) + tail)[n..], r.offset) == Stop
    ensures var bytes := HEADER + (Encode(r) + tail);
            GoodHeader(bytes) && Open(bytes) == Opened([r], OnDisk(bytes[..16 + n]), r.offset)
  {
    hide U32, LeValue, Encode, ScanFrom, ProbeRecord;
    var cursor := Encode(r) + tail;
    var bytes := HEADER + cursor;
    OpenOf(bytes, cursor);
    ProbeWhole(r, tail, 0);
    ScanAccepts(cursor, 0, 16, r, n);
    ScanStops(cursor[n..], r.offset, 16 + n);
    assert [r] + [] == [r];
    assert bytes[..|bytes|] == bytes;
  }

  /** A log whose first record is numbered 1 and has a body of 2^32 - 4 bytes: the second recovery overruns the file. */
  lemma SecondRecoveryOverruns(r: Record, tail: Bytes)
    requires r.offset == 1 && |r.payload| == TWO32 - 14
    ensures var bytes := HEADER + (Encode(r) + tail);
            && GoodHeader(bytes) && Open(bytes) == Opened([r], OnDisk(bytes[..20]), 1)
            && Open(bytes[..20]) == Failed(OutOfBounds)
  {
    hide U16, U32, U64, LeValue, Crc32.Checksum, Body, ScanFrom;
    var cursor := Encode(r) + tail;
    var bytes := HEADER + cursor;
    var body := Body(r);
    assert cursor == U32(|body|) + (body + (U32(Crc32.Checksum(body)) + tail));
    assert cursor[..4] == U32(|body|) && cursor[4..][..4] == body[..4];
    U32Value(|body|);
    assert LeValue(body[..4]) == 1 by { BodyOfOne(r); }
    OpenOne(r, tail, 4);
    var kept := bytes[..20];
    assert kept == HEADER + cursor[..4];
    OpenOf(kept, cursor[..4]);
    assert cursor[..4][..4] == cursor[..4] && cursor[..4][4..] == [];
    assert ProbeRecord(cursor[..4], 0) == Throw(OutOfBounds);
    ScanThrows(cursor[..4], 0, 16);
  }

  lemma BodyOfOne(r: Record)
    requires r.offset == 1
    ensures LeValue(Body(r)[..4]) == 1
  {
    hide U16;
    assert Body(r)[..4] == [1, 0, 0, 0];
    DigitsOfFour([1, 0, 0, 0]);
  }

  // ----- The smallest failing file -----

  const INNER: nat := 0xFF_FFFF

  /** The octets that the scan takes for a checksum after advancing by one octet. */
  function InnerSum(r: Record): Bytes
    requires |r.payload| == TWO32 - 17
  {
    Body(r)[1..][INNER..][..4]
  }

  function InnerBody(r: Record): Bytes
    requires |r.payload| == TWO32 - 17
  {
    Body(r)[1..][..INNER]
  }

  /** A record whose bytes after the first octet do not happen to look like another intact record. */
  predicate Trips(r: Record) {
    r.offset == 256 && |r.payload| == TWO32 - 17 && LeValue(InnerSum(r)) != Crc32.Checksum(InnerBody(r))
  }

  lemma StopsAfterOne(r: Record, tail: Bytes)
    requires Trips(r)
    ensures ProbeRecord((Encode(r) + tail)[1..], r.offset) == Stop
  {
    hide U16, U32, U64, LeValue, Crc32.Checksum, Body;
    var body := Body(r);
    var rest := U32(Crc32.Checksum(body)) + tail;
    var cursor := (Encode(r) + tail)[1..];
    assert Encode(r) + tail == U32(|body|) + (body + rest);
    assert cursor == U32(|body|)[1..] + (body + rest);
    assert cursor[..4] == U32(|body|)[1..] + body[..1];
    assert LeValue(cursor[..4]) == INNER by { ShiftedLength(r); }
    assert cursor[4..] == body[1..] + rest;
    assert cursor[4..][..INNER] == InnerBody(r);
    assert cursor[4..][INNER..][..4] == InnerSum(r);
  }

  lemma ShiftedLength(r: Record)
    requires r.offset == 256 && |r.payload| == TWO32 - 17
    ensures LeValue(U32(|Body(r)|)[1..] + Body(r)[..1]) == INNER
  {
    hide U16;
    assert U32(|Body(r)|) == [0xF9, 0xFF, 0xFF, 0xFF];
    assert Body(r)[..1] == [0];
    DigitsOfFour([0xFF, 0xFF, 0xFF, 0]);
    assert [0xFF, 0xFF, 0xFF] + [0] == [0xFF, 0xFF, 0xFF, 0];
  }

  /** The first recovery returns the record and keeps one octet of it; the second returns nothing. */
  lemma SecondRecoveryLosesRecord(r: Record, tail: Bytes)
    requires Trips(r)
    ensures var bytes := HEADER + (Encode(r) + tail);
            && GoodHeader(bytes) && Open(bytes) == Opened([r], OnDisk(bytes[..17]), 256)
            && Open(bytes[..17]) == Opened([], OnDisk(HEADER), 0)
  {
    hide U32, LeValue, Encode, ScanFrom, ProbeRecord, Trips;
    assert r.offset == 256 && |r.payload| == TWO32 - 17 by { TripsShape(r); }
    var cursor := Encode(r) + tail;
    var bytes := HEADER + cursor;
    StopsAfterOne(r, tail);
    OpenOne(r, tail, 1);
    var kept := bytes[..17];
    assert kept == HEADER + cursor[..1];
    OpenOf(kept, cursor[..1]);
    ProbeShort(cursor[..1], 0);
    ScanStops(cursor[..1], 0, 16);
    assert kept[..16] == HEADER;
  }

  lemma TripsShape(r: Record)
    requires Trips(r)
    ensures r.offset == 256 && |r.payload| == TWO32 - 17
  {
  }

  /** Such a record exists: zeros but for one octet, chosen against the checksum of the octets before it. */
  function Candidate(x: byte): Record {
    Record(256, 0, seq(TWO32 - 17, i => if i == INNER - 9 then x else 0))
  }

  lemma CandidateParts(x: byte)
    ensures InnerBody(Candidate(x)) == InnerBody(Candidate(0))
    ensures LeValue(InnerSum(Candidate(x))) == x
  {
    hide U16, U64, LeValue;
    var b, z := Body(Candidate(x)), Body(Candidate(0));
    assert forall i :: 0 <= i < INNER + 1 ==> b[i] == z[i];
    assert b[1..][..INNER] == z[1..][..INNER];
    assert InnerSum(Candidate(x)) == [x, 0, 0, 0];
    DigitsOfFour([x, 0, 0, 0]);
  }

  lemma SomethingTrips() returns (r: Record)
    ensures Trips(r)
  {
    hide InnerBody, InnerSum, LeValue, Crc32.Checksum;
    CandidateParts(0);
    CandidateParts(1);
    r := if Crc32.Checksum(InnerBody(Candidate(0))) == 0 then Candidate(1) else Candidate(0);
  }

  // ----- The exact size -----

  predicate Idempotent(bytes: Bytes) {
    GoodHeader(bytes) && Open(bytes).Opened? ==> Open(Open(bytes).file.current.bytes) == Open(bytes)
  }

  /** Recovery is idempotent on all files of a size if and only if the size is at most 2^32 + 16. */
  lemma IdempotentUpToSize(size: nat)
    ensures (forall bytes: Bytes :: |bytes| == size ==> Idempotent(bytes)) <==> size <= TWO32 + 16
  {
    hide Open, GoodHeader, Trips, Encode;
    if size <= TWO32 + 16 {
      forall bytes: Bytes | |bytes| == size
        ensures Idempotent(bytes)
      {
        if GoodHeader(bytes) && Open(bytes).Opened? {
          ShortFileIsIdempotent(bytes);
        }
      }
    } else {
      var r := SomethingTrips();
      TripsShape(r);
      var tail: Bytes := seq(size - TWO32 - 17, _ => 0);
      SecondRecoveryLosesRecord(r, tail);
      var bytes := HEADER + (Encode(r) + tail);
      assert |bytes| == size && !Idempotent(bytes);
    }
  }
}
