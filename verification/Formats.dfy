/**
 The file formats, octet by octet, and exactly which bytes the readers accept (src/persistence/wal.cpp,
 src/persistence/snapshot.cpp, src/persistence/engine.cpp, include/novacache/persistence/binary.hpp).
 */
module Formats {
  import opened Common
  import opened Binary
  import opened Values
  import opened Disk
  import opened Mutation
  import Crc32
  import Snapshot
  import Wal

  // ----- Little-endian integers -----

  /** The digits of the number in base 256, least significant first, and nothing left. */
  predicate LittleEndian(s: Bytes, v: nat) {
    if s == [] then v == 0 else s[0] == v % 256 && LittleEndian(s[1..], v / 256)
  }

  /** So a reader of digits and this predicate agree. */
  lemma {:induction false} ValueIff(s: Bytes, v: nat)
    ensures LittleEndian(s, v) <==> LeValue(s) == v
    decreases |s|
  {
    if s != [] {
      ValueIff(s[1..], v / 256);
    }
  }

  /** Every writer of integers writes the digits, of a negative number those of its two's complement. */
  lemma WritersAreLittleEndian(v16: int, v32: int, v64: int, s64: int)
    requires 0 <= v16 < 0x1_0000 && 0 <= v32 < TWO32 && 0 <= v64 < TWO64 && -TWO63 <= s64 < TWO63
    ensures LittleEndian(U16(v16), v16) && LittleEndian(U32(v32), v32) && LittleEndian(U64(v64), v64)
    ensures LittleEndian(I64(s64), if s64 < 0 then s64 + TWO64 else s64)
  {
    hide U16, U32, U64, LeValue, LittleEndian;
    var two := if s64 < 0 then s64 + TWO64 else s64;
    U16Value(v16);
    ValueIff(U16(v16), v16);
    U32Value(v32);
    ValueIff(U32(v32), v32);
    U64Value(v64);
    ValueIff(U64(v64), v64);
    U64Value(two);
    ValueIff(U64(two), two);
  }

  // ----- The log -----

  /** "NCWAL", version 1. */
  lemma LogHeaderLayout()
    ensures Wal.HEADER == [78, 67, 87, 65, 76, 0, 0, 0, 1, 0, 0, 0, 0, 0, 0, 0]
  {
  }

  /** Length of the body, offset, opcode, payload, checksum of the body. */
  lemma RecordLayout(r: Wal.Record)
    requires 10 + |r.payload| < TWO32
    ensures var e, n := Wal.Encode(r), |r.payload|;
            && |e| == 18 + n
            && LittleEndian(e[..4], 10 + n) && LittleEndian(e[4..12], r.offset) && LittleEndian(e[12..14], r.opcode)
            && e[14..14 + n] == r.payload && LittleEndian(e[14 + n..], Crc32.Checksum(e[4..14 + n]))
  {
    hide U16, U32, U64, LittleEndian, Crc32.Checksum;
    var e, n, body := Wal.Encode(r), |r.payload|, Wal.Body(r);
    WritersAreLittleEndian(r.opcode, 10 + n, r.offset, 0);
    WritersAreLittleEndian(0, Crc32.Checksum(body), 0, 0);
    assert e == U32(10 + n) + (U64(r.offset) + (U16(r.opcode) + (r.payload + U32(Crc32.Checksum(body)))));
    assert e[..4] == U32(10 + n) && e[4..12] == U64(r.offset) && e[12..14] == U16(r.opcode);
    assert e[4..14 + n] == body && e[14 + n..] == U32(Crc32.Checksum(body));
  }

  /** A short or foreign file is started anew, another version is refused, anything else is scanned. */
  lemma OpenVerdict(bytes: Bytes)
    ensures |bytes| < 16 || bytes[..8] != [78, 67, 87, 65, 76, 0, 0, 0] ==>
              && Wal.Open(bytes).Opened? && Wal.Open(bytes).records == [] && Wal.Open(bytes).last == 0
              && Wal.Open(bytes).file.current.bytes == Wal.HEADER
    ensures |bytes| >= 16 && bytes[..8] == [78, 67, 87, 65, 76, 0, 0, 0] ==>
              (Wal.Open(bytes) == Wal.Failed(Wal.UnsupportedVersion) <==> !LittleEndian(bytes[8..12], 1))
  {
    hide Wal.ScanFrom, Wal.HEADER;
    assert [] + Wal.HEADER == Wal.HEADER;
    if |bytes| >= 16 {
      ValueIff(bytes[8..12], 1);
      ScanNeverVersion(bytes[16..], 0, 16);
    }
  }

  lemma {:induction false} ScanNeverVersion(cursor: Bytes, last: uint64, end: nat)
    ensures Wal.ScanFrom(cursor, last, end) != Wal.Refused(Wal.UnsupportedVersion)
    decreases TWO64 - last
  {
    hide LeValue, Crc32.Checksum, Wal.ParseBody;
    var p := Wal.ProbeRecord(cursor, last);
    if p.Accept? {
      ScanNeverVersion(cursor[p.consumed..], p.record.offset, end + p.consumed);
    }
  }

  // ----- The payloads -----

  /** An expiry with any non-zero flag before it. */
  function SpellExpiry(expiry: Option<Instant>, flag: byte): Bytes {
    match expiry
    case None => [0]
    case Some(t) => [flag] + I64(ToUnixMs(t))
  }

  function SpellPayload(op: Op, flag: byte): Bytes {
    match op
    case PutOp(key, text, expiry) => Blob(key) + (Blob(text) + SpellExpiry(expiry, flag))
    case DelOp(keys) => U32(|keys| % TWO32) + Snapshot.Blobs(keys)
    case ExpireOp(name, at) => Blob(name) + I64(ToUnixMs(at))
  }

  function OpcodeNumber(op: Op): int {
    if op.PutOp? then 1 else if op.DelOp? then 2 else 3
  }

  ghost predicate SpellsOp(r: Wal.Record, op: Op) {
    r.opcode == OpcodeNumber(op) &&
    exists flag: byte, extra: Bytes :: flag != 0 && r.payload == SpellPayload(op, flag) + extra
  }

  lemma ReadFlag(flag: byte, rest: Bytes)
    ensures ReadUint([flag] + rest, 1) == Got(flag as nat, rest)
  {
    assert ([flag] + rest)[..1] == [flag] && ([flag] + rest)[1..] == rest;
    assert [flag][1..] == [];
    assert LeValue([flag]) == flag + 256 * LeValue([]);
  }

  lemma ReadSpelledExpiry(expiry: Option<Instant>, flag: byte, rest: Bytes)
    requires flag != 0 && WholeExpiry(expiry)
    ensures Snapshot.ReadExpiry(SpellExpiry(expiry, flag) + rest) == Got(expiry, rest)
  {
    hide I64, ReadUint, ReadI64;
    if expiry.None? {
      ReadFlag(0, rest);
    } else {
      var ms := ToUnixMs(expiry.value);
      ReadFlag(flag, I64(ms) + rest);
      assert [flag] + I64(ms) + rest == [flag] + (I64(ms) + rest);
      ReadBackI64(ms, rest);
      MillisecondsExact(expiry.value);
    }
  }

  lemma WriteBackI64(input: Bytes)
    requires ReadI64(input).Got?
    ensures -TWO63 <= ReadI64(input).value < TWO63
    ensures input == I64(ReadI64(input).value) + ReadI64(input).rest
  {
    WriteBackU64(input);
  }

  lemma MsBack(ms: int64)
    ensures ToUnixMs(FromUnixMs(ms)) == ms
  {
  }

  lemma ExpiryIsSpelled(input: Bytes) returns (flag: byte)
    requires Snapshot.ReadExpiry(input).Got?
    ensures flag != 0 && input == SpellExpiry(Snapshot.ReadExpiry(input).value, flag) + Snapshot.ReadExpiry(input).rest
  {
    hide I64, ReadI64;
    var rest := input[1..];
    assert input == [input[0]] + rest;
    ReadFlag(input[0], rest);
    flag := if input[0] == 0 then 1 else input[0];
    if input[0] != 0 {
      WriteBackI64(rest);
      MsBack(ReadI64(rest).value);
      var ms := ReadI64(rest).value;
      assert [flag] + (I64(ms) + ReadI64(rest).rest) == [flag] + I64(ms) + ReadI64(rest).rest;
    }
  }

  lemma {:induction false} BlobsAreSpelled(input: Bytes, n: nat, acc: seq<Bytes>) returns (xs: seq<Bytes>)
    requires Snapshot.ReadBlobs(input, n, acc).Got?
    ensures |xs| == n && Snapshot.ReadBlobs(input, n, acc).value == acc + xs
    ensures input == Snapshot.Blobs(xs) + Snapshot.ReadBlobs(input, n, acc).rest
    decreases n
  {
    hide ReadBlob, Blob;
    if n == 0 {
      xs := [];
      assert acc + [] == acc && [] + input == input;
    } else {
      ReadBlobFits(input);
      var Got(b, rest) := ReadBlob(input);
      var more := BlobsAreSpelled(rest, n - 1, acc + [b]);
      xs := [b] + more;
      assert xs[1..] == more && acc + [b] + more == acc + xs;
      var left := Snapshot.ReadBlobs(input, n, acc).rest;
      assert Blob(b) + (Snapshot.Blobs(more) + left) == Blob(b) + Snapshot.Blobs(more) + left;
    }
  }

  lemma CountedIsSpelled(input: Bytes)
    requires Snapshot.ReadCountedBlobs(input).Got?
    ensures var xs := Snapshot.ReadCountedBlobs(input).value;
            |xs| < TWO32 && input == U32(|xs|) + Snapshot.Blobs(xs) + Snapshot.ReadCountedBlobs(input).rest
  {
    hide U32, LeValue, Snapshot.Blobs, Snapshot.ReadBlobs;
    WriteBackU32(input);
    var n, rest := LeValue(input[..4]), input[4..];
    var xs := BlobsAreSpelled(rest, n, []);
    assert [] + xs == xs;
    var left := Snapshot.ReadCountedBlobs(input).rest;
    assert U32(n) + (Snapshot.Blobs(xs) + left) == U32(n) + Snapshot.Blobs(xs) + left;
  }

  lemma DecodedIsSpelled(r: Wal.Record)
    requires Decode(r).Some?
    ensures SpellsOp(r, Decode(r).value)
  {
    hide U32, I64, Blob, ReadBlob, ReadI64, Snapshot.Blobs, Snapshot.ReadCountedBlobs, Snapshot.ReadExpiry, SpellExpiry;
    var op := Decode(r).value;
    var flag: byte, extra: Bytes := 1, [];
    if r.opcode == 1 {
      ReadBlobFits(r.payload);
      var rest := ReadBlob(r.payload).rest;
      ReadBlobFits(rest);
      var more := ReadBlob(rest).rest;
      flag := ExpiryIsSpelled(more);
      extra := Snapshot.ReadExpiry(more).rest;
      var e := SpellExpiry(op.expiry, flag);
      assert Blob(op.key) + (Blob(op.text) + (e + extra)) == Blob(op.key) + (Blob(op.text) + e) + extra;
    } else if r.opcode == 2 {
      CountedIsSpelled(r.payload);
      extra := Snapshot.ReadCountedBlobs(r.payload).rest;
    } else {
      ReadBlobFits(r.payload);
      var rest := ReadBlob(r.payload).rest;
      WriteBackI64(rest);
      MsBack(ReadI64(rest).value);
      extra := ReadI64(rest).rest;
      assert Blob(op.name) + (I64(ToUnixMs(op.at)) + extra) == Blob(op.name) + I64(ToUnixMs(op.at)) + extra;
    }
    assert r.payload == SpellPayload(op, flag) + extra;
  }

  lemma SpelledIsDecoded(r: Wal.Record, op: Op, flag: byte, extra: Bytes)
    requires Writable(op) && flag != 0
    requires r.opcode == OpcodeNumber(op) && r.payload == SpellPayload(op, flag) + extra
    ensures Decode(r) == Some(op)
  {
    hide U32, I64, Blob, ReadBlob, ReadI64, Snapshot.Blobs, Snapshot.ReadCountedBlobs, Snapshot.ReadExpiry, SpellExpiry;
    match op {
      case PutOp(key, text, expiry) =>
        var e := SpellExpiry(expiry, flag);
        assert r.payload == Blob(key) + (Blob(text) + (e + extra));
        ReadBackBlob(key, Blob(text) + (e + extra));
        ReadBackBlob(text, e + extra);
        ReadSpelledExpiry(expiry, flag, extra);
      case DelOp(keys) =>
        Snapshot.ReadBackCounted(keys, extra);
      case ExpireOp(name, at) =>
        var ms := ToUnixMs(at);
        assert r.payload == Blob(name) + (I64(ms) + extra);
        ReadBackBlob(name, I64(ms) + extra);
        ReadBackI64(ms, extra);
        MillisecondsExact(at);
    }
  }

  /** Replay reads an operation from exactly the records that spell it: opcodes 1, 2 and 3, trailing bytes ignored. */
  lemma DecodesIff(r: Wal.Record, op: Op)
    ensures Decode(r) == Some(op) <==> Writable(op) && SpellsOp(r, op)
  {
    hide Decode, Writable, SpellPayload;
    if Decode(r) == Some(op) {
      DecodedIsWritable(r);
      DecodedIsSpelled(r);
    }
    if Writable(op) && SpellsOp(r, op) {
      var flag: byte, extra: Bytes :| flag != 0 && r.payload == SpellPayload(op, flag) + extra;
      SpelledIsDecoded(r, op, flag, extra);
    }
  }

  // ----- The snapshot -----

  /** "NCSNP", version 1. */
  const SNAPSHOT_HEADER: Bytes := [78, 67, 83, 78, 80, 0, 0, 0, 1, 0, 0, 0]

  /** A value with its tag; a set is any list of its members, repetitions included. */
  function SpellValue(v: Value, order: seq<Bytes>): Bytes {
    match v
    case Str(text) => [0] + Blob(text)
    case Int(number) => [1] + I64(number)
    case List(items) => [2] + (U32(|items| % TWO32) + Snapshot.Blobs(items))
    case Set(_) => [3] + (U32(|order| % TWO32) + Snapshot.Blobs(order))
  }

  ghost predicate Orders(order: seq<Bytes>, v: Value) {
    |order| < TWO32 && (v.Set? ==> Snapshot.Members(order) == v.members)
  }

  function SpellEntry(e: Snapshot.Entry, order: seq<Bytes>, flag: byte): Bytes {
    Blob(e.key) + (SpellValue(e.value, order) + SpellExpiry(e.expiry, flag))
  }

  ghost predicate SpellsEntry(bytes: Bytes, e: Snapshot.Entry) {
    exists order: seq<Bytes>, flag: byte :: flag != 0 && Orders(order, e.value) && bytes == SpellEntry(e, order, flag)
  }

  function Joined(parts: seq<Bytes>): Bytes {
    if parts == [] then [] else parts[0] + Joined(parts[1..])
  }

  ghost predicate SpellsEntries(parts: seq<Bytes>, entries: seq<Snapshot.Entry>) {
    |parts| == |entries| && forall i :: 0 <= i < |parts| ==> SpellsEntry(parts[i], entries[i])
  }

  /** Header, offset, count, entries, and the checksum of all that. */
  function SnapshotBytes(offset: uint64, count: uint64, parts: seq<Bytes>): Bytes {
    var content := SNAPSHOT_HEADER + (U64(offset) + (U64(count) + Joined(parts)));
    content + U32(Crc32.Checksum(content))
  }

  lemma ValueIsSpelled(input: Bytes) returns (order: seq<Bytes>)
    requires Snapshot.ReadValue(input).Got?
    ensures var Got(v, rest) := Snapshot.ReadValue(input);
            Orders(order, v) && input == SpellValue(v, order) + rest
  {
    hide U32, I64, Blob, ReadBlob, ReadI64, Snapshot.Blobs, Snapshot.ReadCountedBlobs;
    var tag, rest := input[0], input[1..];
    assert input == [tag] + rest;
    ReadFlag(tag, rest);
    order := [];
    if tag == 0 {
      ReadBlobFits(rest);
    } else if tag == 1 {
      WriteBackI64(rest);
    } else {
      CountedIsSpelled(rest);
      order := Snapshot.ReadCountedBlobs(rest).value;
    }
  }

  lemma ReadSpelledValue(v: Value, order: seq<Bytes>, rest: Bytes)
    requires Snapshot.FitsValue(v) && Orders(order, v)
    ensures Snapshot.ReadValue(SpellValue(v, order) + rest) == Got(v, rest)
  {
    hide U32, I64, Blob, ReadBlob, ReadI64, Snapshot.Blobs, Snapshot.ReadCountedBlobs, ReadUint;
    match v {
      case Str(text) =>
        ReadFlag(0, Blob(text) + rest);
        assert [0] + Blob(text) + rest == [0] + (Blob(text) + rest);
        ReadBackBlob(text, rest);
      case Int(number) =>
        ReadFlag(1, I64(number) + rest);
        assert [1] + I64(number) + rest == [1] + (I64(number) + rest);
        ReadBackI64(number, rest);
      case List(items) =>
        var spelled := U32(|items| % TWO32) + Snapshot.Blobs(items);
        ReadFlag(2, spelled + rest);
        assert [2] + spelled + rest == [2] + (spelled + rest);
        Snapshot.ReadBackCounted(items, rest);
      case Set(members) =>
        var spelled := U32(|order| % TWO32) + Snapshot.Blobs(order);
        ReadFlag(3, spelled + rest);
        assert [3] + spelled + rest == [3] + (spelled + rest);
        assert forall x :: x in order ==> x in Snapshot.Members(order);
        Snapshot.ReadBackCounted(order, rest);
    }
  }

  lemma EntryIsSpelled(input: Bytes) returns (bytes: Bytes)
    requires Snapshot.ReadEntry(input).Got?
    ensures var Got(e, rest) := Snapshot.ReadEntry(input);
            SpellsEntry(bytes, e) && input == bytes + rest
  {
    hide Blob, ReadBlob, Snapshot.ReadValue, Snapshot.ReadExpiry, SpellValue, SpellExpiry, Orders;
    ReadBlobFits(input);
    var Got(key, rest) := ReadBlob(input);
    var order := ValueIsSpelled(rest);
    var Got(v, more) := Snapshot.ReadValue(rest);
    var flag := ExpiryIsSpelled(more);
    var Got(expiry, left) := Snapshot.ReadExpiry(more);
    var e := Snapshot.Entry(key, v, expiry);
    bytes := SpellEntry(e, order, flag);
    var sv, se := SpellValue(v, order), SpellExpiry(expiry, flag);
    assert Blob(key) + (sv + (se + left)) == Blob(key) + (sv + se) + left;
  }

  lemma ReadSpelledEntry(bytes: Bytes, e: Snapshot.Entry, rest: Bytes)
    requires SpellsEntry(bytes, e) && Snapshot.Fits(e)
    ensures Snapshot.ReadEntry(bytes + rest) == Got(e, rest)
  {
    hide Blob, ReadBlob, Snapshot.ReadValue, Snapshot.ReadExpiry, SpellValue, SpellExpiry, Orders;
    var order: seq<Bytes>, flag: byte :| flag != 0 && Orders(order, e.value) && bytes == SpellEntry(e, order, flag);
    var sv, se := SpellValue(e.value, order), SpellExpiry(e.expiry, flag);
    assert bytes + rest == Blob(e.key) + (sv + (se + rest));
    ReadBackBlob(e.key, sv + (se + rest));
    ReadSpelledValue(e.value, order, se + rest);
    ReadSpelledExpiry(e.expiry, flag, rest);
  }

  lemma {:induction false} EntriesAreSpelled(input: Bytes, n: nat, acc: seq<Snapshot.Entry>)
    returns (parts: seq<Bytes>, entries: seq<Snapshot.Entry>)
    requires Snapshot.ReadEntries(input, n, acc).Got?
    ensures |entries| == n && Snapshot.ReadEntries(input, n, acc).value == acc + entries
    ensures SpellsEntries(parts, entries) && input == Joined(parts) + Snapshot.ReadEntries(input, n, acc).rest
    decreases n
  {
    hide Snapshot.ReadEntry, SpellsEntry;
    if n == 0 {
      parts, entries := [], [];
      assert acc + [] == acc && [] + input == input;
    } else {
      var bytes := EntryIsSpelled(input);
      var Got(e, rest) := Snapshot.ReadEntry(input);
      var more, others := EntriesAreSpelled(rest, n - 1, acc + [e]);
      parts, entries := [bytes] + more, [e] + others;
      assert parts[1..] == more && acc + [e] + others == acc + entries;
      var left := Snapshot.ReadEntries(input, n, acc).rest;
      assert bytes + (Joined(more) + left) == bytes + Joined(more) + left;
    }
  }

  lemma {:induction false} ReadSpelledEntries(
    parts: seq<Bytes>, entries: seq<Snapshot.Entry>, acc: seq<Snapshot.Entry>)
    requires SpellsEntries(parts, entries) && forall e :: e in entries ==> Snapshot.Fits(e)
    ensures Snapshot.ReadEntries(Joined(parts), |entries|, acc) == Got(acc + entries, [])
    decreases |parts|
  {
    hide Snapshot.ReadEntry, SpellsEntry, Snapshot.Fits;
    if parts == [] {
      assert acc + entries == acc;
    } else {
      var e, others := entries[0], entries[1..];
      ReadSpelledEntry(parts[0], e, Joined(parts[1..]));
      ReadSpelledEntries(parts[1..], others, acc + [e]);
      assert acc + [e] + others == acc + entries;
    }
  }

  lemma ReadLoadedIs(file: Bytes)
    requires Snapshot.ReadFile(file).Some?
    ensures var l := Snapshot.ReadFile(file).value;
            && |l.entries| < TWO64
            && exists parts :: SpellsEntries(parts, l.entries) && file == SnapshotBytes(l.offset, |l.entries|, parts)
  {
    hide U32, U64, LeValue, Crc32.Checksum, Snapshot.ReadEntries, Joined, SpellsEntries;
    var content, sum := file[..|file| - 4], file[|file| - 4..];
    var cursor := content[8..];
    WriteBackU32(cursor);
    var r1 := cursor[4..];
    WriteBackU64(r1);
    var r2 := r1[8..];
    WriteBackU64(r2);
    var r3, count := r2[8..], LeValue(r2[..8]);
    var parts, entries := EntriesAreSpelled(r3, count, []);
    assert [] + entries == entries && Joined(parts) + [] == Joined(parts);
    WriteBackU32(sum);
    assert sum[..4] == sum && sum[4..] == [];
    assert sum == U32(Crc32.Checksum(content)) + [] == U32(Crc32.Checksum(content));
    var offset := LeValue(r1[..8]);
    assert content[..8] == file[..8] && content == content[..8] + cursor;
    HeaderJoins(U64(offset) + (U64(count) + Joined(parts)));
    assert content == SNAPSHOT_HEADER + (U64(offset) + (U64(count) + Joined(parts)));
    assert file == content + sum;
    assert Snapshot.ReadFile(file) == Some(Snapshot.Loaded(offset, entries));
    assert file == SnapshotBytes(offset, |entries|, parts);
  }

  lemma HeaderJoins(rest: Bytes)
    ensures Snapshot.MAGIC + (U32(Snapshot.VERSION) + rest) == SNAPSHOT_HEADER + rest
  {
    assert U32(Snapshot.VERSION) == [1, 0, 0, 0];
  }

  lemma SpelledFileReads(offset: uint64, entries: seq<Snapshot.Entry>, parts: seq<Bytes>)
    requires |entries| < TWO64 && SpellsEntries(parts, entries) && forall e :: e in entries ==> Snapshot.Fits(e)
    ensures Snapshot.ReadFile(SnapshotBytes(offset, |entries|, parts)) == Some(Snapshot.Loaded(offset, entries))
  {
    hide U32, U64, LeValue, ReadUint, Crc32.Checksum, Snapshot.ReadEntries, Joined, SpellsEntries, Snapshot.Fits;
    var n := |entries|;
    var r2 := U64(n) + Joined(parts);
    var r1 := U64(offset) + r2;
    HeaderJoins(r1);
    var content := Snapshot.MAGIC + (U32(Snapshot.VERSION) + r1);
    assert content[..8] == Snapshot.MAGIC && content[8..] == U32(Snapshot.VERSION) + r1;
    Snapshot.OpenSealed(content);
    ReadBackU32(Snapshot.VERSION, r1);
    ReadBackU64(offset, r2);
    ReadBackU64(n, Joined(parts));
    ReadSpelledEntries(parts, entries, []);
    assert [] + entries == entries;
  }

  /** The reader accepts exactly the files that spell a snapshot, and returns what they spell. */
  lemma ReadsIff(file: Bytes, offset: uint64, entries: seq<Snapshot.Entry>)
    ensures Snapshot.ReadFile(file) == Some(Snapshot.Loaded(offset, entries)) <==>
            && |entries| < TWO64 && (forall e :: e in entries ==> Snapshot.Fits(e))
            && exists parts :: SpellsEntries(parts, entries) && file == SnapshotBytes(offset, |entries|, parts)
  {
    hide Snapshot.ReadFile, Snapshot.Fits, SpellsEntries, SnapshotBytes;
    if Snapshot.ReadFile(file) == Some(Snapshot.Loaded(offset, entries)) {
      ReadLoadedIs(file);
      Snapshot.LoadedEntriesFit(file);
    }
    if |entries| < TWO64 && (forall e :: e in entries ==> Snapshot.Fits(e)) {
      if parts :| SpellsEntries(parts, entries) && file == SnapshotBytes(offset, |entries|, parts) {
        SpelledFileReads(offset, entries, parts);
      }
    }
  }
}
