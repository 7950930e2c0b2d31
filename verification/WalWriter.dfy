/** The log writer object of src/persistence/wal.cpp, over a file that a crash may cut. */
module WalWriter {
  import opened Common
  import opened Binary
  import opened Disk
  import opened Wal
  import Crc32

  class Writer {
    var isOpen: bool
    var file: File
    var lastOffset: uint64

    constructor (file: File)
      ensures !isOpen && this.file == file && lastOffset == 0
    {
      this.isOpen := false;
      this.file := file;
      this.lastOffset := 0;
    }

    /** Scans the file record by record and cuts whatever follows the last intact record. */
    method OpenAndRecover() returns (r: Opened)
      modifies this
      ensures isOpen
      ensures r == OpenFile(old(file))
      ensures r.Opened? ==> file == r.file && lastOffset == r.last
      ensures r.Failed? ==> file == old(file)
    {
      hide ScanFrom, Prepend;
      isOpen := true;
      var bytes := file.current.bytes;
      if |bytes| < 16 || bytes[..8] != MAGIC {
        if bytes != [] {
          file := file.Clear();
        }
        file := file.Write(HEADER);
        lastOffset := 0;
        return Opened([], file, 0);
      }
      if LeValue(bytes[8..12]) != VERSION {
        return Failed(UnsupportedVersion);
      }

      var cursor, validEnd := bytes[16..], 16;
      var records: seq<Record> := [];
      lastOffset := 0;
      PrependNothing(ScanFrom(cursor, 0, 16));
      while true
        invariant isOpen && file == old(file) && validEnd <= |bytes| && cursor == bytes[validEnd..]
        invariant ScanFrom(bytes[16..], 0, 16) == Prepend(records, ScanFrom(cursor, lastOffset, validEnd))
        decreases TWO64 - lastOffset
      {
        ghost var last := lastOffset;
        var probe := ProbeRecord(cursor, lastOffset);
        match probe {
          case Stop =>
            ScanStops(cursor, lastOffset, validEnd);
            break;
          case Throw(why) =>
            ScanThrows(cursor, lastOffset, validEnd);
            PrependRefused(records, why);
            return Failed(why);
          case Accept(record, consumed) =>
            ScanAccepts(cursor, lastOffset, validEnd, record, consumed);
            PrependMore(records, record, ScanFrom(cursor[consumed..], record.offset, validEnd + consumed));
            lastOffset := record.offset;
            records := records + [record];
            cursor := cursor[consumed..];
            validEnd := validEnd + consumed;
        }
      }
      PrependKept(records, validEnd, lastOffset);
      if |bytes| != validEnd {
        file := OnDisk(bytes[..validEnd]);
      }
      r := Opened(records, file, lastOffset);
    }

    /** Writes the next record; the offset is one above the last and wraps at 64 bits. */
    method Append(opcode: uint16, payload: Bytes) returns (r: Option<uint64>)
      modifies this
      ensures isOpen == old(isOpen)
      ensures !isOpen ==> r == None && file == old(file) && lastOffset == old(lastOffset)
      ensures isOpen ==>
                && lastOffset == (old(lastOffset) + 1) % TWO64
                && r == Some(lastOffset)
                && file == old(file).Write(Encode(Record(lastOffset, opcode, payload)))
    {
      if !isOpen {
        return None;
      }
      var offset := (lastOffset + 1) % TWO64;
      var body := U64(offset) + U16(opcode) + payload;
      var record := U32(|body| % TWO32) + body + U32(Crc32.Checksum(body));
      file := file.Write(record);
      lastOffset := offset;
      r := Some(offset);
    }

    method Sync() returns (ok: bool)
      modifies `file
      ensures ok == isOpen && file == if isOpen then old(file).Fsync() else old(file)
    {
      ok := isOpen;
      if isOpen {
        file := file.Fsync();
      }
    }

    /** Rotation: the log restarts as a bare header and numbering goes on from the given offset. */
    method TruncateAfter(lastIncluded: uint64) returns (ok: bool)
      modifies `file, `lastOffset
      ensures ok == isOpen
      ensures isOpen ==> file == OnDisk(HEADER) && lastOffset == lastIncluded
      ensures !isOpen ==> file == old(file) && lastOffset == old(lastOffset)
    {
      ok := isOpen;
      if isOpen {
        file := file.Clear();
        file := file.Write(HEADER);
        lastOffset := lastIncluded;
        file := file.Fsync();
        assert [] + HEADER == HEADER;
      }
    }
  }

  lemma PrependNothing(s: Scan)
    ensures Prepend([], s) == s
  {
    if s.Kept? {
      assert [] + s.records == s.records;
    }
  }

  lemma PrependRefused(rs: seq<Record>, why: Failure)
    ensures Prepend(rs, Refused(why)) == Refused(why)
  {
  }

  lemma PrependKept(rs: seq<Record>, end: nat, last: uint64)
    ensures Prepend(rs, Kept([], end, last)) == Kept(rs, end, last)
  {
    assert rs + [] == rs;
  }

  lemma PrependMore(rs: seq<Record>, r: Record, s: Scan)
    ensures Prepend(rs, Prepend([r], s)) == Prepend(rs + [r], s)
  {
    if s.Kept? {
      assert rs + ([r] + s.records) == rs + [r] + s.records;
    }
  }
}
