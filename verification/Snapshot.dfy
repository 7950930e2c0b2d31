/**
 The snapshot codec of src/persistence/snapshot.cpp.  A set is written in whatever order its hash
 table enumerates it, so the encoder takes that enumeration as an argument.
 */
module Snapshot {
  import opened Common
  import opened Binary
  import opened Values
  import Crc32

  datatype Entry = Entry(key: Key, value: Value, expiry: Option<Instant>)

  /** "NCSNP" and three zero octets. */
  const MAGIC: Bytes := [78, 67, 83, 78, 80, 0, 0, 0]
  const VERSION: nat := 1

  // ----- Encoding -----

  function Blobs(xs: seq<Bytes>): Bytes {
    if xs == [] then [] else Blob(xs[0]) + Blobs(xs[1..])
  }

  function Members(xs: seq<Bytes>): set<Bytes> {
    set x | x in xs
  }

  /** `order` lists the members of a set once each; other values ignore it. */
  ghost predicate Enumerates(order: seq<Bytes>, v: Value) {
    v.Set? ==> Members(order) == v.members && |order| == |v.members|
  }

  function EncodeValue(v: Value, order: seq<Bytes>): Bytes {
    match v
    case Str(text) => U8(0) + Blob(text)
    case Int(number) => U8(1) + I64(number)
    case List(items) => U8(2) + (U32(|items| % TWO32) + Blobs(items))
    case Set(_) => U8(3) + (U32(|order| % TWO32) + Blobs(order))
  }

  function EncodeExpiry(expiry: Option<Instant>): Bytes {
    match expiry
    case None => U8(0)
    case Some(t) => U8(1) + I64(ToUnixMs(t))
  }

  function EncodeEntry(e: Entry, order: seq<Bytes>): Bytes {
    Blob(e.key) + (EncodeValue(e.value, order) + EncodeExpiry(e.expiry))
  }

  ghost predicate EnumeratesAll(orders: seq<seq<Bytes>>, entries: seq<Entry>) {
    |orders| == |entries| && forall i :: 0 <= i < |entries| ==> Enumerates(orders[i], entries[i].value)
  }

  function EncodeEntries(entries: seq<Entry>, orders: seq<seq<Bytes>>): Bytes
    requires |orders| == |entries|
  {
    if entries == [] then []
    else EncodeEntry(entries[0], orders[0]) + EncodeEntries(entries[1..], orders[1..])
  }

  function Content(offset: uint64, entries: seq<Entry>, orders: seq<seq<Bytes>>): Bytes
    requires |orders| == |entries|
  {
    MAGIC + (U32(VERSION) + (U64(offset) + (U64(|entries| % TWO64) + EncodeEntries(entries, orders))))
  }

  function Seal(content: Bytes): Bytes {
    content + U32(Crc32.Checksum(content))
  }

  /** The file is a snapshot of the entries, with every set written in some order. */
  ghost predicate IsSnapshot(file: Bytes, offset: uint64, entries: seq<Entry>) {
    exists orders :: EnumeratesAll(orders, entries) && file == Seal(Content(offset, entries, orders))
  }

  // ----- Decoding -----

  function ReadBlobs(input: Bytes, n: nat, acc: seq<Bytes>): (r: Read<seq<Bytes>>)
    decreases n
  {
    if n == 0 then Got(acc, input) else
    match ReadBlob(input)
    case Short => Short
    case Got(b, rest) => ReadBlobs(rest, n - 1, acc + [b])
  }

  function ReadCountedBlobs(input: Bytes): Read<seq<Bytes>> {
    match ReadUint(input, 4)
    case Short => Short
    case Got(n, rest) => ReadBlobs(rest, n, [])
  }

  /** An unknown type tag makes the source throw, like a truncated input. */
  function ReadValue(input: Bytes): Read<Value> {
    match ReadUint(input, 1)
    case Short => Short
    case Got(tag, rest) =>
      if tag == 0 then
        match ReadBlob(rest) case Short => Short case Got(b, more) => Got(Str(b), more)
      else if tag == 1 then
        match ReadI64(rest) case Short => Short case Got(v, more) => Int64Read(rest); Got(Int(v), more)
      else if tag == 2 then
        match ReadCountedBlobs(rest) case Short => Short case Got(xs, more) => Got(List(xs), more)
      else if tag == 3 then
        match ReadCountedBlobs(rest) case Short => Short case Got(xs, more) => Got(Set(Members(xs)), more)
      else Short
  }

  lemma Int64Read(input: Bytes)
    requires ReadI64(input).Got?
    ensures -TWO63 <= ReadI64(input).value < TWO63
  {
    WriteBackU64(input);
  }

  function ReadExpiry(input: Bytes): Read<Option<Instant>> {
    match ReadUint(input, 1)
    case Short => Short
    case Got(flag, rest) =>
      if flag == 0 then Got(None, rest) else
      match ReadI64(rest)
      case Short => Short
      case Got(ms, more) => Int64Read(rest); Got(Some(FromUnixMs(ms)), more)
  }

  function ReadEntry(input: Bytes): Read<Entry> {
    match ReadBlob(input)
    case Short => Short
    case Got(key, rest) =>
      match ReadValue(rest)
      case Short => Short
      case Got(value, more) =>
        match ReadExpiry(more)
        case Short => Short
        case Got(expiry, left) => Got(Entry(key, value, expiry), left)
  }

  function ReadEntries(input: Bytes, n: nat, acc: seq<Entry>): Read<seq<Entry>>
    decreases n
  {
    if n == 0 then Got(acc, input) else
    match ReadEntry(input)
    case Short => Short
    case Got(e, rest) => ReadEntries(rest, n - 1, acc + [e])
  }

  datatype Loaded = Loaded(offset: uint64, entries: seq<Entry>)

  function ReadContent(cursor: Bytes): Option<Loaded> {
    match ReadUint(cursor, 4)
    case Short => None
    case Got(version, r1) =>
      if version != VERSION then None else
      match ReadUint(r1, 8)
      case Short => None
      case Got(offset, r2) =>
        match ReadUint(r2, 8)
        case Short => None
        case Got(count, r3) =>
          match ReadEntries(r3, count, [])
          case Short => None
          case Got(entries, left) =>
            WriteBackU64(r1);
            if left == [] then Some(Loaded(offset, entries)) else None
  }

  /** `SnapshotStore::read` on the bytes of the file: any defect makes the snapshot absent. */
  function ReadFile(file: Bytes): Option<Loaded> {
    if |file| < 32 || file[..8] != MAGIC then None else
    var content := file[..|file| - 4];
    if LeValue(file[|file| - 4..]) != Crc32.Checksum(content) then None
    else ReadContent(content[8..])
  }

  // ----- What the format can hold -----

  predicate FitsValue(v: Value) {
    match v
    case Str(text) => |text| < TWO32
    case Int(_) => true
    case List(items) => |items| < TWO32 && forall x :: x in items ==> |x| < TWO32
    case Set(members) => |members| < TWO32 && forall x :: x in members ==> |x| < TWO32
  }

  predicate FitsSizes(e: Entry) {
    |e.key| < TWO32 && FitsValue(e.value)
  }

  predicate Fits(e: Entry) {
    FitsSizes(e) && (e.expiry.Some? ==> WholeMs(e.expiry.value))
  }

  function Rounded(e: Entry): Entry {
    match e.expiry
    case None => e
    case Some(t) => e.(expiry := Some(FromUnixMs(ToUnixMs(t))))
  }

  // ----- Round trip -----

  lemma {:induction false} ReadBackBlobs(xs: seq<Bytes>, acc: seq<Bytes>, rest: Bytes)
    requires forall x :: x in xs ==> |x| < TWO32
    ensures ReadBlobs(Blobs(xs) + rest, |xs|, acc) == Got(acc + xs, rest)
    decreases |xs|
  {
    hide Blob, ReadBlob;
    if xs == [] {
      assert Blobs(xs) + rest == rest && acc + xs == acc;
    } else {
      var more := Blobs(xs[1..]) + rest;
      assert Blobs(xs) + rest == Blob(xs[0]) + more;
      ReadBackBlob(xs[0], more);
      ReadBackBlobs(xs[1..], acc + [xs[0]], rest);
      assert acc + [xs[0]] + xs[1..] == acc + xs;
    }
  }

  lemma ReadBackCounted(xs: seq<Bytes>, rest: Bytes)
    requires |xs| < TWO32 && forall x :: x in xs ==> |x| < TWO32
    ensures ReadCountedBlobs(U32(|xs| % TWO32) + Blobs(xs) + rest) == Got(xs, rest)
  {
    hide U32, ReadUint, ReadBlobs, Blobs;
    assert |xs| % TWO32 == |xs|;
    assert U32(|xs|) + Blobs(xs) + rest == U32(|xs|) + (Blobs(xs) + rest);
    ReadBackU32(|xs|, Blobs(xs) + rest);
    ReadBackBlobs(xs, [], rest);
    assert [] + xs == xs;
  }

  lemma ReadBackValue(v: Value, order: seq<Bytes>, rest: Bytes)
    requires FitsValue(v) && Enumerates(order, v)
    ensures ReadValue(EncodeValue(v, order) + rest) == Got(v, rest)
  {
    hide U8, U32, ReadUint, ReadBlob, Blob, ReadI64, I64, ReadCountedBlobs, Blobs;
    match v {
      case Str(text) =>
        ReadBackU8(0, Blob(text) + rest);
        ReadBackBlob(text, rest);
        assert EncodeValue(v, order) + rest == U8(0) + (Blob(text) + rest);
      case Int(number) =>
        ReadBackU8(1, I64(number) + rest);
        ReadBackI64(number, rest);
        assert EncodeValue(v, order) + rest == U8(1) + (I64(number) + rest);
      case List(items) =>
        var tail := U32(|items| % TWO32) + Blobs(items);
        ReadBackU8(2, tail + rest);
        ReadBackCounted(items, rest);
        assert EncodeValue(v, order) + rest == U8(2) + (tail + rest);
      case Set(members) =>
        assert forall x :: x in order ==> x in Members(order);
        var tail := U32(|order| % TWO32) + Blobs(order);
        ReadBackU8(3, tail + rest);
        ReadBackCounted(order, rest);
        assert EncodeValue(v, order) + rest == U8(3) + (tail + rest);
    }
  }

  lemma ReadBackExpiry(expiry: Option<Instant>, rest: Bytes)
    ensures ReadExpiry(EncodeExpiry(expiry) + rest) ==
            Got(if expiry.None? then None else Some(FromUnixMs(ToUnixMs(expiry.value))), rest)
  {
    hide U8, ReadUint, ReadI64, I64;
    match expiry {
      case None =>
        ReadBackU8(0, rest);
      case Some(t) =>
        var ms := I64(ToUnixMs(t));
        ReadBackU8(1, ms + rest);
        ReadBackI64(ToUnixMs(t), rest);
        assert EncodeExpiry(expiry) + rest == U8(1) + (ms + rest);
    }
  }

  lemma ReadBackEntry(e: Entry, order: seq<Bytes>, rest: Bytes)
    requires FitsSizes(e) && Enumerates(order, e.value)
    ensures ReadEntry(EncodeEntry(e, order) + rest) == Got(Rounded(e), rest)
  {
    hide Blob, ReadBlob, EncodeValue, ReadValue, EncodeExpiry, ReadExpiry, FitsValue, Enumerates;
    var x := EncodeExpiry(e.expiry) + rest;
    var v := EncodeValue(e.value, order) + x;
    assert EncodeEntry(e, order) + rest == Blob(e.key) + v;
    ReadBackBlob(e.key, v);
    ReadBackValue(e.value, order, x);
    ReadBackExpiry(e.expiry, rest);
  }

  function RoundedAll(entries: seq<Entry>): (r: seq<Entry>)
    ensures |r| == |entries| && forall i :: 0 <= i < |r| ==> r[i] == Rounded(entries[i])
  {
    seq(|entries|, i requires 0 <= i < |entries| => Rounded(entries[i]))
  }

  lemma {:induction false} ReadBackEntries(
    entries: seq<Entry>, orders: seq<seq<Bytes>>, acc: seq<Entry>, rest: Bytes)
    requires EnumeratesAll(orders, entries) && forall e :: e in entries ==> FitsSizes(e)
    ensures ReadEntries(EncodeEntries(entries, orders) + rest, |entries|, acc) ==
            Got(acc + RoundedAll(entries), rest)
    decreases |entries|
  {
    hide EncodeEntry, ReadEntry, Rounded, FitsSizes, Enumerates;
    if entries == [] {
      assert EncodeEntries(entries, orders) + rest == rest;
      assert acc + RoundedAll(entries) == acc;
    } else {
      var e := Rounded(entries[0]);
      var more := EncodeEntries(entries[1..], orders[1..]) + rest;
      assert EncodeEntries(entries, orders) + rest == EncodeEntry(entries[0], orders[0]) + more;
      ReadBackEntry(entries[0], orders[0], more);
      ReadBackEntries(entries[1..], orders[1..], acc + [e], rest);
      assert acc + [e] + RoundedAll(entries[1..]) == acc + RoundedAll(entries);
    }
  }

  lemma ReadBackContent(offset: uint64, entries: seq<Entry>, orders: seq<seq<Bytes>>)
    requires EnumeratesAll(orders, entries) && forall e :: e in entries ==> FitsSizes(e)
    requires |entries| < TWO64
    ensures ReadContent(Content(offset, entries, orders)[8..]) == Some(Loaded(offset, RoundedAll(entries)))
  {
    hide U32, U64, ReadUint, ReadEntries, EncodeEntries, Enumerates, FitsSizes, RoundedAll;
    var body := EncodeEntries(entries, orders);
    var r2 := U64(|entries|) + body;
    var r1 := U64(offset) + r2;
    assert Content(offset, entries, orders)[8..] == U32(VERSION) + r1;
    ReadBackU32(VERSION, r1);
    ReadBackU64(offset, r2);
    ReadBackU64(|entries|, body);
    ReadBackEntries(entries, orders, [], []);
    assert body + [] == body && [] + RoundedAll(entries) == RoundedAll(entries);
  }

  lemma OpenSealed(content: Bytes)
    requires |content| >= 28 && content[..8] == MAGIC
    ensures ReadFile(Seal(content)) == ReadContent(content[8..])
  {
    hide U32, LeValue, Crc32.Checksum, ReadContent;
    var file := Seal(content);
    assert file[..|file| - 4] == content && file[|file| - 4..] == U32(Crc32.Checksum(content));
    assert file[..8] == content[..8];
    U32Value(Crc32.Checksum(content));
  }

  /** Damage of at most 32 consecutive bits in the content of a snapshot makes it unreadable. */
  lemma DamagedIsRefused(content: Bytes, damaged: Bytes, p: nat)
    requires damaged != content && Crc32.DifferInBurst(Crc32.Bits(damaged), Crc32.Bits(content), p)
    ensures |damaged| == |content| && ReadFile(damaged + U32(Crc32.Checksum(content))) == None
  {
    hide U32, LeValue, Crc32.Checksum, Crc32.Bits, ReadContent;
    Crc32.BurstDetected(damaged, content, p);
    var file := damaged + U32(Crc32.Checksum(content));
    assert file[..|file| - 4] == damaged && file[|file| - 4..] == U32(Crc32.Checksum(content));
    U32Value(Crc32.Checksum(content));
  }

  /** A written snapshot reads back with every expiry cut to whole milliseconds. */
  lemma SnapshotReadsBack(file: Bytes, offset: uint64, entries: seq<Entry>)
    requires IsSnapshot(file, offset, entries)
    requires |entries| < TWO64 && forall e :: e in entries ==> FitsSizes(e)
    ensures ReadFile(file) == Some(Loaded(offset, RoundedAll(entries)))
  {
    hide U32, U64, Crc32.Checksum, ReadContent, ReadFile, FitsSizes, Enumerates, Seal, RoundedAll, EncodeEntries;
    var orders :| EnumeratesAll(orders, entries) && file == Seal(Content(offset, entries, orders));
    ReadBackContent(offset, entries, orders);
    OpenSealed(Content(offset, entries, orders));
  }

  // ----- Everything read fits, so the round trip holds exactly for what fits -----

  lemma {:induction false} ReadBlobsFit(input: Bytes, n: nat, acc: seq<Bytes>)
    requires forall x :: x in acc ==> |x| < TWO32
    ensures var r := ReadBlobs(input, n, acc);
            r.Got? ==> |r.value| == |acc| + n && forall x :: x in r.value ==> |x| < TWO32
    decreases n
  {
    hide ReadBlob;
    if n > 0 && ReadBlob(input).Got? {
      ReadBlobFits(input);
      var b := ReadBlob(input).value;
      ReadBlobsFit(ReadBlob(input).rest, n - 1, acc + [b]);
    }
  }

  lemma ReadCountedFit(input: Bytes)
    ensures var r := ReadCountedBlobs(input);
            r.Got? ==> |r.value| < TWO32 && forall x :: x in r.value ==> |x| < TWO32
  {
    hide ReadBlobs, LeValue, U32;
    if |input| >= 4 {
      WriteBackU32(input);
      ReadBlobsFit(input[4..], LeValue(input[..4]), []);
    }
  }

  lemma {:induction false} MembersAtMost(xs: seq<Bytes>)
    ensures |Members(xs)| <= |xs|
    decreases |xs|
  {
    if xs != [] {
      MembersAtMost(xs[1..]);
      assert Members(xs) == {xs[0]} + Members(xs[1..]);
    }
  }

  lemma ReadValueFits(input: Bytes)
    ensures ReadValue(input).Got? ==> FitsValue(ReadValue(input).value)
  {
    hide ReadUint, ReadBlob, ReadI64, ReadCountedBlobs;
    if ReadUint(input, 1).Got? {
      var rest := ReadUint(input, 1).rest;
      ReadBlobFits(rest);
      ReadCountedFit(rest);
      if ReadCountedBlobs(rest).Got? {
        MembersAtMost(ReadCountedBlobs(rest).value);
      }
    }
  }

  lemma ReadEntryFits(input: Bytes)
    ensures ReadEntry(input).Got? ==> Fits(ReadEntry(input).value)
  {
    hide ReadUint, ReadBlob, ReadI64, ReadValue, FitsValue;
    ReadBlobFits(input);
    if ReadBlob(input).Got? {
      ReadValueFits(ReadBlob(input).rest);
    }
  }

  lemma {:induction false} ReadEntriesFit(input: Bytes, n: nat, acc: seq<Entry>)
    requires forall e :: e in acc ==> Fits(e)
    ensures var r := ReadEntries(input, n, acc);
            r.Got? ==> forall e :: e in r.value ==> Fits(e)
    decreases n
  {
    hide ReadEntry, Fits;
    if n > 0 && ReadEntry(input).Got? {
      ReadEntryFits(input);
      ReadEntriesFit(ReadEntry(input).rest, n - 1, acc + [ReadEntry(input).value]);
    }
  }

  /** No snapshot, however it was made, yields an entry that the format cannot hold. */
  lemma LoadedEntriesFit(file: Bytes)
    ensures ReadFile(file).Some? ==> forall e :: e in ReadFile(file).value.entries ==> Fits(e)
  {
    hide ReadEntries, LeValue, Crc32.Checksum, Fits;
    if ReadFile(file).Some? {
      var cursor := file[..|file| - 4][8..];
      ReadEntriesFit(cursor[4..][8..][8..], LeValue(cursor[4..][8..][..8]), []);
    }
  }

  /**
   A snapshot gives back exactly the entries written, in whatever order its sets were enumerated,
   if and only if every length fits 32 bits and every expiry is a whole millisecond.
   */
  lemma RoundTripIffFits(file: Bytes, offset: uint64, entries: seq<Entry>)
    requires IsSnapshot(file, offset, entries) && |entries| < TWO64
    ensures ReadFile(file) == Some(Loaded(offset, entries)) <==> forall e :: e in entries ==> Fits(e)
  {
    hide ReadFile, IsSnapshot, FitsSizes;
    LoadedEntriesFit(file);
    if forall e :: e in entries ==> Fits(e) {
      SnapshotReadsBack(file, offset, entries);
      forall i | 0 <= i < |entries|
        ensures Rounded(entries[i]) == entries[i]
      {
        assert Fits(entries[i]);
        if entries[i].expiry.Some? {
          MillisecondsExact(entries[i].expiry.value);
        }
      }
      assert RoundedAll(entries) == entries;
    }
  }

  // ----- The loops of the source -----

  method AppendBlobs(out: Bytes, xs: seq<Bytes>) returns (r: Bytes)
    ensures r == out + Blobs(xs)
  {
    hide Blob;
    r := out;
    for i := 0 to |xs|
      invariant out + Blobs(xs) == r + Blobs(xs[i..])
    {
      assert xs[i..][1..] == xs[i + 1..];
      r := r + Blob(xs[i]);
    }
  }

  /** Writes the members of a set in an arbitrary order. */
  method AppendMembers(out: Bytes, members: set<Bytes>) returns (r: Bytes, ghost order: seq<Bytes>)
    ensures Enumerates(order, Set(members)) && r == out + Blobs(order)
  {
    hide Blob;
    r, order := out, [];
    var pending := members;
    while pending != {}
      invariant pending <= members && Listed(order, members - pending)
      invariant |order| + |pending| == |members|
      invariant r == out + Blobs(order)
      decreases |pending|
    {
      var x :| x in pending;
      BlobsAppend(order, x);
      ListOneMore(order, members - pending, x);
      assert members - pending + {x} == members - (pending - {x});
      r := r + Blob(x);
      order := order + [x];
      pending := pending - {x};
    }
    assert members - pending == members;
  }

  ghost predicate Listed(order: seq<Bytes>, members: set<Bytes>) {
    Members(order) == members
  }

  lemma ListOneMore(order: seq<Bytes>, members: set<Bytes>, x: Bytes)
    requires Listed(order, members)
    ensures Listed(order + [x], members + {x})
  {
  }

  lemma {:induction false} BlobsAppend(xs: seq<Bytes>, x: Bytes)
    ensures Blobs(xs + [x]) == Blobs(xs) + Blob(x)
    decreases |xs|
  {
    hide Blob;
    if xs == [] {
      assert [] + [x] == [x] && Blobs([x]) == Blob(x) + [] == Blob(x);
    } else {
      assert (xs + [x])[1..] == xs[1..] + [x];
      BlobsAppend(xs[1..], x);
    }
  }

  method AppendValue(out: Bytes, v: Value) returns (r: Bytes, ghost order: seq<Bytes>)
    ensures Enumerates(order, v) && r == out + EncodeValue(v, order)
  {
    hide U8, U32, I64, Blob, Blobs;
    order := [];
    match v {
      case Str(text) =>
        r := out + U8(0) + Blob(text);
      case Int(number) =>
        r := out + U8(1) + I64(number);
      case List(items) =>
        r := AppendBlobs(out + U8(2) + U32(|items| % TWO32), items);
      case Set(members) =>
        r, order := AppendMembers(out + U8(3) + U32(|members| % TWO32), members);
    }
  }

  /** `SnapshotStore::write`: the bytes put in the temporary file before it replaces the old one. */
  method WriteFile(offset: uint64, entries: seq<Entry>) returns (file: Bytes)
    ensures IsSnapshot(file, offset, entries)
  {
    hide U8, U32, U64, EncodeEntry, Crc32.Checksum, Enumerates;
    var body := MAGIC + U32(VERSION) + U64(offset) + U64(|entries| % TWO64);
    ghost var start := body;
    ghost var orders: seq<seq<Bytes>> := [];
    for i := 0 to |entries|
      invariant EnumeratesAll(orders, entries[..i])
      invariant body == start + EncodeEntries(entries[..i], orders)
    {
      ghost var before, order := body, [];
      body, order := AppendEntry(body, entries[i]);
      EntriesAppend(entries[..i], orders, entries[i], order);
      assert entries[..i + 1] == entries[..i] + [entries[i]];
      orders := orders + [order];
    }
    assert entries[..|entries|] == entries;
    assert body == Content(offset, entries, orders);
    file := body + U32(Crc32.Checksum(body));
    assert file == Seal(Content(offset, entries, orders));
  }

  method AppendEntry(out: Bytes, e: Entry) returns (r: Bytes, ghost order: seq<Bytes>)
    ensures Enumerates(order, e.value) && r == out + EncodeEntry(e, order)
  {
    hide U8, I64, Blob, EncodeValue, Enumerates;
    r := out + Blob(e.key);
    r, order := AppendValue(r, e.value);
    r := r + U8(if e.expiry.Some? then 1 else 0);
    if e.expiry.Some? {
      r := r + I64(ToUnixMs(e.expiry.value));
    }
  }

  lemma {:induction false} EntriesAppend(
    entries: seq<Entry>, orders: seq<seq<Bytes>>, e: Entry, order: seq<Bytes>)
    requires |orders| == |entries|
    ensures EncodeEntries(entries + [e], orders + [order]) ==
            EncodeEntries(entries, orders) + EncodeEntry(e, order)
    decreases |entries|
  {
    hide EncodeEntry;
    if entries == [] {
      assert entries + [e] == [e] && orders + [order] == [order];
      assert EncodeEntries([e], [order]) == EncodeEntry(e, order) + [];
    } else {
      assert (entries + [e])[1..] == entries[1..] + [e];
      assert (orders + [order])[1..] == orders[1..] + [order];
      EntriesAppend(entries[1..], orders[1..], e, order);
    }
  }

  method ParseCountedBlobs(input: Bytes) returns (r: Read<seq<Bytes>>)
    ensures r == ReadCountedBlobs(input)
  {
    hide LeValue, ReadBlob;
    var head := ReadUint(input, 4);
    if head.Short? {
      return Short;
    }
    var cursor, items := head.rest, [];
    for index := 0 to head.value
      invariant ReadBlobs(cursor, head.value - index, items) == ReadCountedBlobs(input)
    {
      var item := ReadBlob(cursor);
      if item.Short? {
        return Short;
      }
      items := items + [item.value];
      cursor := item.rest;
    }
    r := Got(items, cursor);
  }

  method ParseValue(input: Bytes) returns (r: Read<Value>)
    ensures r == ReadValue(input)
  {
    hide LeValue, ReadBlob, ReadCountedBlobs, ReadI64;
    var tag := ReadUint(input, 1);
    if tag.Short? {
      return Short;
    }
    match tag.value {
      case 0 =>
        var text := ReadBlob(tag.rest);
        r := if text.Short? then Short else Got(Str(text.value), text.rest);
      case 1 =>
        var number := ReadI64(tag.rest);
        if number.Short? {
          return Short;
        }
        Int64Read(tag.rest);
        r := Got(Int(number.value), number.rest);
      case 2 =>
        var items := ParseCountedBlobs(tag.rest);
        r := if items.Short? then Short else Got(List(items.value), items.rest);
      case 3 =>
        var items := ParseCountedBlobs(tag.rest);
        r := if items.Short? then Short else Got(Set(Members(items.value)), items.rest);
      case _ =>
        r := Short;
    }
  }

  /** `SnapshotStore::read`: the entry loop under the checksum and header tests. */
  method ReadBack(file: Bytes) returns (r: Option<Loaded>)
    ensures r == ReadFile(file)
  {
    hide LeValue, Crc32.Checksum, ReadEntry;
    if |file| < 32 || file[..8] != MAGIC {
      return None;
    }
    var content := file[..|file| - 4];
    if LeValue(file[|file| - 4..]) != Crc32.Checksum(content) {
      return None;
    }
    var version := ReadUint(content[8..], 4);
    if version.Short? || version.value != VERSION {
      return None;
    }
    var offset := ReadUint(version.rest, 8);
    if offset.Short? {
      return None;
    }
    var count := ReadUint(offset.rest, 8);
    if count.Short? {
      return None;
    }
    WriteBackU64(version.rest);
    var cursor, entries := count.rest, [];
    for index := 0 to count.value
      invariant ReadEntries(cursor, count.value - index, entries) == ReadEntries(count.rest, count.value, [])
    {
      var entry := ParseEntry(cursor);
      if entry.Short? {
        return None;
      }
      entries := entries + [entry.value];
      cursor := entry.rest;
    }
    r := if cursor == [] then Some(Loaded(offset.value, entries)) else None;
  }

  method ParseEntry(input: Bytes) returns (r: Read<Entry>)
    ensures r == ReadEntry(input)
  {
    hide LeValue, ReadBlob, ReadValue, ReadI64;
    var key := ReadBlob(input);
    if key.Short? {
      return Short;
    }
    var value := ParseValue(key.rest);
    if value.Short? {
      return Short;
    }
    var expiry := ReadExpiry(value.rest);
    if expiry.Short? {
      return Short;
    }
    r := Got(Entry(key.value, value.value, expiry.value), expiry.rest);
  }
}
