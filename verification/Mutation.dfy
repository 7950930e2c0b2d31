/**
 The three mutations that the log records (src/persistence/wal.cpp, encode_*_payload) and their
 decoding during replay (src/persistence/engine.cpp, apply_record).
 */
module Mutation {
  import opened Common
  import opened Binary
  import opened Values
  import opened FlatMap
  import opened Wal
  import Snapshot

  datatype Op =
    | PutOp(key: Key, text: Bytes, expiry: Option<Instant>)
    | DelOp(keys: seq<Key>)
    | ExpireOp(name: Key, at: Instant)

  function Opcode(op: Op): uint16 {
    match op
    case PutOp(_, _, _) => 1
    case DelOp(_) => 2
    case ExpireOp(_, _) => 3
  }

  function Payload(op: Op): Bytes {
    match op
    case PutOp(key, text, expiry) => Blob(key) + (Blob(text) + Snapshot.EncodeExpiry(expiry))
    case DelOp(keys) => U32(|keys| % TWO32) + Snapshot.Blobs(keys)
    case ExpireOp(name, at) => Blob(name) + I64(ToUnixMs(at))
  }

  function ToRecord(op: Op, offset: uint64): Record {
    Record(offset, Opcode(op), Payload(op))
  }

  /** Bytes left over in a payload are ignored, as in the source. */
  function Decode(r: Record): Option<Op> {
    if r.opcode == 1 then
      match ReadBlob(r.payload)
      case Short => None
      case Got(key, rest) =>
        match ReadBlob(rest)
        case Short => None
        case Got(text, more) =>
          match Snapshot.ReadExpiry(more)
          case Short => None
          case Got(expiry, _) => Some(PutOp(key, text, expiry))
    else if r.opcode == 2 then
      match Snapshot.ReadCountedBlobs(r.payload)
      case Short => None
      case Got(keys, _) => Some(DelOp(keys))
    else if r.opcode == 3 then
      match ReadBlob(r.payload)
      case Short => None
      case Got(name, rest) =>
        match ReadI64(rest)
        case Short => None
        case Got(ms, _) => Snapshot.Int64Read(rest); Some(ExpireOp(name, FromUnixMs(ms)))
    else None
  }

  predicate WholeExpiry(expiry: Option<Instant>) {
    expiry.Some? ==> WholeMs(expiry.value)
  }

  /** The operation can be written without losing anything. */
  predicate Writable(op: Op) {
    match op
    case PutOp(key, text, expiry) => |key| < TWO32 && |text| < TWO32 && WholeExpiry(expiry)
    case DelOp(keys) => |keys| < TWO32 && forall k :: k in keys ==> |k| < TWO32
    case ExpireOp(name, at) => |name| < TWO32 && WholeMs(at)
  }

  lemma DecodeEncoded(op: Op, offset: uint64)
    requires Writable(op)
    ensures Decode(ToRecord(op, offset)) == Some(op)
  {
    hide U32, I64, Blob, ReadBlob, ReadI64, Snapshot.Blobs, Snapshot.ReadCountedBlobs,
      Snapshot.EncodeExpiry, Snapshot.ReadExpiry;
    match op {
      case PutOp(key, text, expiry) =>
        var e := Snapshot.EncodeExpiry(expiry);
        ReadBackBlob(key, Blob(text) + e);
        ReadBackBlob(text, e);
        Snapshot.ReadBackExpiry(expiry, []);
        assert e + [] == e;
        if expiry.Some? {
          MillisecondsExact(expiry.value);
        }
      case DelOp(keys) =>
        Snapshot.ReadBackCounted(keys, []);
        assert Payload(op) + [] == Payload(op);
      case ExpireOp(name, at) =>
        var ms := I64(ToUnixMs(at));
        ReadBackBlob(name, ms);
        ReadBackI64(ToUnixMs(at), []);
        assert ms + [] == ms;
        MillisecondsExact(at);
    }
  }

  lemma DecodedIsWritable(r: Record)
    ensures Decode(r).Some? ==> Writable(Decode(r).value)
  {
    hide ReadBlob, Snapshot.ReadCountedBlobs;
    ReadBlobFits(r.payload);
    Snapshot.ReadCountedFit(r.payload);
    if r.opcode == 1 && ReadBlob(r.payload).Got? {
      var rest := ReadBlob(r.payload).rest;
      ReadBlobFits(rest);
    }
  }

  /** A logged operation is replayed as it was meant exactly when it is writable. */
  lemma ReplayedIffWritable(op: Op, offset: uint64)
    ensures Decode(ToRecord(op, offset)) == Some(op) <==> Writable(op)
  {
    hide Decode, ToRecord;
    DecodedIsWritable(ToRecord(op, offset));
    if Writable(op) {
      DecodeEncoded(op, offset);
    }
  }

  /** The effect of a mutation on the flat map at time `t`. */
  function Apply(m: Flat, op: Op, t: int): Flat {
    match op
    case PutOp(key, text, expiry) => Put(m, key, Str(text), expiry, t)
    case DelOp(keys) => Remove(m, keys)
    case ExpireOp(name, at) => SetDeadline(m, name, Some(at), t)
  }

  lemma ApplyLive(m: Flat, op: Op, t: int)
    ensures Live(Apply(m, op, t), t) == Apply(Live(m, t), op, t)
  {
    hide Put, Remove, SetDeadline;
    match op {
      case PutOp(key, text, expiry) => PutLive(m, key, Str(text), expiry, t);
      case DelOp(keys) => RemoveLive(m, keys, t);
      case ExpireOp(name, at) => SetDeadlineLive(m, name, Some(at), t);
    }
  }

  /** The encoder loop for the keys of a DEL. */
  method EncodeDelPayload(keys: seq<Key>) returns (payload: Bytes)
    ensures payload == Payload(DelOp(keys))
  {
    payload := Snapshot.AppendBlobs(U32(|keys| % TWO32), keys);
  }
}
