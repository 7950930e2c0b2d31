/**
 `recover_into` of src/persistence/engine.cpp on the two files a crash left: load the snapshot if it
 is valid, scan the log, and replay the records above the snapshot's offset with the restart clock.
 */
module Recovery {
  import opened Common
  import opened Values
  import opened FlatMap
  import opened Wal
  import opened Mutation
  import opened Replay
  import opened LogImage
  import opened Disk
  import Snapshot

  /** A missing or defective snapshot counts as an empty one at offset zero. */
  function Load(snap: Option<Bytes>): Snapshot.Loaded {
    match snap
    case None => Snapshot.Loaded(0, [])
    case Some(file) =>
      match Snapshot.ReadFile(file)
      case None => Snapshot.Loaded(0, [])
      case Some(loaded) => loaded
  }

  /** Installing snapshot entries one by one at the restart time. */
  function Import(entries: seq<Snapshot.Entry>, restart: int): Flat {
    if entries == [] then map[]
    else
      var e := entries[|entries| - 1];
      Put(Import(entries[..|entries| - 1], restart), e.key, e.value, e.expiry, restart)
  }

  /** The operations to replay; `None` where the source throws on an undecodable record. */
  function Selected(records: seq<Record>, offset: uint64): Option<seq<Op>> {
    if records == [] then Some([]) else
    match Selected(records[1..], offset)
    case None => None
    case Some(ops) =>
      if records[0].offset <= offset then Some(ops) else
      match Decode(records[0])
      case None => None
      case Some(op) => Some([op] + ops)
  }

  datatype Outcome =
    | Recovered(store: Flat, base: Flat, replayed: seq<Op>, file: File, last: uint64)
    | Unrecoverable

  /** Recovery of the bytes that a crash left on disk. */
  function Recover(image: Bytes, snap: Option<Bytes>, restart: int): Outcome {
    AfterScan(Open(image), snap, restart)
  }

  function AfterScan(scan: Opened, snap: Option<Bytes>, restart: int): Outcome {
    var Loaded(offset, entries) := Load(snap);
    match scan
    case Failed(_) => Unrecoverable
    case Opened(records, file, last) =>
      match Selected(records, offset)
      case None => Unrecoverable
      case Some(ops) =>
        var base := Import(entries, restart);
        Recovered(ReplayAt(base, ops, restart), base, ops, file, last)
  }

  // ----- Snapshot entries as a map -----

  function AsMap(entries: seq<Snapshot.Entry>): Flat {
    if entries == [] then map[]
    else
      var e := entries[|entries| - 1];
      AsMap(entries[..|entries| - 1])[e.key := FlatEntry(e.value, e.expiry)]
  }

  predicate DistinctKeys(entries: seq<Snapshot.Entry>) {
    forall i, j :: 0 <= i < j < |entries| ==> entries[i].key != entries[j].key
  }

  lemma {:induction false} AsMapKeys(entries: seq<Snapshot.Entry>)
    ensures forall k :: k in AsMap(entries) <==> exists i :: 0 <= i < |entries| && entries[i].key == k
    decreases |entries|
  {
    if entries != [] {
      var n := |entries| - 1;
      AsMapKeys(entries[..n]);
      forall k
        ensures k in AsMap(entries) <==> exists i :: 0 <= i < |entries| && entries[i].key == k
      {
        if k in AsMap(entries[..n]) {
          var i :| 0 <= i < n && entries[..n][i].key == k;
          assert entries[i].key == k;
        }
        if i :| 0 <= i < |entries| && entries[i].key == k {
          assert i < n ==> entries[..n][i].key == k;
        }
      }
    }
  }

  /** Installing entries at the restart time keeps exactly those not yet due. */
  lemma {:induction false} ImportIsLive(entries: seq<Snapshot.Entry>, restart: int)
    requires DistinctKeys(entries)
    ensures Import(entries, restart) == Live(AsMap(entries), restart)
    decreases |entries|
  {
    if entries != [] {
      var n := |entries| - 1;
      ImportIsLive(entries[..n], restart);
      AsMapKeys(entries[..n]);
      assert entries[n].key !in AsMap(entries[..n]);
    }
  }

  // ----- Selection -----

  /** Of a stretch of the history, replay takes the operations above the snapshot's offset. */
  lemma {:induction false} SelectedStretch(log: seq<Op>, start: nat, stop: nat, offset: uint64)
    requires Logged(log) && start <= stop <= |log|
    ensures Selected(Records(log, start, stop), offset) ==
            Some(log[Min(Max(start, offset), stop)..stop])
    decreases stop - start
  {
    hide Decode, Loggable, ToRecord;
    var rs := Records(log, start, stop);
    if start == stop {
      assert rs == [] && log[stop..stop] == [];
    } else {
      FirstRecord(log, start, stop);
      assert rs[0] == RecordAt(log, start) && rs[1..] == Records(log, start + 1, stop);
      SelectedStretch(log, start + 1, stop, offset);
      DecodeAt(log, start);
      if start >= offset {
        assert Selected(rs[1..], offset) == Some(log[start + 1..stop]);
        assert [log[start]] + log[start + 1..stop] == log[start..stop];
      } else {
        assert Selected(rs, offset) == Selected(rs[1..], offset);
      }
    }
  }

  lemma DecodeAt(log: seq<Op>, i: nat)
    requires Logged(log) && i < |log|
    ensures Decode(RecordAt(log, i)) == Some(log[i]) && RecordAt(log, i).offset == i + 1
  {
    assert log[i] in log;
    DecodeEncoded(log[i], i + 1);
  }

  lemma {:induction false} SelectedIff(records: seq<Record>, offset: uint64)
    ensures Selected(records, offset).Some? <==> forall r :: r in records && r.offset > offset ==> Decode(r).Some?
    decreases |records|
  {
    hide Decode;
    if records != [] {
      SelectedIff(records[1..], offset);
      assert records == [records[0]] + records[1..];
      assert records[0] in records;
    }
  }

  /** A start fails exactly on another log version or on an undecodable record above the snapshot's offset. */
  lemma RecoversIff(image: Bytes, snap: Option<Bytes>, restart: int)
    ensures Recover(image, snap, restart).Recovered? <==>
            && Open(image).Opened?
            && forall r :: r in Open(image).records && r.offset > Load(snap).offset ==> Decode(r).Some?
  {
    hide Decode, Open, Load, Selected;
    if Open(image).Opened? {
      SelectedIff(Open(image).records, Load(snap).offset);
    }
  }

  // ----- Retiming -----

  function At(ops: seq<Op>, t: int): (r: seq<Timed>)
    ensures |r| == |ops| && NotAfter(r, t) && Ops(r) == ops
  {
    seq(|ops|, i requires 0 <= i < |ops| => Timed(ops[i], t))
  }

  /** A recovered store is a store that ran every replayed operation at the restart time. */
  lemma {:induction false} ReplayIsRun(m: Flat, ops: seq<Op>, t: int)
    ensures Run(m, At(ops, t)) == ReplayAt(m, ops, t)
    decreases |ops|
  {
    if ops != [] {
      ReplayIsRun(m, ops[..|ops| - 1], t);
      assert At(ops, t)[..|ops| - 1] == At(ops[..|ops| - 1], t);
    }
  }

  // ----- Everything in a recoverable store can be written to a snapshot -----

  predicate Storable(k: Key, e: FlatEntry) {
    Snapshot.Fits(Snapshot.Entry(k, e.value, e.deadline))
  }

  ghost predicate AllStorable(m: Flat) {
    forall k :: k in m ==> Storable(k, m[k])
  }

  lemma ApplyStorable(m: Flat, op: Op, t: int)
    requires AllStorable(m) && Writable(op)
    ensures AllStorable(Apply(m, op, t))
  {
    match op {
      case PutOp(_, _, _) =>
      case DelOp(_) =>
      case ExpireOp(_, _) =>
    }
  }

  lemma {:induction false} ReplayStorable(m: Flat, ops: seq<Op>, t: int)
    requires AllStorable(m) && forall op :: op in ops ==> Writable(op)
    ensures AllStorable(ReplayAt(m, ops, t))
    decreases |ops|
  {
    if ops != [] {
      hide AllStorable, Writable;
      ReplayStorable(m, ops[..|ops| - 1], t);
      ApplyStorable(ReplayAt(m, ops[..|ops| - 1], t), ops[|ops| - 1], t);
    }
  }

  lemma {:induction false} AsMapStorable(entries: seq<Snapshot.Entry>)
    requires forall e :: e in entries ==> Snapshot.Fits(e)
    ensures AllStorable(AsMap(entries))
    decreases |entries|
  {
    if entries != [] {
      hide Snapshot.Fits;
      AsMapStorable(entries[..|entries| - 1]);
      assert entries[|entries| - 1] in entries;
    }
  }
}
