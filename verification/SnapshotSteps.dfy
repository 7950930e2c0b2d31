/**
 A snapshot (src/persistence/engine.cpp:137-150) as steps of the durability machine, and what it repairs.
 */
module SnapshotSteps {
  import opened Common
  import opened FlatMap
  import opened Disk
  import opened Wal
  import opened Mutation
  import opened LogImage
  import opened Recovery
  import opened Durability
  import CrashSafety
  import Snapshot

  /** The sync before a snapshot, unless the mode is never to sync. */
  ghost function Prepared(s: State): State
    requires s.phase.Idle?
  {
    if s.mode == Never then s else Do(s, SyncLog)
  }

  /** A snapshot: export, rename, and the three steps of the rotation. */
  ghost function Snapshotted(s: State, file: Bytes, entries: seq<Snapshot.Entry>): State
    requires s.phase.Idle? && Enabled(Prepared(s), Export(file, entries))
  {
    Do(Do(Do(Do(Do(Prepared(s), Export(file, entries)), Rename), ClearLog), WriteHeader), SyncHeader)
  }

  lemma ExportEnabled(s: State, file: Bytes, entries: seq<Snapshot.Entry>)
    requires s.phase.Idle? && s.lastOffset < TWO64 && |entries| < TWO64
    requires DistinctKeys(entries) && AsMap(entries) == Live(s.store, s.now)
    requires Snapshot.IsSnapshot(file, s.lastOffset, entries)
    ensures Enabled(Prepared(s), Export(file, entries))
  {
    hide Live, AsMap, DistinctKeys, Snapshot.IsSnapshot, Recover, Loggable, Prepared;
    PreparedIs(s);
  }

  lemma PreparedIs(s: State)
    requires s.phase.Idle?
    ensures Prepared(s) == if s.mode == Never then s else Synced(s)
  {
    hide Recover, Loggable, Live, AsMap, DistinctKeys, Snapshot.IsSnapshot;
  }

  lemma SnapshottedIs(s: State, file: Bytes, entries: seq<Snapshot.Entry>)
    requires s.phase.Idle? && Enabled(Prepared(s), Export(file, entries))
    ensures Snapshotted(s, file, entries) ==
            Finishing(Heading(Clearing(Renaming(Exporting(Prepared(s), file, entries)))))
  {
    hide Live, AsMap, DistinctKeys, Snapshot.IsSnapshot, Recover, Prepared;
  }

  lemma SnapshotIsSteps(s: State, file: Bytes, entries: seq<Snapshot.Entry>)
    requires s.phase.Idle? && s.lastOffset < TWO64 && |entries| < TWO64
    requires DistinctKeys(entries) && AsMap(entries) == Live(s.store, s.now)
    requires Snapshot.IsSnapshot(file, s.lastOffset, entries)
    ensures Enabled(Prepared(s), Export(file, entries))
    ensures var after := Snapshotted(s, file, entries);
            && after.phase.Idle? && after.mode == s.mode && after.now == s.now && after.snap == Some(file)
            && after.store == Live(s.store, s.now)
            && after.wal == OnDisk(HEADER) && after.lastOffset == s.lastOffset
  {
    hide Live, AsMap, DistinctKeys, Snapshot.IsSnapshot, Enabled, Snapshotted;
    ExportEnabled(s, file, entries);
    SnapshottedIs(s, file, entries);
    assert [] + HEADER == HEADER;
  }

  /** The steps keep the durability invariant. */
  lemma SnapshottedKeeps(s: State, file: Bytes, entries: seq<Snapshot.Entry>)
    requires Inv(s) && s.phase.Idle? && Enabled(Prepared(s), Export(file, entries))
    ensures Inv(Snapshotted(s, file, entries))
  {
    hide Inv, Recover, Live, AsMap, DistinctKeys, Snapshot.IsSnapshot;
    if s.mode != Never {
      CrashSafety.StepKeeps(s, SyncLog);
    }
    var p := Prepared(s);
    CrashSafety.StepKeeps(p, Export(file, entries));
    var exported := Do(p, Export(file, entries));
    CrashSafety.StepKeeps(exported, Rename);
    var renamed := Do(exported, Rename);
    CrashSafety.StepKeeps(renamed, ClearLog);
    var cleared := Do(renamed, ClearLog);
    CrashSafety.StepKeeps(cleared, WriteHeader);
    CrashSafety.StepKeeps(Do(cleared, WriteHeader), SyncHeader);
  }

  // ----- A snapshot puts any state in order -----

  /** The same files, offset and store, with another history of operations behind them. */
  function Recounted(s: State, log: seq<Op>): State {
    s.(log := log, done := |log|, start := |log|, firm := |log|)
  }

  /** A history of any length will do; nothing of it is in the log. */
  function Filler(n: nat): (log: seq<Op>)
    ensures |log| == n
  {
    seq(n, _ => DelOp([]))
  }

  lemma FillerLogged(n: nat)
    requires n < TWO64
    ensures Logged(Filler(n))
  {
    assert forall op :: op in Filler(n) ==> op == DelOp([]);
    assert Loggable(DelOp([]));
  }

  /**
   From every idle state with storable contents, however its numbering came about, a completed snapshot
   leads to a state in which runs begin: only the count of past operations is set to the offset.
   */
  lemma SnapshotRepairs(s: State, file: Bytes, entries: seq<Snapshot.Entry>)
    requires s.phase.Idle? && AllStorable(s.store) && Enabled(Prepared(s), Export(file, entries))
    ensures var after := Snapshotted(s, file, entries);
            && after.store == Live(s.store, s.now)
            && JustSnapshotted(Recounted(after, Filler(s.lastOffset)))
            && Inv(Recounted(after, Filler(s.lastOffset)))
  {
    hide Live, AsMap, DistinctKeys, Snapshot.IsSnapshot, Storable, Filler, Snapshotted, Inv;
    ExportFacts(s, file, entries);
    SnapshottedIs(s, file, entries);
    FillerLogged(s.lastOffset);
    assert [] + HEADER == HEADER;
    assert AllStorable(Live(s.store, s.now)) by { LiveStorable(s.store, s.now); }
    CrashSafety.BeginsInv(Recounted(Snapshotted(s, file, entries), Filler(s.lastOffset)));
  }

  lemma ExportFacts(s: State, file: Bytes, entries: seq<Snapshot.Entry>)
    requires s.phase.Idle? && Enabled(Prepared(s), Export(file, entries))
    ensures s.lastOffset < TWO64 && |entries| < TWO64 && DistinctKeys(entries)
    ensures AsMap(entries) == Live(s.store, s.now) && Snapshot.IsSnapshot(file, s.lastOffset, entries)
  {
    hide Live, AsMap, DistinctKeys, Snapshot.IsSnapshot;
  }

  lemma LiveStorable(m: Flat, t: int)
    requires AllStorable(m)
    ensures AllStorable(Live(m, t))
  {
    hide Storable;
  }
}
