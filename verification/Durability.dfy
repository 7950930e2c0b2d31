/**
 The persistence engine as a step machine (src/persistence/engine.cpp with wal.cpp and
 snapshot.cpp).  The engine lock makes the steps of one writer or of one snapshot sequential; the
 background fsync, the passing of time and the removal of dead entries may come between any two of
 them, and a crash with a restart may come at any point.
 */
module Durability {
  import opened Common
  import opened FlatMap
  import opened Disk
  import opened Wal
  import opened Mutation
  import opened Replay
  import opened LogImage
  import opened Recovery
  import Snapshot

  datatype FsyncMode = Always | EverySec | Never

  /** Where the holder of the engine lock stands. */
  datatype Phase =
    | Idle
    | Appended(op: Op)
    | Settled(op: Op)
    | Exported(file: Bytes, entries: seq<Snapshot.Entry>)
    | Renamed
    | Cleared
    | Headed

  datatype State = State(
    mode: FsyncMode, phase: Phase, now: int,
    wal: File, snap: Option<Bytes>, lastOffset: nat, store: Flat,
    // history: every operation in lock order, how many are acknowledged, which of them the log file
    // begins with, how many no crash can lose, and what the store has run since it was last loaded
    log: seq<Op>, done: nat, start: nat, firm: nat, base: Flat, since: seq<Timed>)

  function Offset(s: State): uint64 {
    Load(s.snap).offset
  }

  /** A first start in an empty directory. */
  function Fresh(mode: FsyncMode, now: int): State {
    State(mode, Idle, now, Recreated(OnDisk([])), None, 0, map[], [], 0, 0, 0, map[], [])
  }

  // ----- Steps -----

  datatype Step =
    | Tick(time: int)
    | Purge(kept: Flat)
    | Append(op: Op)
    | Settle
    | Commit
    | SyncLog
    | Export(file: Bytes, entries: seq<Snapshot.Entry>)
    | Rename
    | ClearLog
    | WriteHeader
    | SyncHeader
    | Restart(image: Bytes, at: int)

  predicate Rotating(p: Phase) {
    p.Renamed? || p.Cleared? || p.Headed?
  }

  predicate Writing(p: Phase) {
    p.Appended? || p.Settled?
  }

  ghost predicate Enabled(s: State, step: Step) {
    match step
    case Tick(time) => s.now <= time
    case Purge(kept) => Within(kept, s.store) && Live(kept, s.now) == Live(s.store, s.now)
    case Append(op) => s.phase.Idle? && Loggable(op) && s.lastOffset + 1 < TWO64 && |s.log| + 1 < TWO64
    case Settle => s.phase.Appended?
    case Commit => s.phase.Settled?
    case SyncLog => !s.phase.Cleared? && !s.phase.Headed?
    case Export(file, entries) =>
      && s.phase.Idle? && s.lastOffset < TWO64 && |entries| < TWO64
      && (s.mode != Never ==> s.wal == s.wal.Fsync())
      && DistinctKeys(entries) && AsMap(entries) == Live(s.store, s.now)
      && Snapshot.IsSnapshot(file, s.lastOffset, entries)
    case Rename => s.phase.Exported?
    case ClearLog => s.phase.Renamed?
    case WriteHeader => s.phase.Cleared?
    case SyncHeader => s.phase.Headed?
    case Restart(image, at) => s.wal.Survives(image) && s.now <= at && Recover(image, s.snap, at).Recovered?
  }

  function Synced(s: State): State {
    s.(wal := s.wal.Fsync(), firm := |s.log|)
  }

  /** The record goes to the file before anything else happens. */
  function Logging(s: State, op: Op): State
    requires s.lastOffset + 1 < TWO64
  {
    s.(phase := Appended(op), wal := s.wal.Write(Encode(ToRecord(op, s.lastOffset + 1))),
       lastOffset := s.lastOffset + 1, log := s.log + [op])
  }

  /** The durability action of the fsync mode. */
  function Settling(s: State): State
    requires s.phase.Appended?
  {
    (if s.mode == Always then Synced(s) else s).(phase := Settled(s.phase.op))
  }

  /** The store is changed and the operation acknowledged. */
  function Committing(s: State): State
    requires s.phase.Settled?
  {
    s.(phase := Idle, store := Apply(s.store, s.phase.op, s.now),
       since := s.since + [Timed(s.phase.op, s.now)], done := s.done + 1)
  }

  /** The live entries are listed and the temporary snapshot file is complete. */
  function Exporting(s: State, file: Bytes, entries: seq<Snapshot.Entry>): State {
    s.(phase := Exported(file, entries), store := Live(s.store, s.now))
  }

  /** The temporary file replaces the snapshot in one step. */
  function Renaming(s: State): State
    requires s.phase.Exported?
  {
    s.(phase := Renamed, snap := Some(s.phase.file), firm := |s.log|,
       base := AsMap(s.phase.entries), since := [])
  }

  /** The rotation of the log: truncated, a new header, synced. */
  function Clearing(s: State): State {
    s.(phase := Cleared, wal := s.wal.Clear())
  }

  function Heading(s: State): State {
    s.(phase := Headed, wal := s.wal.Write(HEADER))
  }

  function Finishing(s: State): State {
    s.(phase := Idle, wal := s.wal.Fsync(), start := |s.log|)
  }

  function Do(s: State, step: Step): State
    requires Enabled(s, step)
  {
    match step
    case Tick(time) => s.(now := time)
    case Purge(kept) => s.(store := kept)
    case Append(op) => Logging(s, op)
    case Settle => Settling(s)
    case Commit => Committing(s)
    case SyncLog => Synced(s)
    case Export(file, entries) => Exporting(s, file, entries)
    case Rename => Renaming(s)
    case ClearLog => Clearing(s)
    case WriteHeader => Heading(s)
    case SyncHeader => Finishing(s)
    case Restart(image, at) => Restarted(s, image, at)
  }

  /** The process comes back with what the two files hold. */
  function Restarted(s: State, image: Bytes, at: int): State
    requires Recover(image, s.snap, at).Recovered?
  {
    var out := Recover(image, s.snap, at);
    var n := Min(Offset(s), |s.log|);
    var log := s.log[..n] + out.replayed;
    s.(phase := Idle, now := at, wal := out.file, lastOffset := out.last, store := out.store,
       log := log, done := |log|, start := FirstLogged(image), firm := |log|,
       base := out.base, since := At(out.replayed, at))
  }

  /** The number of operations before the first one in a log file. */
  function FirstLogged(image: Bytes): nat {
    match Open(image)
    case Failed(_) => 0
    case Opened(records, _, _) => if records == [] || records[0].offset == 0 then 0 else records[0].offset - 1
  }

  // ----- The invariant -----

  /** Offsets number the history: the writer resumes at or above every offset in use. */
  ghost predicate HistoryOk(s: State) {
    && Logged(s.log) && s.lastOffset == |s.log|
    && s.done == |s.log| - (if Writing(s.phase) then 1 else 0)
    && (Writing(s.phase) ==> s.log != [] && s.phase.op == s.log[|s.log| - 1])
    && Offset(s) <= s.done
    && Ops(s.since) == s.log[Offset(s)..s.done] && NotAfter(s.since, s.now)
  }

  /** The snapshot file shows what the running store was loaded from. */
  ghost predicate SnapshotOk(s: State) {
    && DistinctKeys(Load(s.snap).entries)
    && Live(AsMap(Load(s.snap).entries), s.now) == Live(s.base, s.now)
  }

  ghost predicate StoreOk(s: State) {
    AllStorable(s.store) && Live(s.store, s.now) == Live(Run(s.base, s.since), s.now)
  }

  ghost predicate ExportOk(s: State) {
    s.phase.Exported? ==>
      var entries := s.phase.entries;
      && s.lastOffset < TWO64 && |entries| < TWO64
      && Snapshot.IsSnapshot(s.phase.file, s.lastOffset, entries)
      && DistinctKeys(entries) && (forall e :: e in entries ==> Snapshot.Fits(e))
      && Live(AsMap(entries), s.now) == Live(s.store, s.now)
  }

  /** A log image left behind by a rotation or a restart: all it holds is in the snapshot. */
  ghost predicate Stale(o: Image, log: seq<Op>, offset: nat) {
    && o.Valid() && |log| < TWO64
    && ((|o.bytes| < 16 && o.bytes <= HEADER)
        || exists a: nat, b: nat :: a <= b <= |log| && b <= offset && o.bytes == HEADER + LogBytes(log, a, b))
  }

  ghost predicate WalOk(s: State) {
    && |s.log| < TWO64 && s.start <= |s.log| && s.wal.current.Valid()
    && (match s.phase
        case Cleared => s.wal.current.bytes == []
        case Headed => s.wal.current.bytes == HEADER
        case _ =>
          s.start <= Offset(s) && s.wal.current.bytes == HEADER + LogBytes(s.log, s.start, |s.log|))
    && (forall o :: o in s.wal.older ==> Stale(o, s.log, Offset(s)))
  }

  /** No crash loses the first `firm` operations, and under `Always` those are all acknowledged ones. */
  ghost predicate FirmOk(s: State) {
    && s.firm <= |s.log| < TWO64
    && (Rotating(s.phase) ==> Offset(s) == |s.log|)
    && (s.mode == Always ==> s.done <= s.firm && (s.phase.Settled? ==> s.firm == |s.log|))
    && (s.firm > Offset(s) ==>
          && s.wal.older == [] && s.start <= s.firm
          && s.wal.current.synced >= 16 + |LogBytes(s.log, s.start, s.firm)|)
  }

  ghost predicate Inv(s: State) {
    HistoryOk(s) && SnapshotOk(s) && StoreOk(s) && ExportOk(s) && WalOk(s) && FirmOk(s)
  }

  /**
   A snapshot of the whole store has just been completed: the log is a durable bare header and the history
   is as long as the offsets say.
   */
  ghost predicate JustSnapshotted(s: State) {
    && s.phase.Idle? && s.wal == OnDisk(HEADER) && s.since == [] && s.base == s.store && AllStorable(s.store)
    && Logged(s.log) && s.lastOffset == s.done == s.start == s.firm == |s.log|
    && s.snap.Some?
    && exists entries: seq<Snapshot.Entry> ::
         && |entries| < TWO64 && DistinctKeys(entries) && AsMap(entries) == s.store
         && Snapshot.IsSnapshot(s.snap.value, s.lastOffset, entries)
  }

  /** Where a run begins: in an empty directory, or right after a snapshot. */
  ghost predicate Begins(s: State) {
    s == Fresh(s.mode, s.now) || JustSnapshotted(s)
  }

  // ----- What a crash can leave of the log -----

  datatype Remnant = Bare | Frames(first: nat, next: nat, torn: nat, more: bool)

  ghost predicate Describes(r: Remnant, log: seq<Op>, image: Bytes) {
    match r
    case Bare => |image| < 16 && image <= HEADER
    case Frames(a, i, torn, more) =>
      && a <= i <= |log| < TWO64
      && (more ==> i < |log| && torn < |Encode(RecordAt(log, i))|)
      && image == HEADER + LogBytes(log, a, i) + if more then Encode(RecordAt(log, i))[..torn] else []
  }

  /** A cut of a log file is a bare header or a stretch of whole frames with a torn tail. */
  lemma CutImage(log: seq<Op>, start: nat, stop: nat, image: Bytes, j: nat) returns (r: Remnant)
    requires start <= j <= stop <= |log| < TWO64
    requires image <= HEADER + LogBytes(log, start, stop)
    ensures Describes(r, log, image)
    ensures r.Bare? ==> |image| < 16
    ensures r.Frames? ==> r.first == start && r.next <= stop
    ensures |image| >= 16 + |LogBytes(log, start, j)| ==> r.Frames? && j <= r.next
  {
    hide Encode, LogBytes, RecordAt;
    var whole := HEADER + LogBytes(log, start, stop);
    if |image| < 16 {
      r := Bare;
      assert image == whole[..|image|] == HEADER[..|image|];
    } else {
      var k := |image| - 16;
      var j' := if k >= |LogBytes(log, start, j)| then j else start;
      NoFrames(log, start);
      var i, torn := CutLog(log, start, stop, k, j');
      r := Frames(start, i, torn, i < stop);
      var tail := if i < stop then Encode(RecordAt(log, i))[..torn] else [];
      assert image == HEADER + LogBytes(log, start, stop)[..k];
      assert HEADER + (LogBytes(log, start, i) + tail) == HEADER + LogBytes(log, start, i) + tail;
    }
  }

  lemma PrefixOf(image: Bytes, whole: Bytes)
    requires |image| <= |whole| && image == whole[..|image|]
    ensures image <= whole
  {
  }

  lemma CrashLeaves(s: State, image: Bytes) returns (r: Remnant)
    requires WalOk(s) && FirmOk(s) && s.wal.Survives(image)
    ensures Describes(r, s.log, image)
    ensures r.Bare? ==> s.firm <= Offset(s)
    ensures r.Frames? ==> r.first <= Offset(s) && (s.firm <= Offset(s) || s.firm <= r.next)
  {
    hide Load, LogBytes, Encode;
    if s.wal.current.Survives(image) {
      PrefixOf(image, s.wal.current.bytes);
      if s.phase.Cleared? {
        r := Bare;
      } else if s.phase.Headed? {
        NoFrames(s.log, |s.log|);
        assert HEADER + [] == HEADER;
        r := CutImage(s.log, |s.log|, |s.log|, image, |s.log|);
      } else {
        var j := if s.firm > Offset(s) then s.firm else s.start;
        r := CutImage(s.log, s.start, |s.log|, image, j);
      }
    } else {
      var o :| o in s.wal.older && o.Survives(image);
      assert Stale(o, s.log, Offset(s));
      PrefixOf(image, o.bytes);
      if |o.bytes| < 16 && o.bytes <= HEADER {
        r := Bare;
      } else {
        var a: nat, b: nat :| a <= b <= |s.log| && b <= Offset(s) && o.bytes == HEADER + LogBytes(s.log, a, b);
        r := CutImage(s.log, a, b, image, a);
      }
    }
  }
}
