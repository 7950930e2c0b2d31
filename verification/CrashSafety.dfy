/** What the persistence engine keeps through every run, crash and restart. */
module CrashSafety {
  import opened Common
  import opened FlatMap
  import opened Disk
  import opened Wal
  import opened Mutation
  import opened Replay
  import opened LogImage
  import opened Recovery
  import opened Durability
  import Snapshot

  // ----- Every step other than a restart keeps the invariant -----

  lemma FreshInv(mode: FsyncMode, now: int)
    ensures Inv(Fresh(mode, now))
  {
    NoFrames([], 0);
    assert [] + HEADER == HEADER + [];
  }

  lemma TickKeeps(s: State, time: int)
    requires Inv(s) && Enabled(s, Tick(time))
    ensures Inv(Do(s, Tick(time)))
  {
    hide Load, Live, Run, AsMap, LogBytes, Logged, Snapshot.IsSnapshot, AllStorable, Stale;
    SameLiveLater(AsMap(Load(s.snap).entries), s.base, s.now, time);
    SameLiveLater(s.store, Run(s.base, s.since), s.now, time);
    if s.phase.Exported? {
      SameLiveLater(AsMap(s.phase.entries), s.store, s.now, time);
    }
  }

  lemma PurgeKeeps(s: State, kept: Flat)
    requires Inv(s) && Enabled(s, Purge(kept))
    ensures Inv(Do(s, Purge(kept)))
  {
    hide Load, Live, Run, AsMap, LogBytes, Logged, Snapshot.IsSnapshot, Stale;
  }

  /** Adding to the history leaves every earlier stretch as it was. */
  lemma StretchKept(log: seq<Op>, op: Op, start: nat, stop: nat)
    requires start <= stop <= |log| && |log| + 1 < TWO64
    ensures LogBytes(log + [op], start, stop) == LogBytes(log, start, stop)
  {
    hide EncodeAll, RecordAt;
    assert (log + [op])[..stop] == log[..stop];
    SameStretch(log, log + [op], start, stop);
  }

  lemma StaleKept(o: Image, log: seq<Op>, op: Op, offset: nat)
    requires Stale(o, log, offset) && |log| + 1 < TWO64
    ensures Stale(o, log + [op], offset)
  {
    hide LogBytes;
    if !(|o.bytes| < 16 && o.bytes <= HEADER) {
      var a: nat, b: nat :| a <= b <= |log| && b <= offset && o.bytes == HEADER + LogBytes(log, a, b);
      StretchKept(log, op, a, b);
      assert b <= |log + [op]| && o.bytes == HEADER + LogBytes(log + [op], a, b);
    }
  }

  lemma AppendKeeps(s: State, op: Op)
    requires Inv(s) && Enabled(s, Append(op))
    ensures Inv(Do(s, Append(op)))
  {
    hide Load, Live, Run, AsMap, LogBytes, Loggable, AllStorable, Stale, Encode, ToRecord, DistinctKeys;
    var s' := Do(s, Append(op));
    AppendedBytes(s.log, s.start, op);
    assert HEADER + (LogBytes(s.log, s.start, |s.log|) + Encode(ToRecord(op, |s.log| + 1)))
        == HEADER + LogBytes(s.log, s.start, |s.log|) + Encode(ToRecord(op, |s.log| + 1));
    forall o | o in s.wal.older
      ensures Stale(o, s'.log, Offset(s))
    {
      StaleKept(o, s.log, op, Offset(s));
    }
    if s.firm > Offset(s) {
      StretchKept(s.log, op, s.start, s.firm);
    }
    assert s'.log[Offset(s)..s.done] == s.log[Offset(s)..s.done];
  }

  lemma SyncedKeeps(s: State)
    requires Inv(s) && !s.phase.Cleared? && !s.phase.Headed?
    ensures Inv(Synced(s))
  {
    hide Load, Live, Run, AsMap, LogBytes, Logged, AllStorable, Stale, Snapshot.IsSnapshot, DistinctKeys;
  }

  lemma SettleKeeps(s: State)
    requires Inv(s) && Enabled(s, Settle)
    ensures Inv(Do(s, Settle))
  {
    hide Load, Live, Run, AsMap, LogBytes, Logged, AllStorable, Stale, Snapshot.IsSnapshot, DistinctKeys;
    if s.mode == Always {
      SyncedKeeps(s);
    }
  }

  lemma OpsMore(since: seq<Timed>, last: Timed, t: int)
    requires NotAfter(since, t) && last.at <= t
    ensures Ops(since + [last]) == Ops(since) + [last.op] && NotAfter(since + [last], t)
  {
  }

  lemma CommitHistory(s: State)
    requires HistoryOk(s) && s.phase.Settled?
    ensures HistoryOk(Committing(s))
  {
    hide Load, Logged, Apply, Ops, NotAfter;
    OpsMore(s.since, Timed(s.phase.op, s.now), s.now);
    assert s.log[Offset(s)..s.done] + [s.log[s.done]] == s.log[Offset(s)..s.done + 1];
  }

  lemma CommitStore(s: State)
    requires StoreOk(s) && s.phase.Settled? && Writable(s.phase.op)
    ensures StoreOk(Committing(s))
  {
    hide Load, Live, AllStorable, Apply, Writable;
    var op := s.phase.op;
    var ran := Run(s.base, s.since);
    ApplyStorable(s.store, op, s.now);
    ApplyLive(s.store, op, s.now);
    ApplyLive(ran, op, s.now);
    var since' := s.since + [Timed(op, s.now)];
    assert since'[..|s.since|] == s.since;
    assert Run(s.base, since') == Apply(ran, op, s.now);
  }

  lemma CommitKeeps(s: State)
    requires Inv(s) && Enabled(s, Commit)
    ensures Inv(Do(s, Commit))
  {
    hide Load, Live, AsMap, LogBytes, Loggable, Stale, Snapshot.IsSnapshot, DistinctKeys, AllStorable, Apply, Writable,
      HistoryOk, StoreOk, Run, Ops;
    PhaseLogged(s);
    LoggableIsWritable(s.phase.op);
    CommitHistory(s);
    CommitStore(s);
    CommittedCount(s);
  }

  lemma PhaseLogged(s: State)
    requires HistoryOk(s) && s.phase.Settled?
    ensures s.phase.op in s.log && Logged(s.log)
  {
  }

  lemma CommittedCount(s: State)
    requires HistoryOk(s) && s.phase.Settled?
    ensures s.done == |s.log| - 1
  {
  }

  lemma LoggableIsWritable(op: Op)
    requires Loggable(op)
    ensures Writable(op)
  {
  }

  /** Whatever the store can hold, the snapshot format can hold. */
  lemma {:induction false} EntriesFit(entries: seq<Snapshot.Entry>)
    requires DistinctKeys(entries) && AllStorable(AsMap(entries))
    ensures forall e :: e in entries ==> Snapshot.Fits(e)
    decreases |entries|
  {
    hide Snapshot.Fits;
    if entries != [] {
      var n := |entries| - 1;
      var last := entries[n];
      AsMapKeys(entries[..n]);
      assert last.key !in AsMap(entries[..n]);
      assert Storable(last.key, AsMap(entries)[last.key]);
      forall k | k in AsMap(entries[..n])
        ensures Storable(k, AsMap(entries[..n])[k])
      {
        assert Storable(k, AsMap(entries)[k]);
      }
      EntriesFit(entries[..n]);
      assert entries == entries[..n] + [last];
    }
  }

  lemma ExportKeeps(s: State, file: Bytes, entries: seq<Snapshot.Entry>)
    requires Inv(s) && Enabled(s, Export(file, entries))
    ensures Inv(Do(s, Export(file, entries)))
  {
    hide Load, Run, AsMap, LogBytes, Logged, Stale, Snapshot.IsSnapshot, DistinctKeys, Storable, Snapshot.Fits;
    LiveLater(s.store, s.now, s.now);
    assert AllStorable(Live(s.store, s.now));
    EntriesFit(entries);
  }

  lemma LoadWritten(file: Bytes, offset: uint64, entries: seq<Snapshot.Entry>)
    requires Snapshot.IsSnapshot(file, offset, entries) && |entries| < TWO64
    requires forall e :: e in entries ==> Snapshot.Fits(e)
    ensures Load(Some(file)) == Snapshot.Loaded(offset, entries)
  {
    hide Snapshot.IsSnapshot, Snapshot.Fits, Snapshot.ReadFile;
    Snapshot.RoundTripIffFits(file, offset, entries);
  }

  lemma RenameKeeps(s: State)
    requires Inv(s) && Enabled(s, Rename)
    ensures Inv(Do(s, Rename))
  {
    hide Load, AsMap, LogBytes, Loggable, Snapshot.IsSnapshot, DistinctKeys, Snapshot.Fits, AllStorable, Live;
    var s' := Do(s, Rename);
    LoadWritten(s.phase.file, s.lastOffset, s.phase.entries);
    assert Ops([]) == s.log[|s.log|..|s.log|];
    forall o | o in s.wal.older
      ensures Stale(o, s.log, Offset(s'))
    {
      assert Stale(o, s.log, Offset(s));
    }
  }

  lemma RotateKeeps(s: State, step: Step)
    requires Inv(s) && Enabled(s, step) && (step.ClearLog? || step.WriteHeader? || step.SyncHeader?)
    ensures Inv(Do(s, step))
  {
    hide Load, Live, Run, AsMap, LogBytes, Logged, AllStorable, DistinctKeys;
    var s' := Do(s, step);
    if step.ClearLog? {
      assert Stale(s.wal.current, s.log, Offset(s)) by {
        assert s.start <= |s.log| && s.wal.current.bytes == HEADER + LogBytes(s.log, s.start, |s.log|);
      }
    } else if step.WriteHeader? {
      assert [] + HEADER == HEADER;
    } else {
      NoFrames(s.log, |s.log|);
      assert HEADER + [] == HEADER;
    }
  }

  // ----- Recovery after a crash at any point -----

  /** The operations that survive: those in the snapshot and those whose frames are whole. */
  function Survived(s: State, r: Remnant): nat {
    if r.Bare? then Offset(s) else Max(Offset(s), r.next)
  }

  /** The operations that the running store has applied since it was loaded, up to number `m`. */
  function Since(s: State, m: nat): seq<Timed>
    requires Offset(s) <= m <= s.done + 1 && |s.since| == s.done - Offset(s) && m <= |s.log|
  {
    if m <= s.done then s.since[..m - Offset(s)] else s.since + [Timed(s.log[s.done], s.now)]
  }

  /** The store after `m` operations, had there been no crash. */
  function Uncrashed(s: State, m: nat): Flat
    requires Offset(s) <= m <= s.done + 1 && |s.since| == s.done - Offset(s) && m <= |s.log|
  {
    Run(s.base, Since(s, m))
  }

  lemma OpenBare(image: Bytes)
    requires |image| < 16
    ensures Open(image) == Opened([], Recreated(OnDisk(image)), 0)
  {
  }

  lemma RemnantRecovers(s: State, image: Bytes, r: Remnant)
    requires Logged(s.log) && Describes(r, s.log, image) && Offset(s) <= |s.log|
    requires r.Frames? ==> r.first <= Offset(s)
    ensures Open(image).Opened?
    ensures Selected(Open(image).records, Offset(s)) == Some(s.log[Offset(s)..Survived(s, r)])
    ensures Open(image).last == if r.Frames? && r.first < r.next then r.next else 0
  {
    hide Load, LogBytes, Encode, Open, Records, RecordAt, Loggable;
    var n := Offset(s);
    match r {
      case Bare =>
        OpenBare(image);
        assert s.log[n..n] == [];
      case Frames(a, i, torn, more) =>
        CutLogRecovers(s.log, a, i, torn, more);
        SelectedStretch(s.log, a, i, n);
        if i <= n {
          assert s.log[n..n] == [] && s.log[i..i] == [];
        }
    }
  }

  lemma SinceOps(s: State, m: nat)
    requires HistoryOk(s) && Offset(s) <= m <= |s.log|
    ensures Ops(Since(s, m)) == s.log[Offset(s)..m] && NotAfter(Since(s, m), s.now)
  {
    hide Load, Logged;
    var since := Since(s, m);
    var n := Offset(s);
    forall i | 0 <= i < m - n
      ensures since[i].op == s.log[n + i]
    {
      if n + i < s.done {
        assert Ops(s.since)[i] == s.log[n..s.done][i];
      }
    }
  }

  /** What recovery loads is what the running store was loaded from, seen at the restart. */
  lemma LoadedBase(s: State, at: int)
    requires SnapshotOk(s) && s.now <= at
    ensures Import(Load(s.snap).entries, at) == Live(s.base, at)
  {
    hide Load, Import, AsMap, Live, DistinctKeys;
    ImportIsLive(Load(s.snap).entries, at);
    SameLiveLater(AsMap(Load(s.snap).entries), s.base, s.now, at);
  }

  /**
   Crash durability.  From every state of a run, and for every remnant a crash may leave, recovery
   succeeds and its store has run a prefix of the operations in lock order, each once: the snapshot
   holds the first of them and the log the rest.  No firm operation is missing; under `Always` none
   of the acknowledged ones is, and at most the one in progress is added.
   */
  lemma CrashRecovers(s: State, image: Bytes, at: int) returns (m: nat)
    requires Inv(s) && s.wal.Survives(image) && s.now <= at
    ensures Offset(s) <= m <= |s.log| && s.firm <= m
    ensures s.mode == Always ==> s.done <= m <= s.done + 1
    ensures |s.since| == s.done - Offset(s) && m <= s.done + 1
    ensures Recover(image, s.snap, at).Recovered?
    ensures Recover(image, s.snap, at).replayed == s.log[Offset(s)..m]
    ensures Recover(image, s.snap, at).base == Live(s.base, at)
    ensures Recover(image, s.snap, at).store ==
            ReplayAt(Live(s.base, at), Ops(Since(s, m)), at) && NotAfter(Since(s, m), at)
  {
    hide Load, Describes, Open, Selected, Import, Live, Logged, WalOk, StoreOk, ExportOk, SnapshotOk, LogBytes,
      ReplayAt, Since;
    var r := CrashLeaves(s, image);
    m := Survived(s, r);
    SurvivedBound(s, image, r);
    RemnantRecovers(s, image, r);
    LoadedBase(s, at);
    SinceOps(s, m);
    assert |Ops(s.since)| == |s.since|;
  }

  lemma SurvivedBound(s: State, image: Bytes, r: Remnant)
    requires Describes(r, s.log, image) && Offset(s) <= |s.log|
    ensures Offset(s) <= Survived(s, r) <= |s.log|
  {
  }

  /** The recovered store shows nothing that the uncrashed one does not. */
  lemma CrashNeverInvents(s: State, image: Bytes, at: int, m: nat)
    requires Inv(s) && s.wal.Survives(image) && s.now <= at
    requires Offset(s) <= m <= |s.log| && m <= s.done + 1 && |s.since| == s.done - Offset(s)
    requires Recover(image, s.snap, at).Recovered? && NotAfter(Since(s, m), at)
    requires Recover(image, s.snap, at).store == ReplayAt(Live(s.base, at), Ops(Since(s, m)), at)
    ensures Within(Live(Recover(image, s.snap, at).store, at), Live(Uncrashed(s, m), at))
    ensures Live(Recover(image, s.snap, at).store, at) == Live(Uncrashed(s, m), at) <==>
            NoneSuperseded(s.base, Since(s, m), at)
  {
    hide Inv, Recover, Live, Since, Run, ReplayAt, NoneSuperseded;
    NeverInvents(s.base, Since(s, m), at);
    ReplayExactIff(s.base, Since(s, m), at);
  }

  /** The uncrashed store is the running one, with the operation in progress if it survived. */
  lemma UncrashedIsRunning(s: State, at: int)
    requires Inv(s) && s.now <= at
    ensures |s.since| == s.done - Offset(s)
    ensures Live(Uncrashed(s, s.done), at) == Live(s.store, at)
    ensures s.done < |s.log| ==>
              Live(Uncrashed(s, s.done + 1), at) == Live(Apply(s.store, s.log[s.done], s.now), at)
  {
    hide Load, Live, Logged, WalOk, ExportOk, SnapshotOk, FirmOk, Apply, AllStorable;
    assert |Ops(s.since)| == |s.since|;
    var ran := Run(s.base, s.since);
    assert Since(s, s.done) == s.since;
    SameLiveLater(s.store, ran, s.now, at);
    if s.done < |s.log| {
      var op := s.log[s.done];
      var since := Since(s, s.done + 1);
      assert since[..|s.since|] == s.since;
      ApplyLive(s.store, op, s.now);
      ApplyLive(ran, op, s.now);
      SameLiveLater(Apply(s.store, op, s.now), Apply(ran, op, s.now), s.now, at);
    }
  }

  // ----- A snapshot that cannot be read -----

  lemma {:induction false} SelectedAbove(records: seq<Record>, n: uint64)
    requires forall r :: r in records ==> r.offset > n
    ensures Selected(records, 0) == Selected(records, n)
    decreases |records|
  {
    if records != [] {
      assert records[0] in records;
      assert forall r :: r in records[1..] ==> r in records;
      SelectedAbove(records[1..], n);
    }
  }

  /**
   A missing or corrupt snapshot counts as empty.  If the log holds only records above the lost one, the
   recovery shows only what the uncrashed store shows: the snapshot's keys are lost, none is invented.
   */
  lemma LostSnapshotNeverInvents(s: State, image: Bytes, lost: Option<Bytes>, at: int) returns (m: nat)
    requires Inv(s) && s.wal.Survives(image) && s.now <= at && Load(lost) == Snapshot.Loaded(0, [])
    requires Open(image).Opened? && forall r :: r in Open(image).records ==> r.offset > Offset(s)
    ensures Offset(s) <= m <= |s.log| && s.firm <= m && m <= s.done + 1 && |s.since| == s.done - Offset(s)
    ensures Recover(image, lost, at).Recovered? && Recover(image, lost, at).replayed == s.log[Offset(s)..m]
    ensures Within(Live(Recover(image, lost, at).store, at), Live(Uncrashed(s, m), at))
  {
    hide Load, Open, Selected, Live, LogBytes, ReplayAt, Since, Run, Within, HistoryOk, SnapshotOk, StoreOk, ExportOk,
      WalOk, FirmOk;
    m := CrashRecovers(s, image, at);
    SelectedAbove(Open(image).records, Offset(s));
    SinceOps(s, m);
    assert Within(map[], Live(s.base, at)) by { NothingWithin(Live(s.base, at)); }
    LessNeverInvents(map[], s.base, Since(s, m), at);
  }

  lemma NothingWithin(m: Flat)
    ensures Within(map[], m)
  {
  }

  // ----- Restarts -----

  /** The writer resumes at or above the snapshot's offset. */
  predicate Resumes(s: State, image: Bytes) {
    Open(image).Opened? && Open(image).last >= Offset(s)
  }

  /**
   A restart keeps the invariant if and only if the log found on disk ends at or above the
   snapshot's offset.  A log without records ends at zero whatever the snapshot says.
   */
  lemma RestartKeepsIff(s: State, image: Bytes, at: int)
    requires Inv(s) && s.wal.Survives(image) && s.now <= at
    ensures Recover(image, s.snap, at).Recovered?
    ensures Inv(Restarted(s, image, at)) <==> Resumes(s, image)
  {
    hide Describes, Open, Selected, Import, Live, Logged, WalOk, StoreOk, ExportOk, SnapshotOk, FirmOk, Load;
    var m := CrashRecovers(s, image, at);
    if Resumes(s, image) {
      RestartKeeps(s, image, at);
    }
  }

  /** With fsync=always one acknowledged write after a snapshot makes every restart safe again. */
  lemma ResumesAfterWrite(s: State, image: Bytes)
    requires Inv(s) && s.wal.Survives(image) && s.mode == Always
    requires s.done > Offset(s) || Offset(s) == 0
    ensures Resumes(s, image)
  {
    hide Describes, Open, Selected, Load, LogBytes, Loggable, StoreOk, ExportOk, SnapshotOk;
    var r := CrashLeaves(s, image);
    RemnantRecovers(s, image, r);
  }

  lemma RestartHistory(s: State, image: Bytes, at: int, m: nat)
    requires HistoryOk(s) && Offset(s) <= m <= |s.log|
    requires Recover(image, s.snap, at).Recovered?
    requires Recover(image, s.snap, at).replayed == s.log[Offset(s)..m]
    requires Recover(image, s.snap, at).last == m
    ensures Restarted(s, image, at).log == s.log[..m] && HistoryOk(Restarted(s, image, at))
  {
    hide Recover, Loggable, Load;
    var s' := Restarted(s, image, at);
    assert s.log[..Offset(s)] + s.log[Offset(s)..m] == s.log[..m];
    assert s'.log[Offset(s)..m] == s.log[Offset(s)..m];
  }

  lemma RestartStore(s: State, image: Bytes, at: int, m: nat)
    requires Logged(s.log) && Offset(s) <= m <= |s.log|
    requires Recover(image, s.snap, at).Recovered?
    requires Recover(image, s.snap, at).replayed == s.log[Offset(s)..m]
    requires SnapshotOk(s) && s.now <= at
    ensures StoreOk(Restarted(s, image, at)) && SnapshotOk(Restarted(s, image, at))
  {
    hide Open, Selected, Load, Loggable, DistinctKeys;
    var entries := Load(s.snap).entries;
    var base, ops := Import(entries, at), s.log[Offset(s)..m];
    ImportIsLive(entries, at);
    LiveLater(AsMap(entries), at, at);
    LoadedStorable(s.snap);
    forall op | op in ops
      ensures Writable(op)
    {
      assert op in s.log;
      LoggableIsWritable(op);
    }
    ReplayStorable(base, ops, at);
    ReplayIsRun(base, ops, at);
  }

  lemma LoadedStorable(snap: Option<Bytes>)
    ensures AllStorable(AsMap(Load(snap).entries))
  {
    hide Snapshot.ReadFile, Snapshot.Fits;
    if snap.Some? {
      Snapshot.LoadedEntriesFit(snap.value);
    }
    AsMapStorable(Load(snap).entries);
  }

  /** A durable write: append, settle, commit. */
  ghost function Written(s: State, op: Op): State
    requires Enabled(s, Append(op))
  {
    Do(Do(Do(s, Append(op)), Settle), Commit)
  }

  /** Where a resuming restart finds the log: the last frame is that of the last survivor. */
  lemma ResumedAt(s: State, image: Bytes, r: Remnant)
    requires Inv(s) && Describes(r, s.log, image) && Resumes(s, image)
    requires r.Frames? ==> r.first <= Offset(s)
    ensures Open(image).last == Survived(s, r)
    ensures r.Frames? && r.first == r.next ==> r.next == 0
  {
    hide Describes, Open, Selected, Load, LogBytes, WalOk, StoreOk, ExportOk, SnapshotOk, FirmOk;
    RemnantRecovers(s, image, r);
    SurvivedBound(s, image, r);
  }

  lemma RestartWalBare(s: State, image: Bytes, at: int)
    requires |image| < 16 && image <= HEADER && Offset(s) == 0
    requires Recover(image, s.snap, at).Recovered? && Restarted(s, image, at).log == []
    ensures WalOk(Restarted(s, image, at)) && FirmOk(Restarted(s, image, at))
  {
    hide Load, Recover;
    OpenBare(image);
    assert Recover(image, s.snap, at).file == Recreated(OnDisk(image)) by { RecoverFile(image, s.snap, at); }
    var s' := Restarted(s, image, at);
    NoFrames([], 0);
    assert [] + HEADER == HEADER && HEADER + [] == HEADER;
  }

  lemma RecoverFile(image: Bytes, snap: Option<Bytes>, at: int)
    requires Recover(image, snap, at).Recovered?
    ensures Open(image).Opened? && Recover(image, snap, at).file == Open(image).file
    ensures Recover(image, snap, at).last == Open(image).last
  {
  }

  lemma RestartWalFrames(s: State, image: Bytes, at: int, r: Remnant)
    requires Logged(s.log) && Describes(r, s.log, image) && r.Frames? && r.first <= Offset(s) <= r.next
    requires r.first == r.next ==> r.next == 0
    requires Recover(image, s.snap, at).Recovered?
    requires Restarted(s, image, at).log == s.log[..r.next]
    ensures WalOk(Restarted(s, image, at)) && FirmOk(Restarted(s, image, at))
  {
    hide Load, Recover, Open, LogBytes, Encode, ToRecord, Loggable;
    var Frames(a, i, torn, more) := r;
    CutLogRecovers(s.log, a, i, torn, more);
    RecoverFile(image, s.snap, at);
    var s' := Restarted(s, image, at);
    assert s'.start == a by {
      if a < i {
        assert Records(s.log, a, i)[0] == RecordAt(s.log, a);
        RecordOffset(s.log, a);
      } else {
        assert Records(s.log, a, i) == [];
      }
    }
    assert LogBytes(s'.log, a, i) == LogBytes(s.log, a, i) by {
      assert s'.log[..i] == s.log[..i];
      SameBytes(s'.log, s.log, a, i);
    }
  }

  lemma RecordOffset(log: seq<Op>, i: nat)
    requires i < |log| < TWO64
    ensures RecordAt(log, i).offset == i + 1
  {
  }

  lemma SameBytes(log: seq<Op>, log': seq<Op>, start: nat, stop: nat)
    requires start <= stop <= |log| < TWO64 && stop <= |log'| < TWO64
    requires log[..stop] == log'[..stop]
    ensures LogBytes(log, start, stop) == LogBytes(log', start, stop)
  {
    hide EncodeAll;
    SameStretch(log, log', start, stop);
  }

  lemma RestartKeeps(s: State, image: Bytes, at: int)
    requires Inv(s) && s.wal.Survives(image) && s.now <= at && Resumes(s, image)
    ensures Recover(image, s.snap, at).Recovered? && Inv(Restarted(s, image, at))
  {
    hide Open, Selected, Import, Live, WalOk, StoreOk, ExportOk, SnapshotOk, FirmOk, Load, LogBytes, Restarted,
      HistoryOk;
    hide ReplayAt, Encode, Loggable;
    assert HistoryOk(s) ==> Logged(s.log) && Offset(s) <= |s.log| by { HistoryFacts(s); }
    var r := CrashLeaves(s, image);
    var m := Survived(s, r);
    SurvivedBound(s, image, r);
    RemnantRecovers(s, image, r);
    ResumedAt(s, image, r);
    assert Recover(image, s.snap, at).Recovered?;
    RestartHistory(s, image, at, m);
    RestartStore(s, image, at, m);
    if r.Bare? {
      RestartWalBare(s, image, at);
    } else {
      RestartWalFrames(s, image, at, r);
    }
    assert ExportOk(Restarted(s, image, at)) by { NothingExported(s, image, at); }
  }

  lemma HistoryFacts(s: State)
    ensures HistoryOk(s) ==> Logged(s.log) && Offset(s) <= |s.log|
  {
  }

  lemma NothingExported(s: State, image: Bytes, at: int)
    requires Recover(image, s.snap, at).Recovered?
    ensures ExportOk(Restarted(s, image, at))
  {
  }

  // ----- Whole runs, with any number of restarts -----

  lemma StepKeeps(s: State, step: Step)
    requires Inv(s) && Enabled(s, step)
    requires step.Restart? ==> Resumes(s, step.image)
    ensures Inv(Do(s, step))
  {
    hide Inv;
    match step {
      case Tick(time) => TickKeeps(s, time);
      case Purge(kept) => PurgeKeeps(s, kept);
      case Append(op) => AppendKeeps(s, op);
      case Settle => SettleKeeps(s);
      case Commit => CommitKeeps(s);
      case SyncLog => SyncedKeeps(s);
      case Export(file, entries) => ExportKeeps(s, file, entries);
      case Rename => RenameKeeps(s);
      case ClearLog => RotateKeeps(s, step);
      case WriteHeader => RotateKeeps(s, step);
      case SyncHeader => RotateKeeps(s, step);
      case Restart(image, at) => RestartKeeps(s, image, at);
    }
  }

  lemma BeginsInv(s: State)
    requires Begins(s)
    ensures Inv(s)
  {
    hide Load, Snapshot.IsSnapshot, DistinctKeys, Storable;
    if s == Fresh(s.mode, s.now) {
      FreshInv(s.mode, s.now);
    } else {
      var entries: seq<Snapshot.Entry> :|
        && |entries| < TWO64 && DistinctKeys(entries) && AsMap(entries) == s.store
        && Snapshot.IsSnapshot(s.snap.value, s.lastOffset, entries);
      EntriesFit(entries);
      LoadWritten(s.snap.value, s.lastOffset, entries);
      NoFrames(s.log, |s.log|);
      assert HEADER + [] == HEADER;
      assert Ops([]) == s.log[|s.log|..|s.log|];
    }
  }

  /** A run: a beginning followed by enabled steps, every restart resuming above the snapshot. */
  ghost predicate IsRun(states: seq<State>, steps: seq<Step>) {
    && |states| == |steps| + 1
    && Begins(states[0])
    && forall i :: 0 <= i < |steps| ==>
         && Enabled(states[i], steps[i]) && states[i + 1] == Do(states[i], steps[i])
         && (steps[i].Restart? ==> Resumes(states[i], steps[i].image))
  }

  lemma ApplyToEmpty(op: Op, t: int)
    ensures |Apply(map[], op, t)| <= 1
  {
  }

  /** Runs exist: a first start and one durable write, in every mode. */
  lemma WriteIsRun(mode: FsyncMode, now: int, op: Op) returns (states: seq<State>)
    requires Loggable(op)
    ensures IsRun(states, [Append(op), Settle, Commit]) && states[0] == Fresh(mode, now)
    ensures states[3].phase.Idle? && states[3].now == now && states[3].log == Acked(states[3]) == [op]
    ensures states[3].mode == mode && |states[3].store| <= 1
  {
    ApplyToEmpty(op, now);
    hide Apply, Loggable, Recreated, Encode, Open;
    var s0 := Fresh(mode, now);
    var s1 := Do(s0, Append(op));
    var s2 := Do(s1, Settle);
    states := [s0, s1, s2, Do(s2, Commit)];
  }

  lemma {:induction false} RunKeeps(states: seq<State>, steps: seq<Step>, i: nat)
    requires IsRun(states, steps) && i <= |steps|
    ensures Inv(states[i]) && states[i].mode == states[0].mode
    decreases i
  {
    hide Inv, Enabled, Do, Resumes, Begins;
    if i == 0 {
      BeginsInv(states[0]);
    } else {
      RunKeeps(states, steps, i - 1);
      StepKeeps(states[i - 1], steps[i - 1]);
      ModeKept(states[i - 1], steps[i - 1]);
    }
  }

  lemma ModeKept(s: State, step: Step)
    requires Enabled(s, step)
    ensures Do(s, step).mode == s.mode
  {
  }

  /** The acknowledged operations, in lock order. */
  function Acked(s: State): seq<Op> {
    if s.done <= |s.log| then s.log[..s.done] else s.log
  }

  lemma AckedStep(s: State, step: Step)
    requires Inv(s) && Enabled(s, step) && s.mode == Always
    requires step.Restart? ==> Resumes(s, step.image)
    ensures Acked(s) <= Acked(Do(s, step))
  {
    hide Load, Live, WalOk, StoreOk, ExportOk, SnapshotOk, Run, ReplayAt, Recover, Resumes, Restarted, LogBytes, Logged;
    var s' := Do(s, step);
    if step.Restart? {
      RestartAcked(s, step.image, step.at);
    } else {
      assert s.log <= s'.log && s.done <= s'.done;
    }
  }

  lemma RestartAcked(s: State, image: Bytes, at: int)
    requires Inv(s) && s.wal.Survives(image) && s.now <= at && s.mode == Always
    requires Recover(image, s.snap, at).Recovered?
    ensures Acked(s) <= Acked(Restarted(s, image, at))
  {
    hide Load, Live, WalOk, StoreOk, ExportOk, SnapshotOk, FirmOk, Recover, LogBytes, Logged;
    var m := CrashRecovers(s, image, at);
    var log := Restarted(s, image, at).log;
    assert log == s.log[..Offset(s)] + s.log[Offset(s)..m] == s.log[..m];
  }

  /**
   With fsync=always no acknowledged operation is ever lost or reordered: through any number of
   crashes, what was acknowledged at one point is a prefix of what is acknowledged at any later one.
   */
  lemma {:induction false} AckedNeverLost(states: seq<State>, steps: seq<Step>, i: nat, j: nat)
    requires IsRun(states, steps) && i <= j <= |steps| && states[0].mode == Always
    ensures Acked(states[i]) <= Acked(states[j])
    decreases j
  {
    hide Inv, Enabled, Do, Resumes, Acked;
    if i < j {
      AckedNeverLost(states, steps, i, j - 1);
      RunKeeps(states, steps, j - 1);
      AckedStep(states[j - 1], steps[j - 1]);
    }
  }

  /**
   The guarantee of fsync=always for every run and a crash at any of its points: recovery shows the
   running store, with the operation in progress applied or not, and shows all of it exactly when
   no passed deadline had been superseded since the store was loaded.
   */
  lemma RunSurvivesCrash(states: seq<State>, steps: seq<Step>, i: nat, image: Bytes, at: int) returns (m: nat)
    requires IsRun(states, steps) && i <= |steps| && states[0].mode == Always
    requires states[i].wal.Survives(image) && states[i].now <= at
    ensures var s := states[i];
            && s.done <= m <= |s.log| <= s.done + 1 && Offset(s) <= m && |s.since| == s.done - Offset(s)
            && Recover(image, s.snap, at).Recovered?
            && var recovered := Live(Recover(image, s.snap, at).store, at);
               var running := Live(if m == s.done then s.store else Apply(s.store, s.log[s.done], s.now), at);
               Within(recovered, running) &&
               (recovered == running <==> NoneSuperseded(s.base, Since(s, m), at))
  {
    hide Enabled, Do, Fresh, Resumes, Recover, Live, Run, ReplayAt, NoneSuperseded, Apply, Since, Load;
    hide WalOk, StoreOk, ExportOk, SnapshotOk, FirmOk, Logged;
    RunKeeps(states, steps, i);
    var s := states[i];
    m := CrashRecovers(s, image, at);
    CrashNeverInvents(s, image, at, m);
    UncrashedIsRunning(s, at);
  }
}
