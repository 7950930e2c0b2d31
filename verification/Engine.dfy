/**
 The persistence engine object of src/persistence/engine.cpp, driving the log writer, the snapshot
 file and the store under its lock.
 */
module Engine {
  import opened Common
  import opened Values
  import opened FlatMap
  import opened Disk
  import opened Wal
  import opened Mutation
  import opened Replay
  import opened LogImage
  import opened Recovery
  import opened Durability
  import Snapshot
  import WalWriter
  import opened CrashSafety
  import opened SnapshotSteps
  import Store

  function Joined(done: seq<Op>, rest: Option<seq<Op>>): Option<seq<Op>> {
    match rest
    case None => None
    case Some(ops) => Some(done + ops)
  }

  /** The durability action of a mutation. */
  function AfterWrite(mode: FsyncMode, f: File): File {
    if mode == Always then f.Fsync() else f
  }

  function Period(interval: int): int {
    if interval > 0 then interval * Store.TICKS_PER_SECOND else 0
  }

  class Engine {
    const mode: FsyncMode
    const wal: WalWriter.Writer
    var snapshot: Option<Bytes>

    /** Seconds between snapshots of the timer; none if not positive. */
    const interval: int
    var nextSnapshotAt: int

    constructor (mode: FsyncMode, wal: WalWriter.Writer, snapshot: Option<Bytes>, interval: int, now: int)
      ensures this.mode == mode && this.wal == wal && this.snapshot == snapshot && this.interval == interval
      ensures nextSnapshotAt == now + Period(interval)
    {
      this.mode := mode;
      this.wal := wal;
      this.snapshot := snapshot;
      this.interval := interval;
      nextSnapshotAt := now + Period(interval);
    }

    /** Between two calls the object stands at an idle state of the durability machine. */
    ghost predicate Represents(store: Store.Store, now: int, s: State)
      reads this, wal, store
    {
      && store.Valid() && wal.isOpen && s.phase.Idle? && s.mode == mode && s.now == now + store.skew
      && s.wal == wal.file && s.lastOffset == wal.lastOffset && s.snap == snapshot && s.store == store.Contents()
    }

    /** The passing of time is a step of the machine. */
    lemma TimePasses(store: Store.Store, now: int, s: State, later: int)
      requires Represents(store, now, s) && now <= later
      ensures Enabled(s, Tick(later + store.skew)) && Represents(store, later, Do(s, Tick(later + store.skew)))
    {
      hide Store.Store.Valid;
    }

    /** Applies one decoded record to the store. */
    method ApplyRecord(store: Store.Store, op: Op, now: int)
      requires store.Valid()
      modifies store
      ensures store.Valid() && store.Contents() == Apply(old(store.Contents()), op, now + store.skew)
    {
      match op {
        case PutOp(key, text, expiry) =>
          store.Set(key, Str(text), expiry, now);
        case DelOp(keys) =>
          var _ := store.DelMany(keys, now);
        case ExpireOp(name, at) =>
          var _ := store.ExpireAt(name, Some(at), now);
      }
    }

    /** Installs the entries of a snapshot. */
    method ImportEntries(store: Store.Store, entries: seq<Snapshot.Entry>, now: int)
      requires store.Valid() && store.Contents() == map[]
      modifies store
      ensures store.Valid() && store.Contents() == Import(entries, now + store.skew)
    {
      hide Store.Store.Valid, Put;
      for i := 0 to |entries|
        invariant store.Valid() && store.Contents() == Import(entries[..i], now + store.skew)
      {
        var e := entries[i];
        store.Set(e.key, e.value, e.expiry, now);
        assert entries[..i + 1][..i] == entries[..i];
      }
      assert entries[..|entries|] == entries;
    }

    /** Replays the records above the snapshot's offset in log order. */
    method ReplayRecords(store: Store.Store, records: seq<Record>, offset: uint64, now: int) returns (ok: bool)
      requires store.Valid()
      modifies store
      ensures store.Valid() && ok == Selected(records, offset).Some?
      ensures ok ==> store.Contents() ==
                     ReplayAt(old(store.Contents()), Selected(records, offset).value, now + store.skew)
    {
      hide Store.Store.Valid, Decode, Apply;
      ghost var done: seq<Op> := [];
      ghost var base := store.Contents();
      JoinedNothing(Selected(records, offset));
      assert records[0..] == records;
      for i := 0 to |records|
        invariant store.Valid() && store.Contents() == ReplayAt(base, done, now + store.skew)
        invariant Selected(records, offset) == Joined(done, Selected(records[i..], offset))
      {
        assert records[i..][1..] == records[i + 1..];
        if records[i].offset <= offset {
          continue;
        }
        var op := Decode(records[i]);
        if op.None? {
          return false;
        }
        ApplyRecord(store, op.value, now);
        assert (done + [op.value])[..|done|] == done;
        JoinedMore(done, op.value, Selected(records[i + 1..], offset));
        done := done + [op.value];
      }
      assert records[|records|..] == [] && done + [] == done;
      ok := true;
    }

    /**
     `recover_into`.  In a process that has just started on what a crash left of a state of the machine,
     it is the restart step.
     */
    method RecoverInto(store: Store.Store, now: int) returns (ok: bool)
      requires store.Valid()
      modifies store, wal
      ensures store.Valid() && wal.isOpen
      ensures var out := AfterScan(OpenFile(old(wal.file)), snapshot, now + store.skew);
              && ok == out.Recovered?
              && (ok ==> store.Contents() == out.store && wal.file == out.file && wal.lastOffset == out.last)
      ensures forall s: State, image: Bytes ::
                Leaves(s, image, old(wal.file), snapshot, mode) && s.now <= now + store.skew ==>
                  && (ok <==> Enabled(s, Restart(image, now + store.skew)))
                  && (ok ==> Represents(store, now, Do(s, Restart(image, now + store.skew))))
      ensures old(wal.file) == OnDisk([]) && snapshot.None? ==>
                ok && Represents(store, now, Fresh(mode, now + store.skew))
    {
      hide Store.Store.Valid, OpenFile, Import, Selected, ReplayAt, Load, Recreated, Loggable;
      FirstStart(now + store.skew);
      store.Clear();
      var loaded := LoadSnapshot(snapshot);
      ImportEntries(store, loaded.entries, now);
      var scan := wal.OpenAndRecover();
      if scan.Failed? {
        return false;
      }
      ok := ReplayRecords(store, scan.records, loaded.offset, now);
    }

    method LoadSnapshot(snap: Option<Bytes>) returns (loaded: Snapshot.Loaded)
      ensures loaded == Load(snap)
    {
      if snap.Some? {
        var r := Snapshot.ReadBack(snap.value);
        if r.Some? {
          return r.value;
        }
      }
      loaded := Snapshot.Loaded(0, []);
    }

    /** Write-ahead: the record is appended and settled before the store changes. */
    method Log(op: Op) returns (ok: bool)
      modifies wal
      ensures ok == old(wal.isOpen) == wal.isOpen
      ensures !ok ==> wal.file == old(wal.file) && wal.lastOffset == old(wal.lastOffset)
      ensures ok ==>
                && wal.lastOffset == (old(wal.lastOffset) + 1) % TWO64
                && wal.file == AfterWrite(mode, old(wal.file).Write(Encode(ToRecord(op, wal.lastOffset))))
    {
      hide Encode, Payload;
      var offset := wal.Append(Opcode(op), Payload(op));
      if offset.None? {
        return false;
      }
      if mode == Always {
        var _ := wal.Sync();
      }
      ok := true;
    }

    method DurableSet(store: Store.Store, key: Key, text: Bytes, now: int) returns (ok: bool)
      requires store.Valid()
      modifies wal, store
      ensures store.Valid() && ok == old(wal.isOpen)
      ensures var op := PutOp(key, text, None);
              if !ok then store.Contents() == old(store.Contents()) && wal.file == old(wal.file)
              else
                && wal.lastOffset == (old(wal.lastOffset) + 1) % TWO64
                && wal.file == AfterWrite(mode, old(wal.file).Write(Encode(ToRecord(op, wal.lastOffset))))
                && store.Contents() == Apply(old(store.Contents()), op, now + store.skew)
      ensures forall s: State :: old(Represents(store, now, s)) && Enabled(s, Append(PutOp(key, text, None))) ==>
                Represents(store, now, Written(s, PutOp(key, text, None)))
    {
      hide Encode, Payload, ToRecord, Enabled, Written, Store.Store.Valid;
      ok := Log(PutOp(key, text, None));
      if ok {
        store.Set(key, Str(text), None, now);
      }
      forall s: State | old(Represents(store, now, s)) && Enabled(s, Append(PutOp(key, text, None)))
        ensures Represents(store, now, Written(s, PutOp(key, text, None)))
      {
        WriteIsSteps(s, PutOp(key, text, None));
      }
    }

    method DurableDel(store: Store.Store, keys: seq<Key>, now: int) returns (removed: Option<nat>)
      requires store.Valid()
      modifies wal, store
      ensures store.Valid() && removed.Some? == old(wal.isOpen)
      ensures var op := DelOp(keys);
              if removed.None? then store.Contents() == old(store.Contents()) && wal.file == old(wal.file)
              else
                && wal.lastOffset == (old(wal.lastOffset) + 1) % TWO64
                && wal.file == AfterWrite(mode, old(wal.file).Write(Encode(ToRecord(op, wal.lastOffset))))
                && store.Contents() == Apply(old(store.Contents()), op, now + store.skew)
                && removed.value == RemoveCount(old(store.Contents()), keys, now + store.skew)
      ensures forall s: State :: old(Represents(store, now, s)) && Enabled(s, Append(DelOp(keys))) ==>
                Represents(store, now, Written(s, DelOp(keys)))
    {
      hide Encode, Payload, ToRecord, Enabled, Written, Store.Store.Valid, RemoveCount, Remove;
      var ok := Log(DelOp(keys));
      if !ok {
        return None;
      }
      var n := store.DelMany(keys, now);
      removed := Some(n);
      forall s: State | old(Represents(store, now, s)) && Enabled(s, Append(DelOp(keys)))
        ensures Represents(store, now, Written(s, DelOp(keys)))
      {
        WriteIsSteps(s, DelOp(keys));
      }
    }

    /** The deadline is fixed in whole milliseconds before it is logged, so replay sees the same one. */
    method DurableExpire(store: Store.Store, key: Key, seconds: int, now: int) returns (changed: Option<bool>)
      requires store.Valid() && InRange(Deadline(seconds, now + store.skew))
      modifies wal, store
      ensures store.Valid() && changed.Some? == old(wal.isOpen)
      ensures var op := ExpireRecord(key, seconds, now + store.skew);
              && WholeMs(op.at)
              && if changed.None? then store.Contents() == old(store.Contents()) && wal.file == old(wal.file)
                 else
                   && wal.lastOffset == (old(wal.lastOffset) + 1) % TWO64
                   && wal.file == AfterWrite(mode, old(wal.file).Write(Encode(ToRecord(op, wal.lastOffset))))
                   && store.Contents() == Apply(old(store.Contents()), op, now + store.skew)
                   && changed.value == (key in Live(old(store.Contents()), now + store.skew))
      ensures changed == Some(true) && seconds > 0 ==>
                && key in Live(store.Contents(), now + store.skew)
                && seconds - 1 <= Store.TimeToLive(store.Contents(), key, now + store.skew) <= seconds
      ensures changed.Some? && seconds <= 0 && now + store.skew >= 0 ==> key !in store.Contents()
      ensures forall s: State ::
                old(Represents(store, now, s)) && Enabled(s, Append(ExpireRecord(key, seconds, now + store.skew))) ==>
                Represents(store, now, Written(s, ExpireRecord(key, seconds, now + store.skew)))
    {
      hide Encode, Payload, ToRecord, Enabled, Written, Store.Store.Valid, Store.TimeToLive, Live, Deadline,
        FromUnixMs, ToUnixMs, WholeMs, SetDeadline;
      var ms := ToUnixMs(Deadline(seconds, now + store.skew));
      WholeAgain(ms);
      var ok := Log(ExpireOp(key, FromUnixMs(ms)));
      if !ok {
        return None;
      }
      var b := store.ExpireAt(key, Some(FromUnixMs(ms)), now);
      changed := Some(b);
      if b && seconds > 0 {
        ExpireLasts(old(store.Contents()), key, seconds, now + store.skew);
      } else if seconds <= 0 {
        ExpireNow(old(store.Contents()), key, seconds, now + store.skew);
      }
      forall s: State | old(Represents(store, now, s)) && Enabled(s, Append(ExpireOp(key, FromUnixMs(ms))))
        ensures Represents(store, now, Written(s, ExpireOp(key, FromUnixMs(ms))))
      {
        WriteIsSteps(s, ExpireOp(key, FromUnixMs(ms)));
      }
    }

    /** A snapshot of exactly the live entries replaces the old one and the log restarts after it. */
    method SnapshotNow(store: Store.Store, now: int) returns (ok: bool, ghost entries: seq<Snapshot.Entry>)
      requires store.Valid()
      modifies this, wal, store
      ensures store.Valid() && ok == old(wal.isOpen)
      ensures !ok ==>
                snapshot == old(snapshot) && wal.file == old(wal.file) && store.Contents() == old(store.Contents())
      ensures ok ==>
                && store.Contents() == Live(old(store.Contents()), now + store.skew)
                && wal.file == OnDisk(HEADER) && wal.lastOffset == old(wal.lastOffset)
                && snapshot.Some? && Snapshot.IsSnapshot(snapshot.value, wal.lastOffset, entries)
                && DistinctKeys(entries) && AsMap(entries) == store.Contents()
      ensures nextSnapshotAt == if ok && interval > 0 then now + Period(interval) else old(nextSnapshotAt)
      ensures ok && AllStorable(store.Contents()) && |store.Contents()| < TWO64 ==>
                Load(snapshot) == Snapshot.Loaded(wal.lastOffset, entries)
      ensures ok && |store.Contents()| < TWO64 ==>
                forall s: State :: old(Represents(store, now, s)) ==>
                  && Enabled(Prepared(s), Export(snapshot.value, entries))
                  && Represents(store, now, Snapshotted(s, snapshot.value, entries))
    {
      hide Store.Store.Valid, AsMap, Snapshot.IsSnapshot, Load, Storable, Live, DistinctKeys, Enabled, Prepared,
        Snapshotted, AllStorable;
      entries := [];
      if !wal.isOpen {
        return false, [];
      }
      if mode != Never {
        var _ := wal.Sync();
      }
      var listed := store.ExportSnapshotEntries(now);
      var offset := wal.lastOffset;
      var file := Snapshot.WriteFile(offset, listed);
      snapshot := Some(file);
      var _ := wal.TruncateAfter(offset);
      if interval > 0 {
        nextSnapshotAt := now + Period(interval);
      }
      EntryCount(listed);
      if AllStorable(store.Contents()) && |store.Contents()| < TWO64 {
        EntriesFit(listed);
        LoadWritten(file, offset, listed);
      }
      entries := listed;
      if |store.Contents()| < TWO64 {
        forall s: State | old(Represents(store, now, s))
          ensures Enabled(Prepared(s), Export(file, listed)) && Represents(store, now, Snapshotted(s, file, listed))
        {
          SnapshotIsSteps(s, file, listed);
        }
      }
      ok := true;
    }

    /** The timer: a snapshot is taken exactly when one is due, and the next one is due a period later. */
    method MaybeSnapshot(store: Store.Store, now: int) returns (ok: bool, ghost entries: seq<Snapshot.Entry>)
      requires store.Valid()
      modifies this, wal, store
      ensures store.Valid()
      ensures var due := interval > 0 && old(nextSnapshotAt) <= now;
              && ok == (due && old(wal.isOpen))
              && nextSnapshotAt == (if ok then now + Period(interval) else old(nextSnapshotAt))
      ensures !ok ==>
                snapshot == old(snapshot) && wal.file == old(wal.file) && store.Contents() == old(store.Contents())
      ensures ok ==>
                && store.Contents() == Live(old(store.Contents()), now + store.skew)
                && wal.file == OnDisk(HEADER) && wal.lastOffset == old(wal.lastOffset)
                && snapshot.Some? && Snapshot.IsSnapshot(snapshot.value, wal.lastOffset, entries)
                && DistinctKeys(entries) && AsMap(entries) == store.Contents()
    {
      hide Store.Store.Valid, AsMap, Snapshot.IsSnapshot, Load, Live, DistinctKeys, Enabled;
      entries := [];
      if interval <= 0 || now < nextSnapshotAt {
        return false, [];
      }
      ok, entries := SnapshotNow(store, now);
    }
  }

  // ----- The calls of the object as steps of the machine -----

  lemma WriteIsSteps(s: State, op: Op)
    requires Enabled(s, Append(op))
    ensures var after := Written(s, op);
            && after.phase.Idle? && after.mode == s.mode && after.now == s.now && after.snap == s.snap
            && after.lastOffset == (s.lastOffset + 1) % TWO64
            && after.wal == AfterWrite(s.mode, s.wal.Write(Encode(ToRecord(op, after.lastOffset))))
            && after.store == Apply(s.store, op, s.now)
  {
    hide Encode, ToRecord, Apply, Loggable, Recover;
  }

  /** The first start in an empty directory. */
  lemma FirstStart(at: int)
    ensures AfterScan(OpenFile(OnDisk([])), None, at) == Recovered(map[], map[], [], Recreated(OnDisk([])), 0)
  {
  }

  /** A crash of the state leaves these two files to the process that starts next. */
  ghost predicate Leaves(s: State, image: Bytes, log: File, snap: Option<Bytes>, mode: FsyncMode) {
    s.wal.Survives(image) && log == OnDisk(image) && s.snap == snap && s.mode == mode
  }

  /** The calls keep the durability invariant of the state that the object stands at. */
  lemma WrittenKeeps(s: State, op: Op)
    requires Inv(s) && Enabled(s, Append(op))
    ensures Inv(Written(s, op))
  {
    hide Inv, Recover, Loggable, Encode, Apply;
    StepKeeps(s, Append(op));
    var logged := Do(s, Append(op));
    StepKeeps(logged, Settle);
    StepKeeps(Do(logged, Settle), Commit);
  }

  predicate InRange(t: int) {
    -TWO63 * TICKS_PER_MS <= t < TWO63 * TICKS_PER_MS
  }

  /** The operation that EXPIRE logs and applies: its deadline in whole milliseconds. */
  function ExpireRecord(key: Key, seconds: int, wallNow: int): Op
    requires InRange(Deadline(seconds, wallNow))
  {
    ExpireOp(key, FromUnixMs(ToUnixMs(Deadline(seconds, wallNow))))
  }

  /** EXPIRE on a live key: the deadline lies the given seconds ahead, to within a millisecond, and TTL says so. */
  lemma ExpireLasts(m: Flat, key: Key, seconds: int, t: int)
    requires InRange(Deadline(seconds, t)) && seconds > 0 && key in Live(m, t)
    ensures var after := Apply(m, ExpireRecord(key, seconds, t), t);
            && key in Live(after, t) && after[key].value == m[key].value && after[key].deadline.Some?
            && seconds - 1 <= Store.TimeToLive(after, key, t) <= seconds
            && var ahead := after[key].deadline.value - (t + seconds * 1000 * TICKS_PER_MS);
               -TICKS_PER_MS < ahead < TICKS_PER_MS
  {
  }

  /** EXPIRE with no time left removes the key, unless the clock reads a part of a millisecond before 1970. */
  lemma ExpireNow(m: Flat, key: Key, seconds: int, t: int)
    requires InRange(Deadline(seconds, t)) && seconds <= 0
    ensures key !in Live(m, t) || t >= 0 || t % TICKS_PER_MS == 0 <==>
            key !in Apply(m, ExpireRecord(key, seconds, t), t)
  {
  }

  lemma WholeAgain(ms: int64)
    ensures WholeMs(FromUnixMs(ms))
  {
  }

  /** The timer counts seconds of a thousand milliseconds. */
  lemma PeriodIs(interval: int)
    ensures Period(interval) == if interval > 0 then interval * 1000 * TICKS_PER_MS else 0
  {
  }

  /** EXPIRE with a positive time to live ends later; any other ends now. */
  function Deadline(seconds: int, wallNow: int): int {
    if seconds > 0 then wallNow + seconds * Store.TICKS_PER_SECOND else wallNow
  }

  lemma JoinedNothing(r: Option<seq<Op>>)
    ensures Joined([], r) == r
  {
    if r.Some? {
      assert [] + r.value == r.value;
    }
  }

  lemma JoinedMore(done: seq<Op>, op: Op, r: Option<seq<Op>>)
    ensures Joined(done + [op], r) == Joined(done, match r case None => None case Some(ops) => Some([op] + ops))
  {
    if r.Some? {
      assert done + [op] + r.value == done + ([op] + r.value);
    }
  }

  lemma {:induction false} EntryCount(entries: seq<Snapshot.Entry>)
    requires DistinctKeys(entries)
    ensures |entries| == |AsMap(entries)|
    decreases |entries|
  {
    if entries != [] {
      var n := |entries| - 1;
      EntryCount(entries[..n]);
      AsMapKeys(entries[..n]);
      assert entries[n].key !in AsMap(entries[..n]);
      assert AsMap(entries).Keys == AsMap(entries[..n]).Keys + {entries[n].key};
    }
  }
}
