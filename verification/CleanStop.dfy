/**
 The clean stop of src/persistence/engine.cpp:67-80 as steps of the durability machine.  It ends every
 run in the state from which a restart resumes below the snapshot.
 */
module CleanStop {
  import opened Common
  import opened Values
  import opened FlatMap
  import opened Disk
  import opened Wal
  import opened Mutation
  import opened LogImage
  import opened Recovery
  import opened Durability
  import opened CrashSafety
  import opened ResumeOffset
  import opened SnapshotSteps
  import Snapshot

  // ----- A snapshot of any store can be written -----

  lemma {:induction false} SetIsEnumerable(members: set<Bytes>) returns (order: seq<Bytes>)
    ensures Snapshot.Members(order) == members && |order| == |members|
    decreases |members|
  {
    if members == {} {
      order := [];
    } else {
      var x :| x in members;
      var rest := SetIsEnumerable(members - {x});
      order := [x] + rest;
      assert order[1..] == rest;
      assert Snapshot.Members(order) == Snapshot.Members(rest) + {x};
    }
  }

  lemma ListedOneMore(entries: seq<Snapshot.Entry>, k: Key, e: FlatEntry)
    requires DistinctKeys(entries) && k !in AsMap(entries)
    ensures var more := entries + [Snapshot.Entry(k, e.value, e.deadline)];
            DistinctKeys(more) && AsMap(more) == AsMap(entries)[k := e]
  {
    AsMapKeys(entries);
    var more := entries + [Snapshot.Entry(k, e.value, e.deadline)];
    assert more[..|entries|] == entries;
  }

  /** Every map has a listing, and every set in it an order to be written in. */
  lemma {:induction false} MapIsListable(m: Flat) returns (entries: seq<Snapshot.Entry>, orders: seq<seq<Bytes>>)
    ensures DistinctKeys(entries) && AsMap(entries) == m && |entries| == |m|
    ensures Snapshot.EnumeratesAll(orders, entries)
    decreases |m|
  {
    hide Snapshot.Members, AsMap, DistinctKeys;
    if m == map[] {
      entries, orders := [], [];
      NothingListed();
    } else {
      var k :| k in m;
      var rest := m - {k};
      assert m.Keys == rest.Keys + {k};
      assert m == rest[k := m[k]];
      entries, orders := MapIsListable(rest);
      ListedOneMore(entries, k, m[k]);
      var order: seq<Bytes> := [];
      if m[k].value.Set? {
        order := SetIsEnumerable(m[k].value.members);
      }
      entries, orders := entries + [Snapshot.Entry(k, m[k].value, m[k].deadline)], orders + [order];
    }
  }

  lemma NothingListed()
    ensures AsMap([]) == map[] && DistinctKeys([])
  {
  }

  lemma SealedIsSnapshot(offset: uint64, entries: seq<Snapshot.Entry>, orders: seq<seq<Bytes>>)
    requires Snapshot.EnumeratesAll(orders, entries)
    ensures Snapshot.IsSnapshot(Snapshot.Seal(Snapshot.Content(offset, entries, orders)), offset, entries)
  {
  }

  lemma ExportIsPossible(s: State) returns (file: Bytes, entries: seq<Snapshot.Entry>)
    requires s.phase.Idle? && s.lastOffset < TWO64 && |Live(s.store, s.now)| < TWO64
    ensures Enabled(Prepared(s), Export(file, entries))
  {
    hide Live, AsMap, DistinctKeys, Snapshot.IsSnapshot, Snapshot.Seal, Snapshot.Content, Snapshot.EnumeratesAll,
      Enabled, Prepared;
    var orders: seq<seq<Bytes>>;
    entries, orders := MapIsListable(Live(s.store, s.now));
    assert |orders| == |entries| by { OrdersMatch(orders, entries); }
    file := Snapshot.Seal(Snapshot.Content(s.lastOffset, entries, orders));
    SealedIsSnapshot(s.lastOffset, entries, orders);
    ExportEnabled(s, file, entries);
  }

  lemma OrdersMatch(orders: seq<seq<Bytes>>, entries: seq<Snapshot.Entry>)
    requires Snapshot.EnumeratesAll(orders, entries)
    ensures |orders| == |entries|
  {
  }

  // ----- The stop -----

  /** `shutdown`: a sync unless the mode is never to sync, then a snapshot. */
  function StopSteps(mode: FsyncMode, file: Bytes, entries: seq<Snapshot.Entry>): seq<Step> {
    (if mode == Never then [] else [SyncLog]) + [Export(file, entries), Rename, ClearLog, WriteHeader, SyncHeader]
  }

  /** The states of the stop, the one it starts from included. */
  ghost function StopPath(s: State, file: Bytes, entries: seq<Snapshot.Entry>): (path: seq<State>)
    requires s.phase.Idle?
    ensures |path| == |StopSteps(s.mode, file, entries)| + 1 && path[0] == s
  {
    var exported := Exporting(Prepared(s), file, entries);
    var renamed := Renaming(exported);
    var cleared := Clearing(renamed);
    (if s.mode == Never then [s] else [s, Prepared(s)]) +
    [exported, renamed, cleared, Heading(cleared), Finishing(Heading(cleared))]
  }

  ghost predicate Follows(before: State, step: Step, after: State) {
    Enabled(before, step) && after == Do(before, step) && !step.Restart?
  }

  lemma StopIsPath(s: State, file: Bytes, entries: seq<Snapshot.Entry>)
    requires s.phase.Idle? && Enabled(Prepared(s), Export(file, entries))
    ensures var steps, path := StopSteps(s.mode, file, entries), StopPath(s, file, entries);
            forall i :: 0 <= i < |steps| ==> Follows(path[i], steps[i], path[i + 1])
  {
    hide Recover, Live, AsMap, DistinctKeys, Snapshot.IsSnapshot;
  }

  lemma ExtendsRun(states: seq<State>, steps: seq<Step>, path: seq<State>, more: seq<Step>)
    requires IsRun(states, steps) && |path| == |more| + 1 && path[0] == states[|steps|]
    requires forall i :: 0 <= i < |more| ==> Follows(path[i], more[i], path[i + 1])
    ensures IsRun(states + path[1..], steps + more)
  {
    hide Enabled, Do, Resumes;
    var all, moves := states + path[1..], steps + more;
    forall i | 0 <= i < |moves|
      ensures Enabled(all[i], moves[i]) && all[i + 1] == Do(all[i], moves[i])
      ensures moves[i].Restart? ==> Resumes(all[i], moves[i].image)
    {
      if i >= |steps| {
        var j := i - |steps|;
        assert Follows(path[j], more[j], path[j + 1]);
        assert moves[i] == more[j] && all[i] == path[j] && all[i + 1] == path[j + 1];
      } else {
        assert moves[i] == steps[i] && all[i] == states[i] && all[i + 1] == states[i + 1];
      }
    }
  }

  /** Every run that stands idle goes on, by the steps of a clean stop, to a bare log at its whole history. */
  lemma StopLeavesBareLog(states: seq<State>, steps: seq<Step>) returns (states': seq<State>, steps': seq<Step>)
    requires IsRun(states, steps) && states[|steps|].phase.Idle?
    requires |Live(states[|steps|].store, states[|steps|].now)| < TWO64
    ensures IsRun(states', steps') && states <= states' && steps <= steps'
    ensures |steps'| == |steps| + if states[|steps|].mode == Never then 5 else 6
    ensures var s, e := states[|steps|], states'[|steps'|];
            && Inv(e) && e.phase.Idle? && e.wal == OnDisk(HEADER) && e.mode == s.mode && e.now == s.now
            && Offset(e) == |s.log| == |e.log| && Acked(e) == Acked(s)
            && (Resumes(e, HEADER) <==> |s.log| == 0)
  {
    hide Inv, Load, Live, Recover, Resumes, Offset, Enabled, Do, StopSteps, StopPath, IsRun, Prepared;
    var n := |steps|;
    assert |states| == n + 1 by { RunLength(states, steps); }
    var s := states[n];
    RunKeeps(states, steps, n);
    assert s.lastOffset < TWO64 by { IdleCounts(s); }
    var file, entries := ExportIsPossible(s);
    StopIsPath(s, file, entries);
    var path, more := StopPath(s, file, entries), StopSteps(s.mode, file, entries);
    states', steps' := states + path[1..], steps + more;
    ExtendsRun(states, steps, path, more);
    LastStep(s, file, entries);
    var m := |steps'|;
    RunKeeps(states', steps', m - 1);
    RunKeeps(states', steps', m);
    assert states'[m - 1] == path[|path| - 2] && states'[m] == path[|path| - 1];
    SnapshotLeavesBareLog(path[|path| - 2]);
  }

  lemma RunLength(states: seq<State>, steps: seq<Step>)
    requires IsRun(states, steps)
    ensures |states| == |steps| + 1
  {
  }

  lemma IdleCounts(s: State)
    requires Inv(s) && s.phase.Idle?
    ensures s.lastOffset < TWO64
  {
  }

  lemma LastStep(s: State, file: Bytes, entries: seq<Snapshot.Entry>)
    requires s.phase.Idle?
    ensures var path := StopPath(s, file, entries);
            var last, end := path[|path| - 2], path[|path| - 1];
            && |path| == (if s.mode == Never then 6 else 7)
            && Enabled(last, SyncHeader) && end == Do(last, SyncHeader)
            && last.log == end.log == s.log && end.mode == s.mode && end.now == s.now && Acked(end) == Acked(s)
  {
    hide Recover, Live, AsMap;
  }

  lemma {:induction false} LiveIsSmaller(m: Flat, t: int)
    ensures |Live(m, t)| <= |m|
  {
    var live := Live(m, t).Keys;
    assert live <= m.Keys;
    SubsetSize(live, m.Keys);
  }

  lemma {:induction false} SubsetSize(a: set<Key>, b: set<Key>)
    requires a <= b
    ensures |a| <= |b|
    decreases |a|
  {
    if a != {} {
      var x :| x in a;
      SubsetSize(a - {x}, b - {x});
    }
  }

  /** So after a first start, one write and a clean stop, every restart loses the next acknowledged write. */
  lemma StopAndRestartLosesWrite(now: int, op: Op, at: int, next: Op) returns (states: seq<State>, steps: seq<Step>)
    requires Loggable(op) && Loggable(next) && now <= at
    ensures IsRun(states, steps) && states[0] == Fresh(Always, now)
    ensures var e := states[|steps|];
            && Acked(e) == [op] && e.wal == OnDisk(HEADER) && Offset(e) == 1
            && Recover(HEADER, e.snap, at).Recovered?
            && var r := Restarted(e, HEADER, at);
               && CanWrite(r, [next])
               && forall image :: WriteAll(r, [next]).wal.Survives(image) ==>
                    forall later ::
                      Recover(image, r.snap, later).Recovered? && Recover(image, r.snap, later).replayed == []
  {
    hide Inv, Load, Loggable, Recover, Restarted, Resumes, CanWrite, WriteAll, Do, Enabled, Live;
    var first := WriteIsRun(Always, now, op);
    LiveIsSmaller(first[3].store, first[3].now);
    states, steps := StopLeavesBareLog(first, [Append(op), Settle, Commit]);
    var e := states[|steps|];
    assert states[0] == first[0] && |e.log| == 1;
    assert HEADER[..|HEADER|] == HEADER && e.wal.Survives(HEADER);
    OneWriteLost(e, HEADER, at, next);
  }

  // ----- The next snapshot ends the damage -----

  lemma {:induction false} WritesStorable(s: State, ops: seq<Op>)
    requires CanWrite(s, ops) && AllStorable(s.store)
    ensures AllStorable(WriteAll(s, ops).store)
    decreases |ops|
  {
    hide AllStorable, Loggable, Apply, WriteAll;
    if ops == [] {
      WriteNothing(s);
    } else {
      var before, op := ops[..|ops| - 1], ops[|ops| - 1];
      LastWrite(s, ops);
      WritesStorable(s, before);
      LoggableIsWritable(op);
      ApplyStorable(WriteAll(s, before).store, op, WriteAll(s, before).now);
    }
  }

  /**
   After every restart, resuming below the snapshot or not, and every sequence of writes: a snapshot is
   possible, it shows the running store, and the state it leads to is one in which runs begin.
   */
  lemma SnapshotEndsDamage(s: State, image: Bytes, at: int, ops: seq<Op>)
    returns (file: Bytes, entries: seq<Snapshot.Entry>)
    requires Inv(s) && s.wal.Survives(image) && s.now <= at && s.mode == Always
    ensures Recover(image, s.snap, at).Recovered?
    ensures var r := Restarted(s, image, at);
            CanWrite(r, ops) && |Live(WriteAll(r, ops).store, WriteAll(r, ops).now)| < TWO64 ==>
              var w := WriteAll(r, ops);
              && Enabled(Prepared(w), Export(file, entries))
              && var after := Snapshotted(w, file, entries);
                 after.store == Live(w.store, w.now) && JustSnapshotted(Recounted(after, Filler(w.lastOffset)))
  {
    hide Inv, Load, Live, Recover, Restarted, CanWrite, WriteAll, Enabled, Prepared, Snapshotted, JustSnapshotted,
      AllStorable, Open;
    var first := RestartShape(s, image, at);
    var r := Restarted(s, image, at);
    assert AllStorable(r.store) by { RestartedStorable(s, image, at); }
    file, entries := [], [];
    if CanWrite(r, ops) && |Live(WriteAll(r, ops).store, WriteAll(r, ops).now)| < TWO64 {
      var w := WriteAll(r, ops);
      WritesStorable(r, ops);
      assert w.lastOffset < TWO64 by { RoomLeft(r, ops); }
      file, entries := ExportIsPossible(w);
      SnapshotRepairs(w, file, entries);
    }
  }

  lemma RoomLeft(s: State, ops: seq<Op>)
    requires CanWrite(s, ops)
    ensures s.lastOffset + |ops| < TWO64
  {
  }

  lemma RestartedStorable(s: State, image: Bytes, at: int)
    requires Inv(s) && s.wal.Survives(image) && s.now <= at
    ensures Recover(image, s.snap, at).Recovered? && AllStorable(Restarted(s, image, at).store)
  {
    hide Open, Selected, Import, Live, WalOk, StoreOk, ExportOk, FirmOk, Load, LogBytes, Restarted, Loggable;
    var m := CrashRecovers(s, image, at);
    RestartStore(s, image, at, m);
    assert AllStorable(Restarted(s, image, at).store) by { StoreOkStorable(Restarted(s, image, at)); }
  }

  lemma StoreOkStorable(s: State)
    requires StoreOk(s)
    ensures AllStorable(s.store)
  {
  }
}
