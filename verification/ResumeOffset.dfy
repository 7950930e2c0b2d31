/**
 The offset at which the log resumes after a restart.  docs/PERSISTENCE.md says the larger of the
 snapshot's offset and the last log offset; the code takes the last log offset alone, which is zero
 for a log without records (src/persistence/wal.cpp:126-128, src/persistence/engine.cpp:54-60).
 */
module ResumeOffset {
  import opened Common
  import opened Disk
  import opened Wal
  import opened Mutation
  import opened Replay
  import opened LogImage
  import opened Recovery
  import opened Durability
  import opened CrashSafety

  // ----- Acknowledged writes -----

  /** One acknowledged write under fsync=always: append, sync, apply. */
  function WriteOne(s: State, op: Op): (r: State)
    requires s.phase.Idle? && s.mode == Always && Loggable(op)
    requires s.lastOffset + 1 < TWO64 && |s.log| + 1 < TWO64
    ensures r.phase.Idle? && r.mode == Always && r.snap == s.snap
    ensures r.lastOffset == s.lastOffset + 1 && |r.log| == |s.log| + 1 && r.done == s.done + 1
  {
    Committing(Settling(Logging(s, op)))
  }

  lemma WriteOneLogs(s: State, op: Op)
    requires s.phase.Idle? && s.mode == Always && Loggable(op)
    requires s.lastOffset + 1 < TWO64 && |s.log| + 1 < TWO64
    ensures WriteOne(s, op).wal == OnDisk(s.wal.current.bytes + Encode(ToRecord(op, s.lastOffset + 1)))
    ensures Enabled(s, Append(op)) && WriteOne(s, op) == Written(s, op)
  {
    hide Encode, ToRecord, Apply, Loggable, Recover;
  }

  /** The operations can be written: each is loggable and the numbering has room. */
  ghost predicate CanWrite(s: State, ops: seq<Op>) {
    && s.phase.Idle? && s.mode == Always && (forall op :: op in ops ==> Loggable(op))
    && s.lastOffset + |ops| < TWO64 && |s.log| + |ops| < TWO64
  }

  ghost function WriteAll(s: State, ops: seq<Op>): (r: State)
    requires CanWrite(s, ops)
    ensures r.phase.Idle? && r.mode == Always && r.snap == s.snap
    ensures r.lastOffset == s.lastOffset + |ops| && |r.log| == |s.log| + |ops| && r.done == s.done + |ops|
    decreases |ops|
  {
    if ops == [] then s
    else WriteOne(WriteAll(s, ops[..|ops| - 1]), ops[|ops| - 1])
  }

  lemma LastWrite(s: State, ops: seq<Op>)
    requires CanWrite(s, ops) && ops != []
    ensures CanWrite(s, ops[..|ops| - 1]) && Loggable(ops[|ops| - 1])
    ensures WriteAll(s, ops) == WriteOne(WriteAll(s, ops[..|ops| - 1]), ops[|ops| - 1])
  {
    hide Loggable, WriteOne;
  }

  /** The new frames continue whatever numbering the file ends with. */
  lemma {:induction false} WritesExtend(s: State, base: seq<Op>, first: nat, ops: seq<Op>)
    requires CanWrite(s, ops) && first <= |base| == s.lastOffset
    requires s.wal.current.bytes == HEADER + LogBytes(base, first, |base|)
    ensures WriteAll(s, ops).wal.current.bytes == HEADER + LogBytes(base + ops, first, |base| + |ops|)
    ensures ops != [] ==> WriteAll(s, ops).wal == OnDisk(WriteAll(s, ops).wal.current.bytes)
    decreases |ops|
  {
    hide LogBytes, Encode, Loggable, ToRecord, WriteOne, WriteAll;
    if ops == [] {
      assert base + ops == base;
      WriteNothing(s);
    } else {
      var before, op := ops[..|ops| - 1], ops[|ops| - 1];
      LastWrite(s, ops);
      WritesExtend(s, base, first, before);
      AppendedBytes(base + before, first, op);
      WriteOneLogs(WriteAll(s, before), op);
      assert base + before + [op] == base + ops;
      var frames, frame := LogBytes(base + before, first, |base + before|), Encode(ToRecord(op, |base + ops|));
      assert HEADER + frames + frame == HEADER + (frames + frame);
    }
  }

  // ----- What a restart finds -----

  /** The offset the writer resumes at. */
  function ResumesAt(image: Bytes): uint64 {
    match Open(image)
    case Failed(_) => 0
    case Opened(_, _, last) => last
  }

  /** How far the writer resumes below the snapshot. */
  function Gap(s: State, image: Bytes): nat {
    if ResumesAt(image) < Offset(s) then Offset(s) - ResumesAt(image) else 0
  }

  /**
   Every image that a crash may leave of a state in order: a restart resumes at the last frame found,
   replays the frames above the snapshot, and keeps the whole frames of the file.
   */
  lemma RestartShape(s: State, image: Bytes, at: int) returns (first: nat)
    requires Inv(s) && s.wal.Survives(image) && s.now <= at
    ensures Recover(image, s.snap, at).Recovered?
    ensures var r, n, last := Restarted(s, image, at), Offset(s), ResumesAt(image);
            && Open(image).Opened? && Logged(s.log) && n <= |s.log|
            && r.phase.Idle? && r.mode == s.mode && r.snap == s.snap && r.lastOffset == last
            && first <= last <= |s.log| && first <= n
            && r.wal.current.bytes == HEADER + LogBytes(s.log[..last], first, last)
            && Recover(image, s.snap, at).replayed == s.log[Min(n, last)..last]
            && |r.log| == Max(n, last)
            && (first == last ==> last == 0)
            && r.wal == Open(image).file
            && (r.wal == OnDisk(r.wal.current.bytes) || (|image| < 16 && r.wal == Recreated(OnDisk(image))))
  {
    hide Describes, Open, Selected, Import, Load, LogBytes, WalOk, StoreOk, ExportOk, SnapshotOk, FirmOk, ReplayAt,
      Encode, Loggable;
    HistoryFacts(s);
    var r := CrashLeaves(s, image);
    RemnantRecovers(s, image, r);
    SurvivedBound(s, image, r);
    RecoverFile(image, s.snap, at);
    first := RemnantFile(s, image, r);
    var last := ResumesAt(image);
    assert s.log[Min(Offset(s), last)..last] == s.log[Offset(s)..Survived(s, r)];
  }

  /** The file after recovery of a remnant, as a stretch of the history that ends at the last offset. */
  lemma RemnantFile(s: State, image: Bytes, r: Remnant) returns (first: nat)
    requires Logged(s.log) && Describes(r, s.log, image) && Offset(s) <= |s.log|
    requires r.Frames? ==> r.first <= Offset(s)
    ensures Open(image).Opened?
    ensures var o := Open(image);
            && first <= o.last <= |s.log| && first <= Offset(s)
            && o.file.current.bytes == HEADER + LogBytes(s.log[..o.last], first, o.last)
            && (first == o.last ==> o.last == 0)
            && (o.file == OnDisk(o.file.current.bytes) || (|image| < 16 && o.file == Recreated(OnDisk(image))))
  {
    hide Load, LogBytes, Encode, Open, Records, RecordAt, Loggable;
    NoFrames([], 0);
    assert HEADER + [] == HEADER && s.log[..0] == [];
    match r {
      case Bare =>
        OpenBare(image);
        assert [] + HEADER == HEADER;
        first := 0;
      case Frames(a, i, torn, more) =>
        CutLogRecovers(s.log, a, i, torn, more);
        if a < i {
          first := a;
          SameBytes(s.log, s.log[..i], a, i);
        } else {
          first := 0;
          NoFrames(s.log, a);
        }
    }
  }

  // ----- What the next recovery replays -----

  /** Recovery of whole frames that end at a given offset, above the snapshot's offset. */
  lemma WholeLogReplays(log: seq<Op>, first: nat, snap: Option<Bytes>, at: int)
    requires Logged(log) && first <= |log| && first <= Load(snap).offset
    ensures var out := Recover(HEADER + LogBytes(log, first, |log|), snap, at);
            && out.Recovered? && out.replayed == log[Min(Load(snap).offset, |log|)..]
            && out.last == if first < |log| then |log| else 0
  {
    hide Load, LogBytes, Loggable, Open, Selected, Records;
    var bytes, n := HEADER + LogBytes(log, first, |log|), Load(snap).offset;
    CutLogRecovers(log, first, |log|, 0, false);
    assert bytes + [] == bytes;
    SelectedStretch(log, first, |log|, n);
    assert log[Min(n, |log|)..|log|] == log[Min(n, |log|)..];
  }

  /** A header not yet synced comes back from a crash as a log without records. */
  lemma RecreatedReplaysNothing(image: Bytes, image': Bytes, snap: Option<Bytes>, at: int)
    requires |image| < 16 && Recreated(OnDisk(image)).Survives(image')
    ensures Recover(image', snap, at).Recovered? && Recover(image', snap, at).replayed == []
    ensures Recover(image', snap, at).last == 0
  {
    hide Load, ScanFrom;
    assert [] + HEADER == HEADER;
    if |image'| < 16 {
      OpenBare(image');
    } else {
      assert image' == HEADER[..16] == HEADER;
      CleanLogRecovers([]);
      assert HEADER + EncodeAll([]) == HEADER;
    }
  }

  /**
   For every state in order, every image a crash may leave of it and every further sequence of
   acknowledged writes: the next recovery, from whatever a crash leaves then, replays what the first
   one did and all the writes but the first `Gap` of them.
   */
  lemma ResumedWritesAreSkipped(s: State, image: Bytes, at: int, ops: seq<Op>, image': Bytes, later: int)
    requires Inv(s) && s.wal.Survives(image) && s.now <= at && s.mode == Always
    ensures Recover(image, s.snap, at).Recovered?
    ensures var r := Restarted(s, image, at);
            CanWrite(r, ops) && WriteAll(r, ops).wal.Survives(image') ==>
              && Recover(image', r.snap, later).Recovered?
              && Recover(image', r.snap, later).replayed ==
                 Recover(image, s.snap, at).replayed + ops[Min(|ops|, Gap(s, image))..]
  {
    hide Load, LogBytes, Loggable, Inv, WriteAll, Recover, Restarted, CanWrite, Open;
    var first := RestartShape(s, image, at);
    var r, last, n := Restarted(s, image, at), ResumesAt(image), Offset(s);
    var base := s.log[..last];
    if CanWrite(r, ops) && WriteAll(r, ops).wal.Survives(image') {
      if ops == [] && r.wal != OnDisk(r.wal.current.bytes) {
        WriteNothing(r);
        RecreatedReplaysNothing(image, image', s.snap, later);
        assert last == 0 by { OpenBare(image); }
      } else {
        NextReplay(r, base, first, ops, image', later);
      }
      SkippedWrites(s.log, last, n, ops);
    }
  }

  /** The recovery after acknowledged writes onto a file of whole frames. */
  lemma NextReplay(r: State, base: seq<Op>, first: nat, ops: seq<Op>, image: Bytes, later: int)
    requires CanWrite(r, ops) && WriteAll(r, ops).wal.Survives(image)
    requires first <= |base| == r.lastOffset && first <= Offset(r) && Logged(base)
    requires r.wal.current.bytes == HEADER + LogBytes(base, first, |base|)
    requires ops == [] ==> r.wal == OnDisk(r.wal.current.bytes)
    ensures Recover(image, r.snap, later).Recovered?
    ensures Recover(image, r.snap, later).replayed == (base + ops)[Min(Offset(r), |base| + |ops|)..]
  {
    hide Load, LogBytes, Loggable, WriteAll, Recover, CanWrite;
    CanWriteLogged(r, base, ops);
    WritesExtend(r, base, first, ops);
    if ops == [] {
      WriteNothing(r);
    }
    var whole := HEADER + LogBytes(base + ops, first, |base| + |ops|);
    assert image == whole[..|whole|] == whole;
    WholeLogReplays(base + ops, first, r.snap, later);
  }

  lemma WriteNothing(s: State)
    requires CanWrite(s, [])
    ensures WriteAll(s, []) == s
  {
  }

  lemma CanWriteLogged(s: State, base: seq<Op>, ops: seq<Op>)
    requires CanWrite(s, ops) && s.lastOffset == |base| && forall op :: op in base ==> Loggable(op)
    ensures Logged(base + ops)
  {
    hide Loggable;
  }

  lemma SkippedWrites(log: seq<Op>, last: nat, n: nat, ops: seq<Op>)
    requires last <= |log|
    ensures (log[..last] + ops)[Min(n, last + |ops|)..] ==
            log[Min(n, last)..last] + ops[Min(|ops|, if last < n then n - last else 0)..]
  {
  }

  /**
   A crash inside recovery, with the tail cut off but the cut not yet synced, or with a new header that is
   not yet synced: the next recovery finds the old bytes or the new ones, and either way replays the same
   operations and resumes at the same offset.
   */
  lemma CrashInsideRecovery(s: State, image: Bytes, at: int, image': Bytes, later: int)
    requires Inv(s) && s.wal.Survives(image) && s.now <= at
    requires image' == image || (Open(image).Opened? && Open(image).file.Survives(image'))
    ensures Recover(image, s.snap, at).Recovered? && Recover(image', s.snap, later).Recovered?
    ensures Recover(image', s.snap, later).replayed == Recover(image, s.snap, at).replayed
    ensures Recover(image', s.snap, later).last == Recover(image, s.snap, at).last
  {
    hide Load, LogBytes, Loggable, Inv, Recover, Restarted, Open;
    var first := RestartShape(s, image, at);
    var last, n := ResumesAt(image), Offset(s);
    RecoverFile(image, s.snap, at);
    if image' == image {
      SameReplay(image, s.snap, at, later);
    } else if Open(image).file == OnDisk(Open(image).file.current.bytes) {
      var base, whole := s.log[..last], Open(image).file.current.bytes;
      assert image' == whole[..|whole|] == whole;
      assert Logged(base) by { PrefixLogged(s.log, last); }
      WholeLogReplays(base, first, s.snap, later);
      assert base[Min(n, last)..] == s.log[Min(n, last)..last];
    } else {
      RecreatedReplaysNothing(image, image', s.snap, later);
      assert last == 0 by { OpenBare(image); }
    }
  }

  lemma SameReplay(image: Bytes, snap: Option<Bytes>, at: int, later: int)
    requires Recover(image, snap, at).Recovered?
    ensures Recover(image, snap, later).Recovered?
    ensures Recover(image, snap, later).replayed == Recover(image, snap, at).replayed
    ensures Recover(image, snap, later).last == Recover(image, snap, at).last
  {
    hide Open, Load, Selected, Import, ReplayAt;
  }

  lemma PrefixLogged(log: seq<Op>, n: nat)
    requires Logged(log) && n <= |log|
    ensures Logged(log[..n])
  {
    hide Loggable;
  }

  // ----- The property, and exactly when it holds -----

  predicate EndsWith(all: seq<Op>, ops: seq<Op>) {
    |ops| <= |all| && all[|all| - |ops|..] == ops
  }

  /** Whatever is acknowledged from here on, every crash leaves it to be replayed last and in order. */
  ghost predicate WritesSurvive(r: State) {
    forall ops: seq<Op>, image: Bytes, later: int ::
      CanWrite(r, ops) && WriteAll(r, ops).wal.Survives(image) ==>
        Recover(image, r.snap, later).Recovered? && EndsWith(Recover(image, r.snap, later).replayed, ops)
  }

  /**
   The acknowledged writes after a restart survive every crash if and only if the log found on disk
   ends at or above the snapshot's offset.
   */
  lemma WritesSurviveIff(s: State, image: Bytes, at: int)
    requires Inv(s) && s.wal.Survives(image) && s.now <= at && s.mode == Always && Offset(s) + 1 < TWO64
    ensures Recover(image, s.snap, at).Recovered?
    ensures WritesSurvive(Restarted(s, image, at)) <==> Resumes(s, image)
  {
    hide Load, Loggable, Inv, WriteAll, Recover, Restarted, CanWrite, Open;
    var first := RestartShape(s, image, at);
    var r := Restarted(s, image, at);
    if Resumes(s, image) {
      forall ops: seq<Op>, image': Bytes, later: int | CanWrite(r, ops) && WriteAll(r, ops).wal.Survives(image')
        ensures Recover(image', r.snap, later).Recovered? && EndsWith(Recover(image', r.snap, later).replayed, ops)
      {
        ResumedWritesAreSkipped(s, image, at, ops, image', later);
        assert ops[Min(|ops|, 0)..] == ops;
      }
    } else {
      SomethingLoggable();
      OneWriteLost(s, image, at, DelOp([]));
    }
  }

  /** Below the snapshot's offset the very first acknowledged write is lost, whatever it is. */
  lemma OneWriteLost(s: State, image: Bytes, at: int, op: Op)
    requires Inv(s) && s.wal.Survives(image) && s.now <= at && s.mode == Always && Offset(s) + 1 < TWO64
    requires !Resumes(s, image) && Loggable(op)
    ensures Recover(image, s.snap, at).Recovered?
    ensures var r := Restarted(s, image, at);
            && CanWrite(r, [op]) && !WritesSurvive(r)
            && forall image' :: WriteAll(r, [op]).wal.Survives(image') ==>
                 forall later ::
                   Recover(image', r.snap, later).Recovered? && Recover(image', r.snap, later).replayed == []
  {
    hide Load, Loggable, Inv, WriteAll, Recover, Restarted, Open;
    var first := RestartShape(s, image, at);
    var r := Restarted(s, image, at);
    assert Recover(image, s.snap, at).replayed == [];
    forall image', later | WriteAll(r, [op]).wal.Survives(image')
      ensures Recover(image', r.snap, later).Recovered? && Recover(image', r.snap, later).replayed == []
    {
      ResumedWritesAreSkipped(s, image, at, [op], image', later);
    }
    var left := WriteAll(r, [op]).wal.current.bytes;
    WritesExtend(r, s.log[..r.lastOffset], first, [op]);
    assert left[..|left|] == left;
    assert WriteAll(r, [op]).wal.Survives(left);
    LossRefutes(r, op, left, at);
  }

  lemma SomethingLoggable()
    ensures Loggable(DelOp([]))
  {
  }

  lemma LossRefutes(r: State, op: Op, left: Bytes, later: int)
    requires CanWrite(r, [op]) && WriteAll(r, [op]).wal.Survives(left)
    requires Recover(left, r.snap, later).Recovered? && Recover(left, r.snap, later).replayed == []
    ensures !WritesSurvive(r)
  {
    hide CanWrite, WriteAll, Recover;
    assert !EndsWith(Recover(left, r.snap, later).replayed, [op]);
  }

  // ----- A clean stop leaves such a log -----

  /** A completed snapshot stands at the whole history and leaves a log without records. */
  lemma SnapshotLeavesBareLog(s: State)
    requires Inv(s) && Enabled(s, SyncHeader)
    ensures var e := Do(s, SyncHeader);
            && e.phase.Idle? && e.wal == OnDisk(HEADER) && Offset(e) == |s.log| == |e.log|
            && (forall image :: e.wal.Survives(image) ==> image == HEADER)
            && ResumesAt(HEADER) == 0 && Gap(e, HEADER) == |s.log|
            && (Resumes(e, HEADER) <==> |s.log| == 0)
  {
    hide Load, LogBytes, Open, StoreOk, SnapshotOk, ExportOk, Loggable;
    CleanLogRecovers([]);
    assert HEADER + EncodeAll([]) == HEADER;
    assert HEADER[..16] == HEADER;
  }
}
