/** The log file as the encoding of a stretch of the operation history, and what a cut leaves of it. */
module LogImage {
  import opened Common
  import opened Wal
  import opened Mutation

  /** The operation can be logged and recovered: it is writable and its frame does not wrap. */
  predicate Loggable(op: Op) {
    Writable(op) && Small(ToRecord(op, 0))
  }

  ghost predicate Logged(log: seq<Op>) {
    |log| < TWO64 && forall op :: op in log ==> Loggable(op)
  }

  /** Operation number `i` of the history is logged at offset `i + 1`. */
  function RecordAt(log: seq<Op>, i: nat): Record
    requires i < |log| < TWO64
  {
    ToRecord(log[i], i + 1)
  }

  function Records(log: seq<Op>, start: nat, stop: nat): (rs: seq<Record>)
    requires start <= stop <= |log| < TWO64
    ensures |rs| == stop - start
  {
    seq(stop - start, i requires 0 <= i < stop - start => RecordAt(log, start + i))
  }

  function LogBytes(log: seq<Op>, start: nat, stop: nat): Bytes
    requires start <= stop <= |log| < TWO64
  {
    EncodeAll(Records(log, start, stop))
  }

  lemma FirstRecord(log: seq<Op>, start: nat, stop: nat)
    requires start < stop <= |log| < TWO64
    ensures Records(log, start, stop) == [RecordAt(log, start)] + Records(log, start + 1, stop)
  {
  }

  lemma FirstFrame(log: seq<Op>, start: nat, stop: nat)
    requires start < stop <= |log| < TWO64
    ensures LogBytes(log, start, stop) == Encode(RecordAt(log, start)) + LogBytes(log, start + 1, stop)
  {
    hide Encode, Records, RecordAt;
    FirstRecord(log, start, stop);
    var rs := Records(log, start, stop);
    assert rs[1..] == Records(log, start + 1, stop);
  }

  lemma NoFrames(log: seq<Op>, start: nat)
    requires start <= |log| < TWO64
    ensures LogBytes(log, start, start) == []
  {
  }

  lemma {:induction false} RecordsSound(log: seq<Op>, start: nat, stop: nat)
    requires start <= stop <= |log| && Logged(log)
    ensures AllSmall(Records(log, start, stop)) && Increasing(start, Records(log, start, stop))
    ensures LastOffset(start, Records(log, start, stop)) == stop
    decreases stop - start
  {
    if start < stop {
      FirstRecord(log, start, stop);
      assert log[start] in log;
      RecordsSound(log, start + 1, stop);
      var rs, more := Records(log, start, stop), Records(log, start + 1, stop);
      assert rs[1..] == more;
    }
  }

  lemma IncreasingFrom(rs: seq<Record>, low: uint64, high: uint64)
    requires low <= high && Increasing(high, rs)
    ensures Increasing(low, rs)
  {
  }

  /** Only the operations of the stretch matter. */
  lemma SameStretch(log: seq<Op>, log': seq<Op>, start: nat, stop: nat)
    requires start <= stop <= |log| < TWO64 && stop <= |log'| < TWO64
    requires log[..stop] == log'[..stop]
    ensures Records(log, start, stop) == Records(log', start, stop)
  {
    var rs, rs' := Records(log, start, stop), Records(log', start, stop);
    forall i | 0 <= i < |rs|
      ensures rs[i] == rs'[i]
    {
      assert log[start + i] == log[..stop][start + i];
      assert log'[start + i] == log'[..stop][start + i];
      assert rs[i] == RecordAt(log, start + i) && rs'[i] == RecordAt(log', start + i);
    }
  }

  lemma {:induction false} Extended(log: seq<Op>, start: nat, stop: nat)
    requires start <= stop < |log| < TWO64
    ensures LogBytes(log, start, stop + 1) == LogBytes(log, start, stop) + Encode(RecordAt(log, stop))
    decreases stop - start
  {
    hide Encode, LogBytes, RecordAt;
    FirstFrame(log, start, stop + 1);
    if start == stop {
      NoFrames(log, stop);
      NoFrames(log, stop + 1);
      assert Encode(RecordAt(log, stop)) + [] == [] + Encode(RecordAt(log, stop));
    } else {
      FirstFrame(log, start, stop);
      Extended(log, start + 1, stop);
    }
  }

  /** Appending to the history appends one frame to the log. */
  lemma AppendedBytes(log: seq<Op>, start: nat, op: Op)
    requires start <= |log| && |log| + 1 < TWO64
    ensures LogBytes(log + [op], start, |log| + 1) ==
            LogBytes(log, start, |log|) + Encode(ToRecord(op, |log| + 1))
  {
    hide Encode, EncodeAll, ToRecord;
    assert (log + [op])[..|log|] == log[..|log|];
    SameStretch(log, log + [op], start, |log|);
    Extended(log + [op], start, |log|);
  }

  /**
   Cutting the log after `k` bytes leaves whole frames up to some operation and a strict prefix of
   the next frame; a frame that ends within the cut is whole.
   */
  lemma {:induction false} CutLog(log: seq<Op>, start: nat, stop: nat, k: nat, j: nat)
    returns (i: nat, torn: nat)
    requires start <= stop <= |log| < TWO64 && k <= |LogBytes(log, start, stop)|
    requires start <= j <= stop && |LogBytes(log, start, j)| <= k
    ensures start <= j <= i <= stop
    ensures i == stop ==> torn == 0
    ensures i < stop ==> torn < |Encode(RecordAt(log, i))|
    ensures LogBytes(log, start, stop)[..k] ==
            LogBytes(log, start, i) + if i < stop then Encode(RecordAt(log, i))[..torn] else []
    decreases stop - start
  {
    hide Encode, LogBytes, RecordAt;
    NoFrames(log, start);
    if start == stop {
      i, torn := start, 0;
      assert LogBytes(log, start, stop)[..k] == [] + [];
    } else {
      FirstFrame(log, start, stop);
      var e := Encode(RecordAt(log, start));
      if k < |e| {
        i, torn := start, k;
        if start < j {
          FirstFrame(log, start, j);
          assert false;
        }
        assert LogBytes(log, start, stop)[..k] == [] + e[..k];
      } else {
        if start < j {
          FirstFrame(log, start, j);
        } else {
          NoFrames(log, start + 1);
        }
        i, torn := CutLog(log, start + 1, stop, k - |e|, if start < j then j else start + 1);
        FirstFrame(log, start, i);
        var tail := if i < stop then Encode(RecordAt(log, i))[..torn] else [];
        assert LogBytes(log, start, stop)[..k] == e + LogBytes(log, start + 1, stop)[..k - |e|];
        assert e + (LogBytes(log, start + 1, i) + tail) == e + LogBytes(log, start + 1, i) + tail;
      }
    }
  }

  /** Recovery of a cut log returns exactly the whole frames. */
  lemma CutLogRecovers(log: seq<Op>, start: nat, i: nat, torn: nat, more: bool)
    requires Logged(log) && start <= i <= |log|
    requires more ==> i < |log| && torn < |Encode(RecordAt(log, i))|
    ensures var tail := if more then Encode(RecordAt(log, i))[..torn] else [];
            Open(HEADER + LogBytes(log, start, i) + tail) ==
            Opened(Records(log, start, i), Disk.OnDisk(HEADER + LogBytes(log, start, i)),
                   if start < i then i else 0)
  {
    hide Open, Encode, EncodeAll, AllSmall;
    RecordsSound(log, start, i);
    var rs := Records(log, start, i);
    IncreasingFrom(rs, 0, start);
    if more {
      assert log[i] in log;
      TornTailRecovers(rs, RecordAt(log, i), torn);
    } else {
      CleanLogRecovers(rs);
      assert HEADER + LogBytes(log, start, i) + [] == HEADER + LogBytes(log, start, i);
    }
  }
}
