/** What survives in every fsync mode: all that was written before a completed sync or snapshot. */
module SyncedWrites {
  import opened Common
  import opened FlatMap
  import opened Disk
  import opened Wal
  import opened Mutation
  import opened Replay
  import opened LogImage
  import opened Recovery
  import opened Durability
  import opened CrashSafety

  /** The operations that are durable in the log or held by the snapshot. */
  function Kept(s: State): seq<Op> {
    s.log[..Min(s.firm, |s.log|)]
  }

  lemma RestartKept(s: State, image: Bytes, at: int)
    requires Inv(s) && s.wal.Survives(image) && s.now <= at && Recover(image, s.snap, at).Recovered?
    ensures Kept(s) <= Kept(Restarted(s, image, at))
  {
    hide Load, Live, WalOk, StoreOk, ExportOk, SnapshotOk, Recover, LogBytes, Logged;
    var m := CrashRecovers(s, image, at);
    var log := Restarted(s, image, at).log;
    assert log == s.log[..Offset(s)] + s.log[Offset(s)..m] == s.log[..m];
  }

  lemma KeptStep(s: State, step: Step)
    requires Inv(s) && Enabled(s, step)
    ensures Kept(s) <= Kept(Do(s, step))
    ensures step.SyncLog? || step.Rename? ==> s.log <= Kept(Do(s, step))
  {
    hide Live, WalOk, StoreOk, SnapshotOk, Run, ReplayAt, Recover, Restarted, LogBytes, Logged;
    if step.Restart? {
      RestartKept(s, step.image, step.at);
    }
  }

  lemma {:induction false} KeptNeverLost(states: seq<State>, steps: seq<Step>, i: nat, j: nat)
    requires IsRun(states, steps) && i <= j <= |steps|
    ensures Kept(states[i]) <= Kept(states[j])
    decreases j
  {
    hide Inv, Enabled, Do, Resumes, Kept;
    if i < j {
      KeptNeverLost(states, steps, i, j - 1);
      RunKeeps(states, steps, j - 1);
      KeptStep(states[j - 1], steps[j - 1]);
    }
  }

  /**
   In every fsync mode, for every run and a crash at any of its points: whatever had been written when a sync
   of the log or the replacement of the snapshot took place is there after recovery, through any number of
   restarts in between, and what recovery shows is a prefix of the operations in order.
   */
  lemma SyncedSurvives(states: seq<State>, steps: seq<Step>, i: nat, j: nat, image: Bytes, at: int) returns (m: nat)
    requires IsRun(states, steps) && i < j <= |steps| && (steps[i].SyncLog? || steps[i].Rename?)
    requires states[j].wal.Survives(image) && states[j].now <= at
    ensures var s := states[j];
            && Offset(s) <= m <= |s.log| && Recover(image, s.snap, at).Recovered?
            && states[i].log <= s.log[..m]
            && Recover(image, s.snap, at).replayed == s.log[Offset(s)..m]
            && Recover(image, s.snap, at).base == Live(s.base, at)
  {
    hide Inv, Enabled, Do, Resumes, Recover, Live;
    RunKeeps(states, steps, i);
    KeptStep(states[i], steps[i]);
    KeptNeverLost(states, steps, i + 1, j);
    RunKeeps(states, steps, j);
    m := CrashRecovers(states[j], image, at);
    assert Kept(states[j]) <= states[j].log[..m];
  }
}
