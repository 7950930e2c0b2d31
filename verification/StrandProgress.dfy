/** The strands never stall: without further input every command of an open connection gets executed. */
module StrandProgress {
  import opened Common
  import opened Resp
  import opened Strand
  import opened StrandSafety
  import opened StrandRuns

  // ----- A connection with commands in flight has one of them under way -----

  lemma {:induction false} SomeJob(jobs: seq<Job>, id: nat) returns (index: nat)
    requires JobsOf(jobs, id) != []
    ensures index < |jobs| && jobs[index].connection == id
    decreases |jobs|
  {
    index := |jobs| - 1;
    if jobs[index].connection != id {
      index := SomeJob(jobs[..index], id);
    }
  }

  lemma {:induction false} SomeDone(done: seq<Completion>, id: nat) returns (index: nat)
    requires DoneOf(done, id) != []
    ensures index < |done| && done[index].connection == id
    decreases |done|
  {
    index := |done| - 1;
    if done[index].connection != id {
      index := SomeDone(done[..index], id);
    }
  }

  /** No command waits for a strand that nobody runs. */
  lemma UnderWay(s: Server, fd: int)
    requires Inv(s) && fd in s.conns && s.conns[fd].inflight > 0
    ensures var id := s.conns[fd].id;
            || (exists i :: 0 <= i < |s.jobs| && s.jobs[i].connection == id)
            || (exists i :: 0 <= i < |s.completions| && s.completions[i].connection == id)
  {
    hide JobsOf, DoneOf, IdOk, Inv, ReplyOk, OutputOk;
    var id := s.conns[fd].id;
    InvAt(s, fd);
    if JobsOf(s.jobs, id) != [] {
      var i := SomeJob(s.jobs, id);
    } else {
      var i := SomeDone(s.completions, id);
    }
  }

  lemma NeverStalls(states: seq<Server>, steps: seq<Step>, maxOutput: nat, n: nat, fd: int)
    requires IsRun(states, steps, maxOutput) && n < |states|
    requires fd in states[n].conns && states[n].conns[fd].inflight > 0
    ensures var s, id := states[n], states[n].conns[fd].id;
            || (exists i :: 0 <= i < |s.jobs| && s.jobs[i].connection == id)
            || (exists i :: 0 <= i < |s.completions| && s.completions[i].connection == id)
  {
    hide Inv;
    RunInv(states, steps, maxOutput, n);
    UnderWay(states[n], fd);
  }

  // ----- What a worker or a completion does -----

  /** The workers run jobs and the I/O thread takes their completions; neither needs input. */
  predicate Serves(step: Step) {
    step.Execute? || step.Deliver?
  }

  /** The connections and their commands stay; the history of one identity advances. */
  ghost predicate Advances(s: Server, s': Server, id: nat) {
    && id in s.hist && id in s'.hist && s'.hist == s.hist[id := s'.hist[id]]
    && s'.nextId == s.nextId && s'.conns.Keys == s.conns.Keys
    && (forall fd :: fd in s.conns ==> s'.conns[fd].id == s.conns[fd].id)
    && s'.hist[id].enqueued == s.hist[id].enqueued
    && 2 * |s'.hist[id].executed| - |s'.completions| > 2 * |s.hist[id].executed| - |s.completions|
  }

  lemma LaunchedAdvances(s: Server, s0: Server, fd: int, c: Conn, pooled: bool, payload: Bytes)
    requires c.id in s.hist && fd in s.conns && s.conns[fd].id == c.id && c.id in s0.hist
    requires s.hist == s0.hist[c.id := s.hist[c.id]] && s.hist[c.id].enqueued == s0.hist[c.id].enqueued
    requires s.hist[c.id].executed == s0.hist[c.id].executed && s.nextId == s0.nextId && s.conns == s0.conns
    requires |s.completions| < |s0.completions|
    ensures Advances(s0, Launched(s, fd, c, pooled, payload), c.id)
  {
  }

  lemma DeliveredAdvances(s: Server, s0: Server, fd: int, done: Completion, pooled: bool, payload: Bytes)
    requires fd in s.conns && s.conns[fd].id in s.hist
    requires s.hist == s0.hist && s.nextId == s0.nextId && s.conns == s0.conns && |s.completions| < |s0.completions|
    ensures Advances(s0, Delivered(s, fd, done, pooled, payload), s.conns[fd].id)
  {
    hide Flush, Flushed, Note, Launched, Advances;
    var c := s.conns[fd];
    var noted := Note(c, done.sequence, done.payload);
    NoteKeepsId(c, done.sequence, done.payload);
    FlushKeeps(noted, s.maxOutput);
    var h := s.hist[c.id];
    var s' := s.(hist := s.hist[c.id := h.(chunks := h.chunks + Flushed(noted, s.maxOutput))]);
    LaunchedAdvances(s', s0, fd, Flush(noted, s.maxOutput), pooled, payload);
  }

  lemma ServingAdvances(s: Server, step: Step) returns (id: nat)
    requires Inv(s) && Enabled(s, step) && Serves(step)
    ensures Advances(s, Do(s, step), id)
  {
    hide Delivered, AtId, AtFd;
    match step {
      case Execute(index, _) => id := s.jobs[index].connection;
      case Deliver(pooled, payload) =>
        id := s.completions[0].connection;
        var t := s.(completions := s.completions[1..]);
        if fd :| fd in t.conns && Owner(t, id, fd) {
          assert Do(s, step) == Delivered(t, fd, s.completions[0], pooled, payload);
          DeliveredAdvances(t, s, fd, s.completions[0], pooled, payload);
        } else {
          assert s.hist == s.hist[id := s.hist[id]];
        }
    }
  }

  // ----- How much there is to do -----

  function Missing(h: History): nat {
    if |h.executed| <= |h.enqueued| then |h.enqueued| - |h.executed| else 0
  }

  /** Commands of the first identities that have not been executed. */
  function Unexecuted(hist: map<nat, History>, n: nat): nat {
    if n == 0 then 0 else Unexecuted(hist, n - 1) + if n - 1 in hist then Missing(hist[n - 1]) else 0
  }

  lemma {:induction false} UnexecutedAfter(hist: map<nat, History>, id: nat, h: History, n: nat)
    requires id in hist
    ensures Unexecuted(hist[id := h], n) ==
            Unexecuted(hist, n) + if id < n then Missing(h) - Missing(hist[id]) else 0
  {
    if n > 0 {
      UnexecutedAfter(hist, id, h, n - 1);
    }
  }

  function Work(s: Server): nat {
    2 * Unexecuted(s.hist, s.nextId) + |s.completions|
  }

  lemma ExecutedWithin(s: Server, id: nat)
    requires Inv(s) && id in s.hist
    ensures id < s.nextId && |s.hist[id].executed| <= |s.hist[id].enqueued|
  {
    hide JobsOf, DoneOf;
    assert AtId(s, id);
  }

  /** Every execution and every completion leaves less to do. */
  lemma ServingWorks(s: Server, step: Step)
    requires Inv(s) && Enabled(s, step) && Serves(step)
    ensures Inv(Do(s, step)) && Work(Do(s, step)) < Work(s)
  {
    hide Inv, Do, Enabled, Unexecuted;
    StepKeeps(s, step);
    var id := ServingAdvances(s, step);
    var s' := Do(s, step);
    ExecutedWithin(s, id);
    ExecutedWithin(s', id);
    UnexecutedAfter(s.hist, id, s'.hist[id], s.nextId);
  }

  // ----- Serving until nothing is left -----

  ghost predicate IsServing(states: seq<Server>, steps: seq<Step>) {
    && |states| == |steps| + 1
    && forall i :: 0 <= i < |steps| ==>
         Serves(steps[i]) && Enabled(states[i], steps[i]) && states[i + 1] == Do(states[i], steps[i])
  }

  /** What serving leaves as it is: who is connected and what they asked for. */
  ghost predicate SameRequests(s: Server, s': Server) {
    && s'.conns.Keys == s.conns.Keys && (forall fd :: fd in s.conns ==> s'.conns[fd].id == s.conns[fd].id)
    && s'.hist.Keys == s.hist.Keys && forall id :: id in s.hist ==> s'.hist[id].enqueued == s.hist[id].enqueued
  }

  lemma {:induction false} ServingEnds(states: seq<Server>, steps: seq<Step>, n: nat)
    requires IsServing(states, steps) && Inv(states[0]) && n < |states|
    ensures Inv(states[n]) && SameRequests(states[0], states[n]) && Work(states[n]) + n <= Work(states[0])
  {
    hide Inv, Do, Enabled, Work;
    if n > 0 {
      ServingEnds(states, steps, n - 1);
      ServingWorks(states[n - 1], steps[n - 1]);
      var id := ServingAdvances(states[n - 1], steps[n - 1]);
    }
  }

  /**
   From every state of every run, and without further input: workers and completions take at most as many
   steps as there is work, and when they cannot go on, every command queued on every open connection has been
   executed, nothing is in flight, and all replies were appended unless the connection is closing.
   */
  lemma AllServed(
    states: seq<Server>, steps: seq<Step>, maxOutput: nat, n: nat, later: seq<Server>, serving: seq<Step>, fd: int)
    requires IsRun(states, steps, maxOutput) && n < |states|
    requires IsServing(later, serving) && later[0] == states[n]
    ensures |serving| <= Work(states[n])
    ensures var last := later[|serving|];
            (forall step :: Serves(step) ==> !Enabled(last, step)) && fd in states[n].conns ==>
              && fd in last.conns && last.conns[fd].id == states[n].conns[fd].id
              && var c := last.conns[fd];
                 && c.id in last.hist && c.id in states[n].hist && c.inflight == 0
                 && last.hist[c.id].executed == states[n].hist[c.id].enqueued
                 && (c.nextResponse == |last.hist[c.id].executed| || c.closing)
  {
    hide Inv, Do, Work, IsRun, IsServing;
    RunInv(states, steps, maxOutput, n);
    ServingLast(later, serving);
    var last := later[|serving|];
    if (forall step :: Serves(step) ==> !Enabled(last, step)) && fd in states[n].conns {
      NothingLeft(last, fd);
    }
  }

  lemma ServingLast(states: seq<Server>, steps: seq<Step>)
    requires IsServing(states, steps) && Inv(states[0])
    ensures |states| == |steps| + 1 && |steps| <= Work(states[0])
    ensures Inv(states[|steps|]) && SameRequests(states[0], states[|steps|])
  {
    hide Inv, Work, SameRequests;
    ServingEnds(states, steps, |steps|);
  }

  lemma NothingLeft(s: Server, fd: int)
    requires Inv(s) && fd in s.conns && forall step :: Serves(step) ==> !Enabled(s, step)
    ensures var c := s.conns[fd];
            && c.id in s.hist && c.inflight == 0 && s.hist[c.id].executed == s.hist[c.id].enqueued
            && (c.nextResponse == |s.hist[c.id].executed| || c.closing)
  {
    hide JobsOf, DoneOf, InOrder, Flatten, Replies, Errors, Inv;
    var c := s.conns[fd];
    CanServeIff(s);
    if c.inflight > 0 {
      UnderWay(s, fd);
    }
    InvAt(s, fd);
    NoneDone(c.id);
    assert s.hist[c.id].enqueued[..|s.hist[c.id].enqueued|] == s.hist[c.id].enqueued;
  }

  lemma CanServeIff(s: Server)
    requires Inv(s)
    ensures (exists step :: Serves(step) && Enabled(s, step)) <==> s.jobs != [] || s.completions != []
  {
    hide AtId, AtFd;
    if s.jobs != [] {
      assert s.jobs[0] in s.jobs;
      assert Serves(Execute(0, [])) && Enabled(s, Execute(0, []));
    } else if s.completions != [] {
      assert s.completions[0] in s.completions;
      assert Serves(Deliver(true, [])) && Enabled(s, Deliver(true, []));
    }
  }

  /** A closing connection with nothing in flight can be written out and removed. */
  lemma CanDrain(states: seq<Server>, steps: seq<Step>, maxOutput: nat, n: nat, fd: int)
    requires IsRun(states, steps, maxOutput) && n < |states|
    requires fd in states[n].conns && states[n].conns[fd].closing && states[n].conns[fd].inflight == 0
    ensures var s := states[n];
            var send := Send(fd, |s.conns[fd].output|);
            Enabled(s, send) && Enabled(Do(s, send), CloseDrained(fd))
  {
    hide JobsOf, DoneOf, IdOk, LiveOk;
    RunInv(states, steps, maxOutput, n);
  }
}
