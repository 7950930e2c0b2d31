/** The strand protocol over whole runs: every interleaving of the I/O thread and the workers. */
module StrandRuns {
  import opened Common
  import opened Resp
  import opened Strand
  import opened StrandSafety

  ghost predicate IsRun(states: seq<Server>, steps: seq<Step>, maxOutput: nat) {
    && |states| == |steps| + 1 && states[0] == Start(maxOutput)
    && forall i :: 0 <= i < |steps| ==> Enabled(states[i], steps[i]) && states[i + 1] == Do(states[i], steps[i])
  }

  // ----- What was sent stays a prefix of what was appended, also after the connection is gone -----

  predicate IsPrefix(a: Bytes, b: Bytes) {
    |a| <= |b| && a == b[..|a|]
  }

  predicate SentOk(h: History) {
    !h.broken ==> IsPrefix(h.sent, Flatten(h.chunks))
  }

  ghost predicate AllSentOk(s: Server) {
    forall id :: id in s.hist ==> SentOk(s.hist[id])
  }

  ghost predicate Open(s: Server, id: nat) {
    exists fd :: Owner(s, id, fd)
  }

  predicate SameTraffic(h: History, h': History) {
    h'.sent == h.sent && h'.chunks == h.chunks && h'.broken == h.broken
  }

  /** Only a step of its own connection touches the traffic of an identity. */
  lemma TrafficKept(s: Server, step: Step, id: nat)
    requires Inv(s) && Enabled(s, step)
    requires id in Do(s, step).hist && !Open(s, id) && !Open(Do(s, step), id)
    ensures id in s.hist && SameTraffic(s.hist[id], Do(s, step).hist[id])
  {
    hide IdOk, LiveOk, JobsOf, DoneOf, Flush, Flushed, Note, Flatten;
    var s' := Do(s, step);
    forall fd | fd in s.conns
      ensures s.conns[fd].id != id
    {
      assert Owner(s, id, fd) <==> s.conns[fd].id == id;
    }
    if step.Accept? {
      assert Owner(s', s.nextId, step.fd);
    } else if step.Deliver? {
      var done := s.completions[0];
      var t := s.(completions := s.completions[1..]);
      if fd :| fd in t.conns && Owner(t, done.connection, fd) {
        assert Do(s, step) == Delivered(t, fd, done, step.pooled, step.payload);
        DeliveredTouches(t, fd, done, step.pooled, step.payload, id);
      }
    }
  }

  lemma DeliveredTouches(s: Server, fd: int, done: Completion, pooled: bool, payload: Bytes, id: nat)
    requires fd in s.conns && s.conns[fd].id in s.hist && s.conns[fd].id != id
    ensures var s' := Delivered(s, fd, done, pooled, payload);
            && (id in s'.hist <==> id in s.hist) && (id in s.hist ==> s'.hist[id] == s.hist[id])
            && (forall x :: x != fd ==> (x in s'.conns <==> x in s.conns))
            && (forall x :: x != fd && x in s.conns ==> s'.conns[x] == s.conns[x])
  {
    hide Flush, Flushed;
    FlushKeeps(Note(s.conns[fd], done.sequence, done.payload), s.maxOutput);
  }

  lemma CloseLeavesHistory(s: Server, step: Step, id: nat)
    requires Inv(s) && Enabled(s, step) && Open(s, id) && !Open(Do(s, step), id) && id in Do(s, step).hist
    ensures id in s.hist && Do(s, step).hist[id] == s.hist[id]
  {
    hide IdOk, LiveOk, JobsOf, DoneOf, Flush, Flushed, Note, Flatten;
    var fd :| Owner(s, id, fd);
    var s' := Do(s, step);
    assert Owner(s', id, fd) <==> fd in s'.conns && s'.conns[fd].id == id;
    if step.Deliver? {
      var done := s.completions[0];
      var t := s.(completions := s.completions[1..]);
      if own :| own in t.conns && Owner(t, done.connection, own) {
        assert Do(s, step) == Delivered(t, own, done, step.pooled, step.payload);
        if own == fd {
          FlushKeeps(Note(s.conns[fd], done.sequence, done.payload), s.maxOutput);
        } else {
          DeliveredTouches(t, own, done, step.pooled, step.payload, id);
        }
      }
    }
  }

  lemma SentKept(s: Server, step: Step)
    requires Inv(s) && Enabled(s, step) && Inv(Do(s, step)) && AllSentOk(s)
    ensures AllSentOk(Do(s, step))
  {
    hide Inv, IdOk, QueueOk, ReplyOk, JobsOf, DoneOf, Do, SentOk;
    var s' := Do(s, step);
    forall id | id in s'.hist
      ensures SentOk(s'.hist[id])
    {
      if Open(s', id) {
        var fd :| Owner(s', id, fd);
        OpenSentOk(s', fd);
      } else if Open(s, id) {
        CloseLeavesHistory(s, step, id);
      } else {
        TrafficKept(s, step, id);
        assert SentOk(s.hist[id]);
        SameSentOk(s.hist[id], s'.hist[id]);
      }
    }
  }

  lemma SameSentOk(h: History, h': History)
    requires SameTraffic(h, h') && SentOk(h)
    ensures SentOk(h')
  {
  }

  lemma OpenSentOk(s: Server, fd: int)
    requires Inv(s) && fd in s.conns
    ensures s.conns[fd].id in s.hist && SentOk(s.hist[s.conns[fd].id])
  {
    hide IdOk, QueueOk, ReplyOk, JobsOf, DoneOf, Flatten;
    assert AtFd(s, fd);
    var c := s.conns[fd];
    var h := s.hist[c.id];
    assert (h.sent + c.output)[..|h.sent|] == h.sent;
  }

  // ----- Every state of every run -----

  lemma StartInv(maxOutput: nat)
    ensures Inv(Start(maxOutput)) && AllSentOk(Start(maxOutput))
  {
    forall id
      ensures AtId(Start(maxOutput), id)
    {
    }
    forall fd
      ensures AtFd(Start(maxOutput), fd)
    {
    }
  }

  lemma {:induction false} RunInv(states: seq<Server>, steps: seq<Step>, maxOutput: nat, n: nat)
    requires IsRun(states, steps, maxOutput) && n < |states|
    ensures Inv(states[n]) && AllSentOk(states[n])
  {
    hide Inv, AllSentOk, Do, Enabled, Start;
    if n == 0 {
      StartInv(maxOutput);
    } else {
      RunInv(states, steps, maxOutput, n - 1);
      StepKeeps(states[n - 1], steps[n - 1]);
      SentKept(states[n - 1], steps[n - 1]);
    }
  }

  // ----- One command at a time, in order -----

  lemma {:induction false} JobCounted(jobs: seq<Job>, i: nat)
    requires i < |jobs|
    ensures |JobsOf(jobs, jobs[i].connection)| >= 1
  {
    JobTaken(jobs, i, jobs[i].connection);
  }

  lemma {:induction false} DoneCounted(done: seq<Completion>, i: nat)
    requires i < |done|
    ensures |DoneOf(done, done[i].connection)| >= 1
  {
    hide DoneOf;
    var id := done[i].connection;
    assert done == done[..i] + done[i..];
    DoneOfSplit(done[..i], done[i..], id);
    DoneTaken(done[i..], id);
  }

  lemma TwoJobsCounted(jobs: seq<Job>, i: nat, j: nat)
    requires i < j < |jobs| && jobs[i].connection == jobs[j].connection
    ensures |JobsOf(jobs, jobs[i].connection)| >= 2
  {
    hide JobsOf;
    JobTaken(jobs, j, jobs[j].connection);
    JobCounted(jobs[..j] + jobs[j + 1..], i);
  }

  lemma TwoDoneCounted(done: seq<Completion>, i: nat, j: nat)
    requires i < j < |done| && done[i].connection == done[j].connection
    ensures |DoneOf(done, done[i].connection)| >= 2
  {
    hide DoneOf;
    var id := done[i].connection;
    assert done == done[..j] + done[j..];
    DoneOfSplit(done[..j], done[j..], id);
    DoneCounted(done[..j], i);
    DoneCounted(done[j..], 0);
  }

  /** Of one connection at most one command is in the pool or awaiting delivery. */
  lemma OneOutstandingCommand(states: seq<Server>, steps: seq<Step>, maxOutput: nat, n: nat)
    requires IsRun(states, steps, maxOutput) && n < |states|
    ensures forall i, j :: 0 <= i < j < |states[n].jobs| ==>
              states[n].jobs[i].connection != states[n].jobs[j].connection
    ensures forall i, j :: 0 <= i < j < |states[n].completions| ==>
              states[n].completions[i].connection != states[n].completions[j].connection
    ensures forall i, j :: 0 <= i < |states[n].jobs| && 0 <= j < |states[n].completions| ==>
              states[n].jobs[i].connection != states[n].completions[j].connection
  {
    hide JobsOf, DoneOf, IsRun, LiveOk;
    RunInv(states, steps, maxOutput, n);
    var s := states[n];
    forall i, j | 0 <= i < j < |s.jobs|
      ensures s.jobs[i].connection != s.jobs[j].connection
    {
      assert s.jobs[i] in s.jobs && AtId(s, s.jobs[i].connection);
      if s.jobs[i].connection == s.jobs[j].connection {
        TwoJobsCounted(s.jobs, i, j);
      }
    }
    forall i, j | 0 <= i < j < |s.completions|
      ensures s.completions[i].connection != s.completions[j].connection
    {
      assert s.completions[i] in s.completions && AtId(s, s.completions[i].connection);
      if s.completions[i].connection == s.completions[j].connection {
        TwoDoneCounted(s.completions, i, j);
      }
    }
    forall i, j | 0 <= i < |s.jobs| && 0 <= j < |s.completions|
      ensures s.jobs[i].connection != s.completions[j].connection
    {
      assert s.jobs[i] in s.jobs && AtId(s, s.jobs[i].connection);
      JobCounted(s.jobs, i);
      DoneCounted(s.completions, j);
    }
  }

  /** Commands of a connection are executed in the order they were enqueued, each once. */
  lemma ExecutedInOrder(states: seq<Server>, steps: seq<Step>, maxOutput: nat, n: nat, id: nat)
    requires IsRun(states, steps, maxOutput) && n < |states| && id in states[n].hist
    ensures var h := states[n].hist[id];
            |h.replies| == |h.executed| <= |h.enqueued| && h.executed == h.enqueued[..|h.executed|]
  {
    hide JobsOf, DoneOf, IsRun, LiveOk;
    RunInv(states, steps, maxOutput, n);
    assert AtId(states[n], id);
  }

  // ----- The bytes a client gets -----

  function Joined(replies: seq<Bytes>): Bytes {
    if replies == [] then [] else Joined(replies[..|replies| - 1]) + replies[|replies| - 1]
  }

  /** The first `n` replies, with the error text after the first `p` of them if there is one. */
  function Transcript(replies: seq<Bytes>, n: nat, p: nat, error: bool): Bytes
    requires p <= n <= |replies|
  {
    Joined(replies[..p]) + (if error then ERROR_TEXT else []) + Joined(replies[p..n])
  }

  /** How many replies precede the error text. */
  function ErrorAt(chunks: seq<Chunk>): nat {
    if chunks == [] then 0
    else
      var before := chunks[..|chunks| - 1];
      if chunks[|chunks| - 1].ProtocolError? then Replies(before)
      else if Errors(before) == 0 then Replies(chunks)
      else ErrorAt(before)
  }

  lemma JoinedOne(replies: seq<Bytes>, a: nat, n: nat)
    requires a <= n < |replies|
    ensures Joined(replies[a..n + 1]) == Joined(replies[a..n]) + replies[n]
  {
    assert replies[a..n + 1][..n - a] == replies[a..n];
  }

  lemma TranscriptGrows(replies: seq<Bytes>, n: nat, p: nat, error: bool)
    requires p <= n < |replies|
    ensures Transcript(replies, n + 1, p, error) == Transcript(replies, n, p, error) + replies[n]
  {
    hide Joined;
    JoinedOne(replies, p, n);
  }

  lemma TranscriptUnbroken(replies: seq<Bytes>, n: nat)
    requires n < |replies|
    ensures Transcript(replies, n + 1, n + 1, false) == Transcript(replies, n, n, false) + replies[n]
  {
    JoinedOne(replies, 0, n);
    assert replies[..n + 1] == replies[0..n + 1] && replies[..n] == replies[0..n];
  }

  lemma {:induction false} ChunksAreTranscript(chunks: seq<Chunk>, id: nat, replies: seq<Bytes>)
    requires InOrder(chunks, id, replies)
    ensures Errors(chunks) <= 1 && ErrorAt(chunks) <= Replies(chunks) <= |replies|
    ensures Errors(chunks) == 0 ==> ErrorAt(chunks) == Replies(chunks)
    ensures Flatten(chunks) == Transcript(replies, Replies(chunks), ErrorAt(chunks), Errors(chunks) == 1)
    decreases |chunks|
  {
    hide Joined, Transcript;
    if chunks == [] {
      NothingYet(replies);
    } else {
      var before, last := chunks[..|chunks| - 1], chunks[|chunks| - 1];
      ChunksAreTranscript(before, id, replies);
      if last.ProtocolError? {
        TranscriptError(replies, Replies(before));
      } else if Errors(before) == 0 {
        TranscriptUnbroken(replies, Replies(before));
      } else {
        TranscriptGrows(replies, Replies(before), ErrorAt(before), true);
      }
    }
  }

  lemma NothingYet(replies: seq<Bytes>)
    ensures Transcript(replies, 0, 0, false) == []
  {
  }

  lemma TranscriptError(replies: seq<Bytes>, n: nat)
    requires n <= |replies|
    ensures Transcript(replies, n, n, true) == Transcript(replies, n, n, false) + ERROR_TEXT
  {
    assert replies[n..n] == [];
  }

  /**
   Whatever the interleaving: the bytes appended for a connection are its first replies in request
   order with at most one error text at a reply boundary, and what the client got is a prefix of that.
   */
  lemma ClientSeesRepliesInOrder(states: seq<Server>, steps: seq<Step>, maxOutput: nat, n: nat, id: nat)
    requires IsRun(states, steps, maxOutput) && n < |states| && id in states[n].hist
    ensures var h := states[n].hist[id];
            && Errors(h.chunks) <= 1 && ErrorAt(h.chunks) <= Replies(h.chunks) <= |h.replies|
            && Flatten(h.chunks) ==
               Transcript(h.replies, Replies(h.chunks), ErrorAt(h.chunks), Errors(h.chunks) == 1)
            && (!h.broken ==> IsPrefix(h.sent, Flatten(h.chunks)))
  {
    hide JobsOf, DoneOf, IsRun, LiveOk, InOrder, Errors, ErrorAt, Replies, Flatten, Transcript;
    RunInv(states, steps, maxOutput, n);
    var h := states[n].hist[id];
    assert AtId(states[n], id) && SentOk(h);
    ChunksAreTranscript(h.chunks, id, h.replies);
  }

  /** On an open connection: nothing appended is lost, the counters are exact and the buffer is bounded. */
  lemma OpenConnectionAccounts(states: seq<Server>, steps: seq<Step>, maxOutput: nat, n: nat, fd: int)
    requires IsRun(states, steps, maxOutput) && n < |states| && fd in states[n].conns
    ensures var c := states[n].conns[fd];
            && c.id in states[n].hist
            && var h := states[n].hist[c.id];
               && c.inflight == |c.queue| + (if c.running then 1 else 0)
               && c.nextRequest == |h.enqueued| && c.nextResponse == Replies(h.chunks) <= |h.executed|
               && (if h.broken then c.closing else h.sent + c.output == Flatten(h.chunks))
               && |c.output| <= maxOutput + |ERROR_TEXT|
  {
    hide JobsOf, DoneOf, IdOk, Flatten, Errors, Replies;
    RunInv(states, steps, maxOutput, n);
    LimitFixed(states, steps, maxOutput, n);
    assert AtFd(states[n], fd);
  }

  lemma {:induction false} LimitFixed(states: seq<Server>, steps: seq<Step>, maxOutput: nat, n: nat)
    requires IsRun(states, steps, maxOutput) && n < |states|
    ensures states[n].maxOutput == maxOutput
  {
    hide Flush, Flushed, Note;
    if n > 0 {
      LimitFixed(states, steps, maxOutput, n - 1);
    }
  }

  // ----- Closing and delivery -----

  /** The drained close removes a connection only when all its commands were executed and answered or dropped. */
  lemma DrainedCloseIsComplete(states: seq<Server>, steps: seq<Step>, maxOutput: nat, n: nat, fd: int)
    requires IsRun(states, steps, maxOutput) && n < |states|
    requires Enabled(states[n], CloseDrained(fd))
    ensures var s := states[n];
            var c := s.conns[fd];
            && c.queue == [] && !c.running && c.id in s.hist
            && s.hist[c.id].executed == s.hist[c.id].enqueued
            && (!s.hist[c.id].broken ==> s.hist[c.id].sent == Flatten(s.hist[c.id].chunks))
            && (forall j :: 0 <= j < |s.jobs| ==> s.jobs[j].connection != c.id)
            && (forall j :: 0 <= j < |s.completions| ==> s.completions[j].connection != c.id)
  {
    hide JobsOf, DoneOf, IsRun, InOrder, Flatten, Errors, Replies;
    RunInv(states, steps, maxOutput, n);
    var s := states[n];
    var c := s.conns[fd];
    var h := s.hist[c.id];
    assert AtFd(s, fd) && AtId(s, c.id);
    assert h.enqueued[..|h.enqueued|] == h.enqueued;
    assert h.sent + [] == h.sent;
    forall j | 0 <= j < |s.jobs|
      ensures s.jobs[j].connection != c.id
    {
      JobCounted(s.jobs, j);
    }
    forall j | 0 <= j < |s.completions|
      ensures s.completions[j].connection != c.id
    {
      DoneCounted(s.completions, j);
    }
  }

  /** A completion changes no connection but the one that issued the command, whoever has its descriptor now. */
  lemma DeliveryIsPrivate(s: Server, pooled: bool, payload: Bytes, fd: int)
    requires Inv(s) && Enabled(s, Deliver(pooled, payload))
    requires fd in s.conns && s.conns[fd].id != s.completions[0].connection
    ensures var s' := Do(s, Deliver(pooled, payload));
            && fd in s'.conns && s'.conns[fd] == s.conns[fd]
            && s.conns[fd].id in s'.hist && s'.hist[s.conns[fd].id] == s.hist[s.conns[fd].id]
  {
    hide JobsOf, DoneOf, IdOk, LiveOk;
    var done := s.completions[0];
    var t := s.(completions := s.completions[1..]);
    if own :| own in t.conns && Owner(t, done.connection, own) {
      assert Do(s, Deliver(pooled, payload)) == Delivered(t, own, done, pooled, payload);
      DeliveredTouches(t, own, done, pooled, payload, s.conns[fd].id);
    }
  }

  /**
   A completion whose turn it is: its reply is appended if and only if it fits the output limit beside what is
   waiting; otherwise nothing is appended and the connection closes.
   */
  lemma ReplyAppendedIff(s: Server, pooled: bool, payload: Bytes, fd: int)
    requires Inv(s) && Enabled(s, Deliver(pooled, payload)) && Owner(s, s.completions[0].connection, fd)
    requires s.conns[fd].nextResponse == s.completions[0].sequence
    ensures var s', c, d := Do(s, Deliver(pooled, payload)), s.conns[fd], s.completions[0];
            && fd in s'.conns && c.id in s.hist && c.id in s'.hist
            && var c', h, h' := s'.conns[fd], s.hist[c.id], s'.hist[c.id];
               if |c.output| + |d.payload| <= s.maxOutput then
                 && h'.chunks == h.chunks + [Reply(c.id, d.sequence, d.payload)]
                 && c'.output == c.output + d.payload && c'.nextResponse == c.nextResponse + 1
                 && c'.closing == c.closing && c'.readClosed == c.readClosed
               else h'.chunks == h.chunks && c'.output == c.output && c'.closing && c'.readClosed
  {
    hide JobsOf, DoneOf, IdOk, LiveOk, Note, Flush, Flushed;
    var d := s.completions[0];
    var t := s.(completions := s.completions[1..]);
    var c := s.conns[fd];
    assert AtFd(s, fd) && AtId(s, c.id);
    DoneTaken(s.completions, c.id);
    OneOutstanding(c.id, s.hist[c.id], JobsOf(s.jobs, c.id), DoneOf(s.completions, c.id));
    assert DoneOf(s.completions, c.id) == [d];
    assert Do(s, Deliver(pooled, payload)) == Delivered(t, fd, d, pooled, payload);
    FlushInTurn(c, s.hist[c.id], JobsOf(s.jobs, c.id), d, s.maxOutput);
    NoteKeepsId(c, d.sequence, d.payload);
    assert s.hist[c.id].chunks + [] == s.hist[c.id].chunks;
  }

  /** The flush after the one completion outstanding, when it is its turn. */
  lemma FlushInTurn(c: Conn, h: History, jobs: seq<Job>, d: Completion, maxOutput: nat)
    requires IdOk(c.id, h, jobs, [d]) && LiveOk(c, h, jobs, [d], maxOutput) && c.nextResponse == d.sequence
    ensures var noted := Note(c, d.sequence, d.payload);
            var c' := Flush(noted, maxOutput);
            && c'.id == c.id
            && if |c.output| + |d.payload| <= maxOutput then
                 && Flushed(noted, maxOutput) == [Reply(c.id, d.sequence, d.payload)]
                 && c'.output == c.output + d.payload && c'.nextResponse == c.nextResponse + 1
                 && c'.closing == c.closing && c'.readClosed == c.readClosed
               else Flushed(noted, maxOutput) == [] && c'.output == c.output && c'.closing && c'.readClosed
  {
    hide InOrder, Flatten, Errors, Replies, QueueOk, OutputOk;
    var noted := Note(c, d.sequence, d.payload);
    assert c.pending == map[] && noted.pending == map[c.nextResponse := d.payload];
    if !Overflows(noted, d.payload, maxOutput) {
      FlushOne(noted, d.payload, maxOutput);
    }
  }

  /** At the end of input between frames the connection is closed at once exactly if nothing is in flight or waiting. */
  lemma EndOfInputClosesIff(s: Server, fd: int)
    requires Enabled(s, EndOfInput(fd, false))
    ensures Enabled(Do(s, EndOfInput(fd, false)), CloseDrained(fd)) <==>
            s.conns[fd].inflight == 0 && s.conns[fd].output == []
    ensures !Reads(Do(s, EndOfInput(fd, false)), fd)
  {
  }

  // ----- The error text does not wait for its turn -----

  /** The text is the error reply "ERR Protocol error". */
  lemma ErrorTextIsReply()
    ensures ERROR_TEXT ==
            Encode(Error([69, 82, 82, 32, 80, 114, 111, 116, 111, 99, 111, 108, 32, 101, 114, 114, 111, 114]))
  {
  }

  /** The steps that append the error text: bad input, or the end of input inside a frame. */
  predicate AppendsError(step: Step) {
    step.BadInput? || (step.EndOfInput? && step.leftover)
  }

  /**
   Whichever of them appends it: the error text follows the replies to every earlier command if and
   only if none of those is in flight.
   */
  lemma ErrorInTurnIff(states: seq<Server>, steps: seq<Step>, maxOutput: nat, n: nat, step: Step)
    requires IsRun(states, steps, maxOutput) && n < |states| && Enabled(states[n], step) && AppendsError(step)
    ensures var s' := Do(states[n], step);
            var id := states[n].conns[step.fd].id;
            && id in s'.hist && Errors(s'.hist[id].chunks) == 1
            && (ErrorAt(s'.hist[id].chunks) == |s'.hist[id].enqueued| <==> states[n].conns[step.fd].inflight == 0)
  {
    hide JobsOf, DoneOf, IsRun, InOrder, Flatten;
    RunInv(states, steps, maxOutput, n);
    var s := states[n];
    var c := s.conns[step.fd];
    var h := s.hist[c.id];
    assert AtFd(s, step.fd) && AtId(s, c.id);
    assert (h.chunks + [ProtocolError])[..|h.chunks|] == h.chunks;
  }

  /** Every other step leaves the number of error texts of every identity as it is. */
  lemma OnlyTheseAppendErrors(s: Server, step: Step, id: nat)
    requires Inv(s) && Enabled(s, step) && !AppendsError(step) && id in s.hist
    ensures id in Do(s, step).hist && Errors(Do(s, step).hist[id].chunks) == Errors(s.hist[id].chunks)
  {
    hide IdOk, LiveOk, JobsOf, DoneOf, Flush, Flushed, Note, Flatten, Errors;
    if step.Deliver? {
      var done := s.completions[0];
      var t := s.(completions := s.completions[1..]);
      if fd :| fd in t.conns && Owner(t, done.connection, fd) {
        assert Do(s, step) == Delivered(t, fd, done, step.pooled, step.payload);
        DeliveredErrors(t, fd, done, step.pooled, step.payload, id);
      }
    }
  }

  lemma DeliveredErrors(s: Server, fd: int, done: Completion, pooled: bool, payload: Bytes, id: nat)
    requires fd in s.conns && s.conns[fd].id in s.hist && id in s.hist
    ensures var s' := Delivered(s, fd, done, pooled, payload);
            id in s'.hist && Errors(s'.hist[id].chunks) == Errors(s.hist[id].chunks)
  {
    hide Flush, Flushed, Note, Errors;
    var noted := Note(s.conns[fd], done.sequence, done.payload);
    NoteKeepsId(s.conns[fd], done.sequence, done.payload);
    FlushKeeps(noted, s.maxOutput);
    FlushedErrors(s.hist[noted.id].chunks, noted, s.maxOutput);
  }

  /** A flush appends replies only. */
  lemma {:induction false} FlushedErrors(chunks: seq<Chunk>, c: Conn, maxOutput: nat)
    ensures Errors(chunks + Flushed(c, maxOutput)) == Errors(chunks)
    decreases |c.pending|
  {
    hide Errors;
    if c.nextResponse in c.pending && !Overflows(c, c.pending[c.nextResponse], maxOutput) {
      assert (c.pending - {c.nextResponse}).Keys == c.pending.Keys - {c.nextResponse};
      var r := Reply(c.id, c.nextResponse, c.pending[c.nextResponse]);
      var c' := c.(output := c.output + c.pending[c.nextResponse], pending := c.pending - {c.nextResponse},
                   nextResponse := c.nextResponse + 1);
      assert chunks + ([r] + Flushed(c', maxOutput)) == (chunks + [r]) + Flushed(c', maxOutput);
      ChunkAdded(chunks, r);
      FlushedErrors(chunks + [r], c', maxOutput);
    } else {
      assert chunks + [] == chunks;
    }
  }

  /** One command in the pool and then bad input: the error text comes before the reply to the command. */
  lemma ErrorOvertakesReply(fd: int, request: RespValue, maxOutput: nat)
    ensures var steps := [Accept(fd), Command(fd, request, true, []), BadInput(fd)];
            exists states: seq<Server> :: IsRun(states, steps, maxOutput)
              && 1 in states[3].hist && states[3].hist[1].enqueued == [request]
              && states[3].hist[1].chunks == [ProtocolError]
  {
    hide Errors, Flatten, Replies;
    var steps := [Accept(fd), Command(fd, request, true, []), BadInput(fd)];
    var s0 := Start(maxOutput);
    var s1 := Do(s0, steps[0]);
    var s2 := Do(s1, steps[1]);
    var s3 := Do(s2, steps[2]);
    var states := [s0, s1, s2, s3];
    assert IsRun(states, steps, maxOutput);
  }
}
