/** What every interleaving of the I/O thread and the workers keeps. */
module StrandSafety {
  import opened Common
  import opened Resp
  import opened Strand

  // ----- The outstanding work of one identity -----

  function JobsOf(jobs: seq<Job>, id: nat): seq<Job> {
    if jobs == [] then []
    else JobsOf(jobs[..|jobs| - 1], id) + if jobs[|jobs| - 1].connection == id then [jobs[|jobs| - 1]] else []
  }

  function DoneOf(done: seq<Completion>, id: nat): seq<Completion> {
    if done == [] then []
    else DoneOf(done[..|done| - 1], id) + if done[|done| - 1].connection == id then [done[|done| - 1]] else []
  }

  lemma {:induction false} JobsOfSplit(a: seq<Job>, b: seq<Job>, id: nat)
    ensures JobsOf(a + b, id) == JobsOf(a, id) + JobsOf(b, id)
    decreases |b|
  {
    if b == [] {
      assert a + b == a;
    } else {
      var n := |b| - 1;
      assert (a + b)[..|a + b| - 1] == a + b[..n];
      JobsOfSplit(a, b[..n], id);
    }
  }

  lemma {:induction false} DoneOfSplit(a: seq<Completion>, b: seq<Completion>, id: nat)
    ensures DoneOf(a + b, id) == DoneOf(a, id) + DoneOf(b, id)
    decreases |b|
  {
    if b == [] {
      assert a + b == a;
    } else {
      var n := |b| - 1;
      assert (a + b)[..|a + b| - 1] == a + b[..n];
      DoneOfSplit(a, b[..n], id);
    }
  }

  lemma JobAdded(jobs: seq<Job>, job: Job, id: nat)
    ensures JobsOf(jobs + [job], id) == JobsOf(jobs, id) + if job.connection == id then [job] else []
  {
    assert (jobs + [job])[..|jobs|] == jobs;
  }

  lemma DoneAdded(done: seq<Completion>, c: Completion, id: nat)
    ensures DoneOf(done + [c], id) == DoneOf(done, id) + if c.connection == id then [c] else []
  {
    assert (done + [c])[..|done|] == done;
  }

  lemma JobTaken(jobs: seq<Job>, index: nat, id: nat)
    requires index < |jobs|
    ensures var job := jobs[index];
            var rest := jobs[..index] + jobs[index + 1..];
            && |JobsOf(jobs, id)| == |JobsOf(rest, id)| + (if job.connection == id then 1 else 0)
            && (job.connection != id ==> JobsOf(rest, id) == JobsOf(jobs, id))
            && (job.connection == id && |JobsOf(jobs, id)| == 1 ==> JobsOf(jobs, id) == [job] && JobsOf(rest, id) == [])
  {
    hide JobsOf;
    var job := jobs[index];
    var front, back := jobs[..index], jobs[index + 1..];
    assert jobs == front + [job] + back;
    JobsOfSplit(front + [job], back, id);
    JobAdded(front, job, id);
    JobsOfSplit(front, back, id);
  }

  lemma DoneTaken(done: seq<Completion>, id: nat)
    requires done != []
    ensures DoneOf(done, id) == (if done[0].connection == id then [done[0]] else []) + DoneOf(done[1..], id)
  {
    hide DoneOf;
    assert done == [done[0]] + done[1..];
    DoneOfSplit([done[0]], done[1..], id);
    DoneAdded([], done[0], id);
    assert [] + [done[0]] == [done[0]];
    assert DoneOf([], id) == [] by { NoneDone(id); }
  }

  lemma NoneDone(id: nat)
    ensures DoneOf([], id) == [] && JobsOf([], id) == []
  {
  }

  // ----- The invariant -----

  /** The chunks are the replies in order, with at most one protocol error between two of them. */
  predicate InOrder(chunks: seq<Chunk>, id: nat, replies: seq<Bytes>) {
    chunks == [] ||
    (var before, last := chunks[..|chunks| - 1], chunks[|chunks| - 1];
     && InOrder(before, id, replies)
     && match last
        case ProtocolError => Errors(before) == 0
        case Reply(from, sequence, payload) =>
          from == id && sequence == Replies(before) < |replies| && payload == replies[sequence])
  }

  /** Whether the connection is open or not: one command at a time, executed in order. */
  predicate IdOk(id: nat, h: History, jobs: seq<Job>, done: seq<Completion>) {
    && |jobs| + |done| <= 1
    && |h.replies| == |h.executed| <= |h.enqueued| && h.executed == h.enqueued[..|h.executed|]
    && (|jobs| == 1 ==>
          |h.executed| < |h.enqueued| && jobs[0] == Job(id, |h.executed|, h.enqueued[|h.executed|]))
    && (|done| == 1 ==>
          |h.executed| > 0 && done[0] == Completion(id, |h.executed| - 1, h.replies[|h.executed| - 1]))
    && InOrder(h.chunks, id, h.replies)
  }

  /** The queue is the last of the enqueued commands, each with its own number. */
  predicate Numbered(queue: seq<Queued>, enqueued: seq<RespValue>) {
    && |queue| <= |enqueued|
    && forall i :: 0 <= i < |queue| ==>
         var k := |enqueued| - |queue| + i;
         queue[i] == Queued(k, enqueued[k])
  }

  /** Every command is executed, running, or queued. */
  predicate QueueOk(c: Conn, h: History, jobs: seq<Job>, done: seq<Completion>) {
    && (c.running <==> |jobs| + |done| == 1)
    && c.inflight == |c.queue| + (if c.running then 1 else 0) && (c.queue != [] ==> c.running)
    && c.nextRequest == |h.enqueued| == |h.executed| + |jobs| + |c.queue|
    && Numbered(c.queue, h.enqueued)
  }

  /** Responses leave in sequence; after an overflow none leaves any more. */
  predicate ReplyOk(c: Conn, h: History, done: seq<Completion>) {
    && |done| <= |h.executed|
    && Replies(h.chunks) == c.nextResponse
    && var applied := |h.executed| - |done|;
       || (c.nextResponse == applied && c.pending == map[])
       || (c.nextResponse < applied && c.closing && c.readClosed
           && forall n :: n in c.pending ==> c.nextResponse < n < applied)
  }

  predicate OutputOk(c: Conn, h: History, maxOutput: nat) {
    && Errors(h.chunks) <= 1
    && (Errors(h.chunks) == 1 ==> c.closing && c.readClosed)
    && (if h.broken then c.closing else h.sent + c.output == Flatten(h.chunks))
    && |c.output| <= maxOutput + Errors(h.chunks) * |ERROR_TEXT|
  }

  predicate LiveOk(c: Conn, h: History, jobs: seq<Job>, done: seq<Completion>, maxOutput: nat) {
    QueueOk(c, h, jobs, done) && ReplyOk(c, h, done) && OutputOk(c, h, maxOutput)
  }

  ghost predicate Table(s: Server) {
    && (forall id :: id in s.hist ==> id < s.nextId)
    && (forall fd :: fd in s.conns ==> s.conns[fd].id in s.hist)
    && (forall fd, fd' :: fd in s.conns && fd' in s.conns && s.conns[fd].id == s.conns[fd'].id ==> fd == fd')
    && (forall j :: j in s.jobs ==> j.connection in s.hist)
    && (forall c :: c in s.completions ==> c.connection in s.hist)
  }

  predicate AtId(s: Server, id: nat) {
    id in s.hist ==> IdOk(id, s.hist[id], JobsOf(s.jobs, id), DoneOf(s.completions, id))
  }

  predicate AtFd(s: Server, fd: int) {
    fd in s.conns && s.conns[fd].id in s.hist ==>
      var id := s.conns[fd].id;
      LiveOk(s.conns[fd], s.hist[id], JobsOf(s.jobs, id), DoneOf(s.completions, id), s.maxOutput)
  }

  ghost predicate Inv(s: Server) {
    Table(s) && (forall id :: AtId(s, id)) && (forall fd :: AtFd(s, fd))
  }

  // ----- Local lemmas: one connection, one step -----

  lemma ChunkAdded(chunks: seq<Chunk>, c: Chunk)
    ensures Replies(chunks + [c]) == Replies(chunks) + (if c.Reply? then 1 else 0)
    ensures Errors(chunks + [c]) == Errors(chunks) + (if c.ProtocolError? then 1 else 0)
    ensures Flatten(chunks + [c]) == Flatten(chunks) + ChunkBytes(c)
  {
    assert (chunks + [c])[..|chunks|] == chunks;
  }

  lemma {:induction false} InOrderMore(chunks: seq<Chunk>, id: nat, replies: seq<Bytes>, more: seq<Bytes>)
    requires InOrder(chunks, id, replies)
    ensures InOrder(chunks, id, replies + more)
    decreases |chunks|
  {
    if chunks != [] {
      InOrderMore(chunks[..|chunks| - 1], id, replies, more);
    }
  }

  lemma InOrderAdded(chunks: seq<Chunk>, id: nat, replies: seq<Bytes>, c: Chunk)
    requires InOrder(chunks, id, replies)
    requires match c
             case ProtocolError => Errors(chunks) == 0
             case Reply(from, sequence, payload) =>
               from == id && sequence == Replies(chunks) < |replies| && payload == replies[sequence]
    ensures InOrder(chunks + [c], id, replies)
  {
    assert (chunks + [c])[..|chunks|] == chunks;
  }

  /** What a launch needs: nothing outstanding, the rest of the connection in order. */
  predicate Ready(c: Conn, h: History, maxOutput: nat) {
    && IdOk(c.id, h, [], []) && ReplyOk(c, h, []) && OutputOk(c, h, maxOutput)
    && c.inflight == |c.queue| && c.nextRequest == |h.enqueued| == |h.executed| + |c.queue|
    && Numbered(c.queue, h.enqueued)
  }

  /** A new command joins the queue: behind the one outstanding, or ready for launch if there is none. */
  lemma EnqueueOk(c: Conn, h: History, jobs: seq<Job>, done: seq<Completion>, maxOutput: nat, request: RespValue)
    requires IdOk(c.id, h, jobs, done) && LiveOk(c, h, jobs, done, maxOutput)
    ensures var h', c' := h.(enqueued := h.enqueued + [request]), Enqueue(c, request);
            && IdOk(c.id, h', jobs, done)
            && if c.running then LiveOk(c', h', jobs, done, maxOutput)
               else jobs == [] && done == [] && Ready(c', h', maxOutput)
  {
    hide InOrder, Flatten, Replies, Errors, Numbered, OutputOk;
    NumberedMore(c.queue, h.enqueued, request);
    assert (h.enqueued + [request])[..|h.executed|] == h.enqueued[..|h.executed|];
    SameOutput(c, h, maxOutput, request);
  }

  lemma SameOutput(c: Conn, h: History, maxOutput: nat, request: RespValue)
    requires OutputOk(c, h, maxOutput)
    ensures OutputOk(Enqueue(c, request), h.(enqueued := h.enqueued + [request]), maxOutput)
  {
    hide Flatten, Errors;
  }

  lemma NumberedMore(queue: seq<Queued>, enqueued: seq<RespValue>, request: RespValue)
    requires Numbered(queue, enqueued)
    ensures Numbered(queue + [Queued(|enqueued|, request)], enqueued + [request])
  {
    var enqueued', queue' := enqueued + [request], queue + [Queued(|enqueued|, request)];
    forall i | 0 <= i < |queue'|
      ensures queue'[i] == Queued(|enqueued'| - |queue'| + i, enqueued'[|enqueued'| - |queue'| + i])
    {
      if i < |queue| {
        assert queue[i] == Queued(|enqueued| - |queue| + i, enqueued[|enqueued| - |queue| + i]);
      }
    }
  }

  lemma NumberedRest(queue: seq<Queued>, enqueued: seq<RespValue>)
    requires Numbered(queue, enqueued) && queue != []
    ensures var k := |enqueued| - |queue|;
            queue[0] == Queued(k, enqueued[k]) && Numbered(queue[1..], enqueued)
  {
    var rest := queue[1..];
    forall i | 0 <= i < |rest|
      ensures rest[i] == Queued(|enqueued| - |rest| + i, enqueued[|enqueued| - |rest| + i])
    {
      assert rest[i] == queue[i + 1];
    }
  }

  /** The launched strand has one job in the pool. */
  lemma LaunchPooled(c: Conn, h: History, maxOutput: nat)
    requires Ready(c, h, maxOutput) && c.queue != []
    ensures IdOk(c.id, h, [HeadJob(c)], []) && LiveOk(Launch(c), h, [HeadJob(c)], [], maxOutput)
  {
    hide InOrder, Flatten, Replies, Errors, Numbered;
    NumberedRest(c.queue, h.enqueued);
  }

  lemma LaunchNothing(c: Conn, h: History, maxOutput: nat)
    requires Ready(c, h, maxOutput) && c.queue == []
    ensures IdOk(c.id, h, [], []) && LiveOk(Launch(c), h, [], [], maxOutput)
  {
    hide InOrder, Flatten, Replies, Errors;
  }

  function RanHistory(h: History, request: RespValue, payload: Bytes): History {
    h.(executed := h.executed + [request], replies := h.replies + [payload])
  }

  /** Executing the one outstanding job turns it into the one outstanding completion. */
  lemma RunOk(id: nat, h: History, job: Job, payload: Bytes)
    requires IdOk(id, h, [job], [])
    ensures var h' := RanHistory(h, job.request, payload);
            IdOk(id, h', [], [Completion(id, job.sequence, payload)])
  {
    hide Replies, Errors;
    InOrderMore(h.chunks, id, h.replies, [payload]);
    assert h.enqueued[..|h.executed| + 1] == h.enqueued[..|h.executed|] + [h.enqueued[|h.executed|]];
  }

  lemma RunLive(c: Conn, h: History, job: Job, payload: Bytes, maxOutput: nat)
    requires IdOk(c.id, h, [job], []) && LiveOk(c, h, [job], [], maxOutput)
    ensures var h' := RanHistory(h, job.request, payload);
            LiveOk(c, h', [], [Completion(c.id, job.sequence, payload)], maxOutput)
  {
    hide InOrder, Flatten, Replies, Errors;
  }

  /** Noting and flushing the one outstanding completion. */
  lemma DeliverOk(c: Conn, h: History, d: Completion, maxOutput: nat)
    requires IdOk(c.id, h, [], [d]) && LiveOk(c, h, [], [d], maxOutput)
    ensures var noted := Note(c, d.sequence, d.payload);
            && Flush(noted, maxOutput).id == c.id
            && Ready(Flush(noted, maxOutput), h.(chunks := h.chunks + Flushed(noted, maxOutput)), maxOutput)
  {
    hide InOrder, Flatten, Replies, Errors;
    var noted := Note(c, d.sequence, d.payload);
    FlushKeeps(noted, maxOutput);
    if c.nextResponse < |h.executed| - 1 {
      assert c.nextResponse !in noted.pending;
      assert Flushed(noted, maxOutput) == [] && h.chunks + [] == h.chunks;
    } else {
      assert noted.pending == map[c.nextResponse := d.payload];
      if Overflows(c, d.payload, maxOutput) {
        assert Flushed(noted, maxOutput) == [] && h.chunks + [] == h.chunks;
      } else {
        FlushOne(noted, d.payload, maxOutput);
        var r := Reply(c.id, c.nextResponse, d.payload);
        ChunkAdded(h.chunks, r);
        InOrderAdded(h.chunks, c.id, h.replies, r);
        assert h.sent + (c.output + d.payload) == h.sent + c.output + d.payload;
      }
    }
  }

  lemma FlushOne(c: Conn, payload: Bytes, maxOutput: nat)
    requires c.pending == map[c.nextResponse := payload] && !Overflows(c, payload, maxOutput)
    ensures Flush(c, maxOutput) ==
            c.(output := c.output + payload, pending := map[], nextResponse := c.nextResponse + 1)
    ensures Flushed(c, maxOutput) == [Reply(c.id, c.nextResponse, payload)]
  {
    assert c.pending - {c.nextResponse} == map[];
    var next := c.(output := c.output + payload, pending := map[], nextResponse := c.nextResponse + 1);
    assert Flush(next, maxOutput) == next && Flushed(next, maxOutput) == [];
    assert [Reply(c.id, c.nextResponse, payload)] + [] == [Reply(c.id, c.nextResponse, payload)];
  }

  lemma FailOk(c: Conn, h: History, jobs: seq<Job>, done: seq<Completion>, maxOutput: nat)
    requires IdOk(c.id, h, jobs, done) && LiveOk(c, h, jobs, done, maxOutput) && !c.readClosed
    ensures var h' := h.(chunks := h.chunks + [ProtocolError]);
            IdOk(c.id, h', jobs, done) && LiveOk(Fail(c), h', jobs, done, maxOutput)
  {
    hide InOrder, Flatten, Replies, Errors;
    ChunkAdded(h.chunks, ProtocolError);
    InOrderAdded(h.chunks, c.id, h.replies, ProtocolError);
    assert h.sent + (c.output + ERROR_TEXT) == h.sent + c.output + ERROR_TEXT;
  }

  lemma SendOk(c: Conn, h: History, jobs: seq<Job>, done: seq<Completion>, maxOutput: nat, count: nat)
    requires IdOk(c.id, h, jobs, done) && LiveOk(c, h, jobs, done, maxOutput) && count <= |c.output|
    ensures var h' := h.(sent := h.sent + c.output[..count]);
            IdOk(c.id, h', jobs, done) && LiveOk(c.(output := c.output[count..]), h', jobs, done, maxOutput)
  {
    hide InOrder, Flatten, Replies, Errors;
    assert h.sent + c.output[..count] + c.output[count..] == h.sent + c.output;
  }

  // ----- From one connection to the server -----

  /** Everything about the other identities is as it was. */
  ghost predicate Untouched(s: Server, s': Server, id: nat) {
    && s'.maxOutput == s.maxOutput
    && (forall x :: x in s'.hist && x != id ==>
          && x in s.hist && s'.hist[x] == s.hist[x]
          && JobsOf(s'.jobs, x) == JobsOf(s.jobs, x) && DoneOf(s'.completions, x) == DoneOf(s.completions, x))
    && (forall fd :: fd in s'.conns && s'.conns[fd].id != id ==> fd in s.conns && s'.conns[fd] == s.conns[fd])
  }

  /** The invariant for every identity but one. */
  ghost predicate Elsewhere(s: Server, id: nat) {
    && Table(s)
    && (forall x :: x != id ==> AtId(s, x))
    && (forall fd :: fd in s.conns && s.conns[fd].id != id ==> AtFd(s, fd))
  }

  lemma ElsewhereKept(s: Server, s': Server, id: nat)
    requires Elsewhere(s, id) && Table(s') && Untouched(s, s', id)
    ensures Elsewhere(s', id)
  {
    hide IdOk, LiveOk, JobsOf, DoneOf;
    forall x | x != id
      ensures AtId(s', x)
    {
      assert AtId(s, x);
    }
    forall fd | fd in s'.conns && s'.conns[fd].id != id
      ensures AtFd(s', fd)
    {
      assert AtFd(s, fd);
    }
  }

  lemma InvFromLocal(s: Server, id: nat)
    requires Elsewhere(s, id) && AtId(s, id)
    requires forall fd :: fd in s.conns && s.conns[fd].id == id ==> AtFd(s, fd)
    ensures Inv(s)
  {
    hide IdOk, LiveOk, JobsOf, DoneOf;
    forall fd
      ensures AtFd(s, fd)
    {
    }
  }

  lemma InvElsewhere(s: Server, id: nat)
    requires Inv(s)
    ensures Elsewhere(s, id)
  {
  }

  lemma {:induction false} NoJobs(jobs: seq<Job>, id: nat)
    requires forall j :: j in jobs ==> j.connection != id
    ensures JobsOf(jobs, id) == []
    decreases |jobs|
  {
    if jobs != [] {
      NoJobs(jobs[..|jobs| - 1], id);
    }
  }

  lemma {:induction false} NoDone(done: seq<Completion>, id: nat)
    requires forall c :: c in done ==> c.connection != id
    ensures DoneOf(done, id) == []
    decreases |done|
  {
    if done != [] {
      NoDone(done[..|done| - 1], id);
    }
  }

  lemma AcceptKeeps(s: Server, fd: int)
    requires Inv(s) && Enabled(s, Accept(fd))
    ensures Inv(Do(s, Accept(fd)))
  {
    hide JobsOf, DoneOf, IdOk, LiveOk;
    var s', id := Do(s, Accept(fd)), s.nextId;
    NoJobs(s.jobs, id);
    NoDone(s.completions, id);
    InvElsewhere(s, id);
    assert Untouched(s, s', id);
    ElsewhereKept(s, s', id);
    FreshOk(id, s.maxOutput);
    InvFromLocal(s', id);
  }

  lemma FreshOk(id: nat, maxOutput: nat)
    ensures IdOk(id, History([], [], [], [], [], false), [], [])
    ensures LiveOk(NewConn(id), History([], [], [], [], [], false), [], [], maxOutput)
  {
  }

  lemma UpdateElsewhere(s: Server, fd: int, c: Conn, h: History)
    requires Inv(s) && fd in s.conns && c.id == s.conns[fd].id
    ensures Elsewhere(s.(conns := s.conns[fd := c], hist := s.hist[c.id := h]), c.id)
  {
    hide JobsOf, DoneOf, IdOk, LiveOk;
    var s', id := s.(conns := s.conns[fd := c], hist := s.hist[c.id := h]), c.id;
    InvElsewhere(s, id);
    assert Table(s');
    assert Untouched(s, s', id);
    ElsewhereKept(s, s', id);
  }

  /** Storing a new state of one connection and of its history. */
  lemma UpdateKeeps(s: Server, fd: int, c: Conn, h: History)
    requires Inv(s) && fd in s.conns && c.id == s.conns[fd].id
    requires IdOk(c.id, h, JobsOf(s.jobs, c.id), DoneOf(s.completions, c.id))
    requires LiveOk(c, h, JobsOf(s.jobs, c.id), DoneOf(s.completions, c.id), s.maxOutput)
    ensures Inv(s.(conns := s.conns[fd := c], hist := s.hist[c.id := h]))
  {
    hide JobsOf, DoneOf, IdOk, LiveOk;
    UpdateElsewhere(s, fd, c, h);
    InvFromLocal(s.(conns := s.conns[fd := c], hist := s.hist[c.id := h]), c.id);
  }

  /** What is known when a strand without outstanding work is about to be launched. */
  ghost predicate Launchable(s: Server, fd: int, c: Conn) {
    && Elsewhere(s, c.id) && fd in s.conns && s.conns[fd].id == c.id && c.id in s.hist
    && JobsOf(s.jobs, c.id) == [] && DoneOf(s.completions, c.id) == []
    && Ready(c, s.hist[c.id], s.maxOutput)
  }

  /** The only identity that changes is the one whose connection, work and history are given. */
  lemma LocalChange(s: Server, s': Server, fd: int, c: Conn)
    requires Elsewhere(s, c.id) && fd in s.conns && s.conns[fd].id == c.id && c.id in s.hist
    requires s'.conns == s.conns[fd := c] && c.id in s'.hist && s'.hist == s.hist[c.id := s'.hist[c.id]]
    requires s'.nextId == s.nextId && s'.maxOutput == s.maxOutput
    requires forall j :: j in s'.jobs ==> j.connection in s.hist
    requires forall d :: d in s'.completions ==> d.connection in s.hist
    requires forall x :: x != c.id ==>
               JobsOf(s'.jobs, x) == JobsOf(s.jobs, x) && DoneOf(s'.completions, x) == DoneOf(s.completions, x)
    requires AtId(s', c.id) && AtFd(s', fd)
    ensures Inv(s')
  {
    hide JobsOf, DoneOf, IdOk, LiveOk;
    assert Table(s');
    assert Untouched(s, s', c.id);
    ElsewhereKept(s, s', c.id);
    InvFromLocal(s', c.id);
  }

  lemma LaunchIdle(s: Server, fd: int, c: Conn, pooled: bool, payload: Bytes)
    requires Launchable(s, fd, c) && c.queue == []
    ensures Inv(Launched(s, fd, c, pooled, payload))
  {
    hide JobsOf, DoneOf, IdOk, LiveOk, Ready, AtId, Elsewhere, Inv;
    var s' := Launched(s, fd, c, pooled, payload);
    LaunchNothing(c, s.hist[c.id], s.maxOutput);
    assert AtId(s', c.id) by { AtIdFrom(s', c.id); }
    assert s'.hist == s.hist[c.id := s'.hist[c.id]];
    TableOf(s, c.id);
    LocalChange(s, s', fd, Launch(c));
  }

  lemma TableOf(s: Server, id: nat)
    requires Elsewhere(s, id)
    ensures Table(s)
  {
  }

  lemma AtIdFrom(s: Server, id: nat)
    requires id in s.hist && IdOk(id, s.hist[id], JobsOf(s.jobs, id), DoneOf(s.completions, id))
    ensures AtId(s, id)
  {
  }

  lemma LaunchToPool(s: Server, fd: int, c: Conn, payload: Bytes)
    requires Launchable(s, fd, c) && c.queue != []
    ensures Inv(Launched(s, fd, c, true, payload))
  {
    hide JobsOf, DoneOf, IdOk, LiveOk, Ready, AtId, Elsewhere, Inv;
    var s', job := Launched(s, fd, c, true, payload), HeadJob(c);
    LaunchPooled(c, s.hist[c.id], s.maxOutput);
    forall x
      ensures JobsOf(s'.jobs, x) == JobsOf(s.jobs, x) + if x == c.id then [job] else []
    {
      JobAdded(s.jobs, job, x);
    }
    assert [] + [job] == [job];
    assert AtId(s', c.id) by { AtIdFrom(s', c.id); }
    assert s'.hist == s.hist[c.id := s'.hist[c.id]];
    TableOf(s, c.id);
    LocalChange(s, s', fd, Launch(c));
  }

  lemma LaunchInPlace(s: Server, fd: int, c: Conn, payload: Bytes)
    requires Launchable(s, fd, c) && c.queue != []
    ensures Inv(Launched(s, fd, c, false, payload))
  {
    hide JobsOf, DoneOf, IdOk, LiveOk, Ready, AtId, Elsewhere, Inv;
    var s', job, h := Launched(s, fd, c, false, payload), HeadJob(c), s.hist[c.id];
    var d := Completion(c.id, job.sequence, payload);
    LaunchPooled(c, h, s.maxOutput);
    RunOk(c.id, h, job, payload);
    RunLive(Launch(c), h, job, payload, s.maxOutput);
    forall x
      ensures DoneOf(s'.completions, x) == DoneOf(s.completions, x) + if x == c.id then [d] else []
    {
      DoneAdded(s.completions, d, x);
    }
    assert [] + [d] == [d];
    assert AtId(s', c.id) by { AtIdFrom(s', c.id); }
    TableOf(s, c.id);
    LocalChange(s, s', fd, Launch(c));
  }

  /** A strand with nothing outstanding is started or found idle. */
  lemma LaunchedKeeps(s: Server, fd: int, c: Conn, pooled: bool, payload: Bytes)
    requires Launchable(s, fd, c)
    ensures Inv(Launched(s, fd, c, pooled, payload))
  {
    hide Launchable, Launched, Inv;
    assert c.id in s.hist by { LaunchableId(s, fd, c); }
    if c.queue == [] {
      LaunchIdle(s, fd, c, pooled, payload);
    } else if pooled {
      LaunchToPool(s, fd, c, payload);
    } else {
      LaunchInPlace(s, fd, c, payload);
    }
  }

  lemma LaunchableId(s: Server, fd: int, c: Conn)
    requires Launchable(s, fd, c)
    ensures c.id in s.hist
  {
  }

  lemma RanHistoryIs(h: History, request: RespValue, payload: Bytes)
    ensures RanHistory(h, request, payload) ==
            h.(executed := h.executed + [request], replies := h.replies + [payload])
  {
  }

  lemma InvAt(s: Server, fd: int)
    requires Inv(s) && fd in s.conns
    ensures var id := s.conns[fd].id;
            && id in s.hist && IdOk(id, s.hist[id], JobsOf(s.jobs, id), DoneOf(s.completions, id))
            && LiveOk(s.conns[fd], s.hist[id], JobsOf(s.jobs, id), DoneOf(s.completions, id), s.maxOutput)
  {
    hide JobsOf, DoneOf, IdOk, LiveOk;
    assert AtFd(s, fd) && AtId(s, s.conns[fd].id);
  }

  lemma CommandKeeps(s: Server, step: Step)
    requires Inv(s) && step.Command? && Enabled(s, step)
    ensures Inv(Do(s, step))
  {
    hide JobsOf, DoneOf, IdOk, LiveOk, Ready, Inv, Elsewhere;
    var Command(fd, request, pooled, payload) := step;
    var c := s.conns[fd];
    var id, h := c.id, s.hist[c.id];
    var jobs, done := JobsOf(s.jobs, id), DoneOf(s.completions, id);
    InvAt(s, fd);
    EnqueueOk(c, h, jobs, done, s.maxOutput, request);
    var c', h' := Enqueue(c, request), h.(enqueued := h.enqueued + [request]);
    if c.running {
      UpdateKeeps(s, fd, c', h');
    } else {
      UpdateElsewhere(s, fd, c', h');
      LaunchedKeeps(s.(conns := s.conns[fd := c'], hist := s.hist[id := h']), fd, c', pooled, payload);
    }
  }

  lemma FailingKeeps(s: Server, fd: int)
    requires Inv(s) && Reads(s, fd) && s.conns[fd].id in s.hist
    ensures Inv(Failing(s, fd))
  {
    hide JobsOf, DoneOf, IdOk, LiveOk;
    var c := s.conns[fd];
    assert AtFd(s, fd) && AtId(s, c.id);
    FailOk(c, s.hist[c.id], JobsOf(s.jobs, c.id), DoneOf(s.completions, c.id), s.maxOutput);
    UpdateKeeps(s, fd, Fail(c), s.hist[c.id].(chunks := s.hist[c.id].chunks + [ProtocolError]));
  }

  lemma EndOfInputKeeps(s: Server, fd: int, leftover: bool)
    requires Inv(s) && Enabled(s, EndOfInput(fd, leftover))
    ensures Inv(Do(s, EndOfInput(fd, leftover)))
  {
    hide JobsOf, DoneOf, IdOk, InOrder, Flatten, Replies, Errors;
    if leftover {
      FailingKeeps(s, fd);
    } else {
      var c := s.conns[fd];
      assert AtFd(s, fd) && AtId(s, c.id);
      UpdateKeeps(s, fd, c.(readClosed := true, closing := c.inflight == 0 && c.output == []), s.hist[c.id]);
      assert s.hist[c.id := s.hist[c.id]] == s.hist;
    }
  }

  lemma SendKeeps(s: Server, fd: int, count: nat)
    requires Inv(s) && Enabled(s, Send(fd, count))
    ensures Inv(Do(s, Send(fd, count)))
  {
    hide JobsOf, DoneOf, IdOk, LiveOk;
    var c := s.conns[fd];
    var h := s.hist[c.id];
    assert AtFd(s, fd) && AtId(s, c.id);
    SendOk(c, h, JobsOf(s.jobs, c.id), DoneOf(s.completions, c.id), s.maxOutput, count);
    UpdateKeeps(s, fd, c.(output := c.output[count..]), h.(sent := h.sent + c.output[..count]));
  }

  lemma SendFailsKeeps(s: Server, fd: int)
    requires Inv(s) && Enabled(s, SendFails(fd))
    ensures Inv(Do(s, SendFails(fd)))
  {
    hide JobsOf, DoneOf, InOrder, Flatten, Replies, Errors;
    var c := s.conns[fd];
    var h := s.hist[c.id];
    assert AtFd(s, fd) && AtId(s, c.id);
    UpdateKeeps(s, fd, c.(closing := true, output := []), h.(broken := true));
  }

  lemma CloseKeeps(s: Server, fd: int)
    requires Inv(s)
    ensures Inv(s.(conns := s.conns - {fd}))
  {
    hide JobsOf, DoneOf, IdOk, LiveOk;
    var s' := s.(conns := s.conns - {fd});
    forall x
      ensures AtId(s', x)
    {
      assert AtId(s, x);
    }
    forall x
      ensures AtFd(s', x)
    {
      assert AtFd(s, x);
    }
  }

  lemma ExecuteKeeps(s: Server, index: nat, payload: Bytes)
    requires Inv(s) && Enabled(s, Execute(index, payload))
    ensures Inv(Do(s, Execute(index, payload)))
  {
    hide JobsOf, DoneOf, IdOk, LiveOk, RanHistory;
    var job := s.jobs[index];
    var id, h := job.connection, s.hist[job.connection];
    var s' := Do(s, Execute(index, payload));
    var rest, d := s.jobs[..index] + s.jobs[index + 1..], Completion(job.connection, job.sequence, payload);
    forall x
      ensures x != id ==> JobsOf(rest, x) == JobsOf(s.jobs, x)
      ensures DoneOf(s.completions + [d], x) == DoneOf(s.completions, x) + if x == id then [d] else []
    {
      JobTaken(s.jobs, index, x);
      DoneAdded(s.completions, d, x);
    }
    assert AtId(s, id);
    JobTaken(s.jobs, index, id);
    OneOutstanding(id, h, JobsOf(s.jobs, id), DoneOf(s.completions, id));
    assert JobsOf(s.jobs, id) == [job] && JobsOf(rest, id) == [] && [] + [d] == [d];
    RunOk(id, h, job, payload);
    RanHistoryIs(h, job.request, payload);
    InvElsewhere(s, id);
    assert Table(s') by { assert forall j :: j in rest ==> j in s.jobs; }
    assert Untouched(s, s', id);
    ElsewhereKept(s, s', id);
    forall fd | fd in s'.conns && s'.conns[fd].id == id
      ensures AtFd(s', fd)
    {
      assert AtFd(s, fd);
      RunLive(s.conns[fd], h, job, payload, s.maxOutput);
    }
    InvFromLocal(s', id);
  }

  lemma OneOutstanding(id: nat, h: History, jobs: seq<Job>, done: seq<Completion>)
    requires IdOk(id, h, jobs, done)
    ensures |jobs| + |done| <= 1
    ensures |jobs| == 1 ==> done == []
    ensures |done| == 1 ==> jobs == []
  {
  }

  lemma DeliverKeeps(s: Server, pooled: bool, payload: Bytes)
    requires Inv(s) && Enabled(s, Deliver(pooled, payload))
    ensures Inv(Do(s, Deliver(pooled, payload)))
  {
    hide JobsOf, DoneOf, IdOk, LiveOk, Ready, Flush, Flushed, Delivered;
    var d := s.completions[0];
    var id, h := d.connection, s.hist[d.connection];
    var s' := s.(completions := s.completions[1..]);
    forall x
      ensures DoneOf(s.completions, x) == (if x == id then [d] else []) + DoneOf(s'.completions, x)
    {
      DoneTaken(s.completions, x);
    }
    assert AtId(s, id);
    OneOutstanding(id, h, JobsOf(s.jobs, id), DoneOf(s.completions, id));
    assert DoneOf(s'.completions, id) == [] && DoneOf(s.completions, id) == [d];
    InvElsewhere(s, id);
    assert Table(s') by { assert forall c :: c in s'.completions ==> c in s.completions; }
    forall x | x != id
      ensures DoneOf(s'.completions, x) == DoneOf(s.completions, x)
    {
      assert [] + DoneOf(s'.completions, x) == DoneOf(s'.completions, x);
    }
    assert Untouched(s, s', id);
    ElsewhereKept(s, s', id);
    if fd :| fd in s'.conns && Owner(s', id, fd) {
      assert Do(s, Deliver(pooled, payload)) == Delivered(s', fd, d, pooled, payload);
      DeliveredKeeps(s, s', fd, d, pooled, payload);
    } else {
      Dropped(id, h, d);
      assert AtId(s', id);
      InvFromLocal(s', id);
    }
  }

  lemma Dropped(id: nat, h: History, d: Completion)
    requires IdOk(id, h, [], [d])
    ensures IdOk(id, h, [], [])
  {
  }

  lemma DeliveredKeeps(s: Server, s': Server, fd: int, d: Completion, pooled: bool, payload: Bytes)
    requires Inv(s) && fd in s.conns && s.conns[fd].id == d.connection && d.connection in s.hist
    requires s'.conns == s.conns && s'.hist == s.hist && s'.maxOutput == s.maxOutput && s'.jobs == s.jobs
    requires Elsewhere(s', d.connection)
    requires JobsOf(s.jobs, d.connection) == [] && DoneOf(s.completions, d.connection) == [d]
    requires DoneOf(s'.completions, d.connection) == []
    ensures Inv(Delivered(s', fd, d, pooled, payload))
  {
    hide JobsOf, DoneOf, IdOk, LiveOk, Ready, Flush, Flushed, Note;
    var id, c, h := d.connection, s.conns[fd], s.hist[d.connection];
    assert AtFd(s, fd) && AtId(s, id);
    DeliverOk(c, h, d, s.maxOutput);
    var noted := Note(c, d.sequence, d.payload);
    assert noted.id == id by { NoteKeepsId(c, d.sequence, d.payload); }
    var c', h' := Flush(noted, s.maxOutput), h.(chunks := h.chunks + Flushed(noted, s.maxOutput));
    var s'' := s'.(hist := s'.hist[id := h']);
    assert Table(s'') && Untouched(s', s'', id);
    ElsewhereKept(s', s'', id);
    LaunchedKeeps(s'', fd, c', pooled, payload);
  }

  lemma NoteKeepsId(c: Conn, sequence: nat, payload: Bytes)
    ensures Note(c, sequence, payload).id == c.id
  {
  }

  lemma StepKeeps(s: Server, step: Step)
    requires Inv(s) && Enabled(s, step)
    ensures Inv(Do(s, step))
  {
    hide Inv;
    match step {
      case Accept(fd) => AcceptKeeps(s, fd);
      case Command(_, _, _, _) => CommandKeeps(s, step);
      case BadInput(fd) => FailingKeeps(s, fd);
      case EndOfInput(fd, leftover) => EndOfInputKeeps(s, fd, leftover);
      case Execute(index, payload) => ExecuteKeeps(s, index, payload);
      case Deliver(pooled, payload) => DeliverKeeps(s, pooled, payload);
      case Send(fd, count) => SendKeeps(s, fd, count);
      case SendFails(fd) => SendFailsKeeps(s, fd);
      case Close(fd) => CloseKeeps(s, fd);
      case CloseDrained(fd) => CloseKeeps(s, fd);
      case CloseIdle(fd) => CloseKeeps(s, fd);
    }
  }
}
