/**
 Connections, their command strands and the delivery of responses (src/server/server.cpp).  The I/O
 thread owns the connections; workers only execute jobs and queue completions.  Socket reads,
 writes and wakeups are arbitrary steps.
 */
module Strand {
  import opened Common
  import opened Resp

  datatype Queued = Queued(sequence: nat, request: RespValue)

  datatype Conn = Conn(
    id: nat, output: Bytes, nextRequest: nat, nextResponse: nat, pending: map<nat, Bytes>,
    queue: seq<Queued>, running: bool, inflight: nat, readClosed: bool, closing: bool)

  datatype Job = Job(connection: nat, sequence: nat, request: RespValue)

  datatype Completion = Completion(connection: nat, sequence: nat, payload: Bytes)

  /** "ERR Protocol error" as an error reply. */
  const ERROR_TEXT: Bytes :=
    Line(45, [69, 82, 82, 32, 80, 114, 111, 116, 111, 99, 111, 108, 32, 101, 114, 114, 111, 114])

  // ----- What was ever appended to a connection's output -----

  datatype Chunk = Reply(from: nat, sequence: nat, payload: Bytes) | ProtocolError

  function ChunkBytes(c: Chunk): Bytes {
    match c
    case Reply(_, _, payload) => payload
    case ProtocolError => ERROR_TEXT
  }

  function Flatten(chunks: seq<Chunk>): Bytes {
    if chunks == [] then [] else Flatten(chunks[..|chunks| - 1]) + ChunkBytes(chunks[|chunks| - 1])
  }

  function Replies(chunks: seq<Chunk>): nat {
    if chunks == [] then 0
    else Replies(chunks[..|chunks| - 1]) + if chunks[|chunks| - 1].Reply? then 1 else 0
  }

  function Errors(chunks: seq<Chunk>): nat {
    if chunks == [] then 0
    else Errors(chunks[..|chunks| - 1]) + if chunks[|chunks| - 1].ProtocolError? then 1 else 0
  }

  // ----- One connection -----

  function NewConn(id: nat): Conn {
    Conn(id, [], 0, 0, map[], [], false, 0, false, false)
  }

  /** `enqueue_command` up to the launch of the strand. */
  function Enqueue(c: Conn, request: RespValue): Conn {
    c.(nextRequest := c.nextRequest + 1, inflight := c.inflight + 1,
       queue := c.queue + [Queued(c.nextRequest, request)])
  }

  /** `launch_strand`: the head of the queue becomes a job. */
  function Launch(c: Conn): Conn {
    if c.queue == [] then c.(running := false) else c.(queue := c.queue[1..], running := true)
  }

  function HeadJob(c: Conn): Job
    requires c.queue != []
  {
    Job(c.id, c.queue[0].sequence, c.queue[0].request)
  }

  predicate Overflows(c: Conn, payload: Bytes, maxOutput: nat) {
    |c.output| > maxOutput || |payload| > maxOutput - |c.output|
  }

  /** The loop that moves responses to the output in sequence, until one does not fit. */
  function Flush(c: Conn, maxOutput: nat): Conn
    decreases |c.pending|
  {
    if c.nextResponse !in c.pending then c
    else if Overflows(c, c.pending[c.nextResponse], maxOutput) then
      c.(closing := true, readClosed := true, pending := map[])
    else
      assert (c.pending - {c.nextResponse}).Keys == c.pending.Keys - {c.nextResponse};
      Flush(c.(output := c.output + c.pending[c.nextResponse], pending := c.pending - {c.nextResponse},
               nextResponse := c.nextResponse + 1), maxOutput)
  }

  /** The replies which that loop appends. */
  function Flushed(c: Conn, maxOutput: nat): seq<Chunk>
    decreases |c.pending|
  {
    if c.nextResponse !in c.pending || Overflows(c, c.pending[c.nextResponse], maxOutput) then []
    else
      assert (c.pending - {c.nextResponse}).Keys == c.pending.Keys - {c.nextResponse};
      [Reply(c.id, c.nextResponse, c.pending[c.nextResponse])] +
      Flushed(c.(output := c.output + c.pending[c.nextResponse], pending := c.pending - {c.nextResponse},
                 nextResponse := c.nextResponse + 1), maxOutput)
  }

  /** A completion is noted; an existing note for the same sequence number would be kept. */
  function Note(c: Conn, sequence: nat, payload: Bytes): Conn {
    c.(pending := if sequence in c.pending then c.pending else c.pending[sequence := payload],
       inflight := if c.inflight > 0 then c.inflight - 1 else 0)
  }

  function Fail(c: Conn): Conn {
    c.(output := c.output + ERROR_TEXT, closing := true, readClosed := true)
  }

  // ----- The server -----

  /** The history of one connection identity, kept after the connection is gone. */
  datatype History = History(
    enqueued: seq<RespValue>, executed: seq<RespValue>, replies: seq<Bytes>, chunks: seq<Chunk>,
    sent: Bytes, broken: bool)

  datatype Server = Server(
    conns: map<int, Conn>, nextId: nat, jobs: seq<Job>, completions: seq<Completion>,
    hist: map<nat, History>, maxOutput: nat)

  function Start(maxOutput: nat): Server {
    Server(map[], 1, [], [], map[], maxOutput)
  }

  datatype Step =
    | Accept(fd: int)
    | Command(fd: int, request: RespValue, pooled: bool, payload: Bytes)
    | BadInput(fd: int)
    | EndOfInput(fd: int, leftover: bool)
    | Execute(index: nat, payload: Bytes)
    | Deliver(pooled: bool, payload: Bytes)
    | Send(fd: int, count: nat)
    | SendFails(fd: int)
    | Close(fd: int)
    | CloseDrained(fd: int)
    | CloseIdle(fd: int)

  predicate Reads(s: Server, fd: int) {
    fd in s.conns && !s.conns[fd].readClosed && !s.conns[fd].closing
  }

  predicate Enabled(s: Server, step: Step) {
    match step
    case Accept(fd) => fd !in s.conns
    case Command(fd, _, _, _) => Reads(s, fd) && s.conns[fd].id in s.hist
    case BadInput(fd) => Reads(s, fd) && s.conns[fd].id in s.hist
    case EndOfInput(fd, _) => Reads(s, fd) && s.conns[fd].id in s.hist
    case Execute(index, _) => index < |s.jobs| && s.jobs[index].connection in s.hist
    case Deliver(_, _) => s.completions != [] && s.completions[0].connection in s.hist
    case Send(fd, count) => fd in s.conns && count <= |s.conns[fd].output| && s.conns[fd].id in s.hist
    case SendFails(fd) => fd in s.conns && s.conns[fd].output != [] && s.conns[fd].id in s.hist
    case Close(fd) => fd in s.conns
    case CloseDrained(fd) =>
      fd in s.conns && s.conns[fd].closing && s.conns[fd].output == [] && s.conns[fd].inflight == 0
    case CloseIdle(fd) => fd in s.conns && s.conns[fd].inflight == 0
  }

  /** A saturated pool refuses the job and the I/O thread runs it in place. */
  function Submit(s: Server, job: Job, pooled: bool, payload: Bytes): Server
    requires job.connection in s.hist
  {
    if pooled then s.(jobs := s.jobs + [job]) else Ran(s, job, payload)
  }

  function Ran(s: Server, job: Job, payload: Bytes): Server
    requires job.connection in s.hist
  {
    var h := s.hist[job.connection];
    s.(completions := s.completions + [Completion(job.connection, job.sequence, payload)],
       hist := s.hist[job.connection := h.(executed := h.executed + [job.request],
                                           replies := h.replies + [payload])])
  }

  /** Starts the strand of `c`, stored under `fd`, if it has a command waiting. */
  function Launched(s: Server, fd: int, c: Conn, pooled: bool, payload: Bytes): Server
    requires c.id in s.hist
  {
    var s' := s.(conns := s.conns[fd := Launch(c)]);
    if c.queue == [] then s' else Submit(s', HeadJob(c), pooled, payload)
  }

  /** The connection that has the identity, if it is still open. */
  predicate Owner(s: Server, id: nat, fd: int) {
    fd in s.conns && s.conns[fd].id == id
  }

  ghost function Do(s: Server, step: Step): Server
    requires Enabled(s, step)
  {
    match step
    case Accept(fd) =>
      s.(conns := s.conns[fd := NewConn(s.nextId)], nextId := s.nextId + 1,
         hist := s.hist[s.nextId := History([], [], [], [], [], false)])
    case Command(fd, request, pooled, payload) =>
      var c := Enqueue(s.conns[fd], request);
      var h := s.hist[c.id];
      var s' := s.(conns := s.conns[fd := c], hist := s.hist[c.id := h.(enqueued := h.enqueued + [request])]);
      if c.running then s' else Launched(s', fd, c, pooled, payload)
    case BadInput(fd) => Failing(s, fd)
    case EndOfInput(fd, leftover) =>
      var c := s.conns[fd];
      if leftover then Failing(s, fd)
      else s.(conns := s.conns[fd := c.(readClosed := true, closing := c.inflight == 0 && c.output == [])])
    case Execute(index, payload) =>
      var job := s.jobs[index];
      Ran(s.(jobs := s.jobs[..index] + s.jobs[index + 1..]), job, payload)
    case Deliver(pooled, payload) =>
      var done := s.completions[0];
      var s' := s.(completions := s.completions[1..]);
      if fd :| fd in s'.conns && Owner(s', done.connection, fd) then Delivered(s', fd, done, pooled, payload) else s'
    case Send(fd, count) =>
      var c := s.conns[fd];
      var h := s.hist[c.id];
      s.(conns := s.conns[fd := c.(output := c.output[count..])],
         hist := s.hist[c.id := h.(sent := h.sent + c.output[..count])])
    case SendFails(fd) =>
      var c := s.conns[fd];
      s.(conns := s.conns[fd := c.(closing := true, output := [])],
         hist := s.hist[c.id := s.hist[c.id].(broken := true)])
    case Close(fd) => s.(conns := s.conns - {fd})
    case CloseDrained(fd) => s.(conns := s.conns - {fd})
    case CloseIdle(fd) => s.(conns := s.conns - {fd})
  }

  function Failing(s: Server, fd: int): Server
    requires fd in s.conns && s.conns[fd].id in s.hist
  {
    var c := s.conns[fd];
    var h := s.hist[c.id];
    s.(conns := s.conns[fd := Fail(c)], hist := s.hist[c.id := h.(chunks := h.chunks + [ProtocolError])])
  }

  /** `apply_completion` for the connection that issued the command. */
  function Delivered(s: Server, fd: int, done: Completion, pooled: bool, payload: Bytes): Server
    requires fd in s.conns && s.conns[fd].id in s.hist
  {
    var noted := Note(s.conns[fd], done.sequence, done.payload);
    var c := Flush(noted, s.maxOutput);
    var h := s.hist[noted.id];
    assert c.id == noted.id by { FlushKeeps(noted, s.maxOutput); }
    Launched(s.(hist := s.hist[noted.id := h.(chunks := h.chunks + Flushed(noted, s.maxOutput))]),
             fd, c, pooled, payload)
  }

  lemma {:induction false} FlushKeeps(c: Conn, maxOutput: nat)
    ensures var f := Flush(c, maxOutput);
            && f.id == c.id && f.queue == c.queue && f.inflight == c.inflight
            && f.nextRequest == c.nextRequest && f.running == c.running
    decreases |c.pending|
  {
    if c.nextResponse in c.pending && !Overflows(c, c.pending[c.nextResponse], maxOutput) {
      assert (c.pending - {c.nextResponse}).Keys == c.pending.Keys - {c.nextResponse};
      FlushKeeps(c.(output := c.output + c.pending[c.nextResponse], pending := c.pending - {c.nextResponse},
                    nextResponse := c.nextResponse + 1), maxOutput);
    }
  }
}
