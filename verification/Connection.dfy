/** The connection object of the I/O thread (src/server/server.cpp), updated in place. */
module ConnectionObject {
  import opened Common
  import opened Resp
  import opened Strand

  /** `c` with its next response moved to the output. */
  function Moved(c: Conn): Conn
    requires c.nextResponse in c.pending
  {
    c.(output := c.output + c.pending[c.nextResponse], pending := c.pending - {c.nextResponse},
       nextResponse := c.nextResponse + 1)
  }

  lemma FlushMoves(c: Conn, maxOutput: nat)
    requires c.nextResponse in c.pending && !Overflows(c, c.pending[c.nextResponse], maxOutput)
    ensures Flush(c, maxOutput) == Flush(Moved(c), maxOutput)
    ensures Flushed(c, maxOutput) ==
            [Reply(c.id, c.nextResponse, c.pending[c.nextResponse])] + Flushed(Moved(c), maxOutput)
    ensures |Moved(c).pending| < |c.pending|
  {
    assert (c.pending - {c.nextResponse}).Keys == c.pending.Keys - {c.nextResponse};
  }

  lemma FlushStops(c: Conn, maxOutput: nat)
    requires c.nextResponse in c.pending ==> Overflows(c, c.pending[c.nextResponse], maxOutput)
    ensures Flush(c, maxOutput) ==
            if c.nextResponse in c.pending then c.(closing := true, readClosed := true, pending := map[]) else c
    ensures Flushed(c, maxOutput) == []
  {
  }

  class Connection {
    const id: nat
    var output: Bytes
    var nextRequest: nat
    var nextResponse: nat
    var pending: map<nat, Bytes>
    var queue: seq<Queued>
    var running: bool
    var inflight: nat
    var readClosed: bool
    var closing: bool

    /** The value that the strand protocol is proved about. */
    function State(): Conn
      reads this
    {
      Conn(id, output, nextRequest, nextResponse, pending, queue, running, inflight, readClosed, closing)
    }

    constructor (id: nat)
      ensures State() == NewConn(id)
    {
      this.id := id;
      output, nextRequest, nextResponse, pending := [], 0, 0, map[];
      queue, running, inflight, readClosed, closing := [], false, 0, false, false;
    }

    /** Takes the head of the queue; the caller submits the job. */
    method LaunchStrand() returns (job: Option<Job>)
      modifies this
      ensures State() == Launch(old(State()))
      ensures job == if old(queue) == [] then None else Some(HeadJob(old(State())))
    {
      if queue == [] {
        running := false;
        return None;
      }
      var item := queue[0];
      queue := queue[1..];
      running := true;
      job := Some(Job(id, item.sequence, item.request));
    }

    method EnqueueCommand(request: RespValue) returns (job: Option<Job>)
      modifies this
      ensures var c := Enqueue(old(State()), request);
              && State() == (if old(running) then c else Launch(c))
              && job == (if old(running) then None else Some(HeadJob(c)))
    {
      var sequence := nextRequest;
      nextRequest := nextRequest + 1;
      inflight := inflight + 1;
      queue := queue + [Queued(sequence, request)];
      job := None;
      if !running {
        job := LaunchStrand();
      }
    }

    /** Moves responses to the output while the next one in sequence is there and fits. */
    method FlushResponses(maxOutput: nat) returns (ghost chunks: seq<Chunk>)
      modifies this
      ensures State() == Flush(old(State()), maxOutput)
      ensures chunks == Flushed(old(State()), maxOutput)
    {
      hide Flush, Flushed;
      chunks := [];
      while nextResponse in pending
        invariant Flush(State(), maxOutput) == Flush(old(State()), maxOutput)
        invariant chunks + Flushed(State(), maxOutput) == Flushed(old(State()), maxOutput)
        decreases |pending|
      {
        var payload := pending[nextResponse];
        ghost var before := State();
        if |output| > maxOutput || |payload| > maxOutput - |output| {
          FlushStops(before, maxOutput);
          closing := true;
          readClosed := true;
          pending := map[];
          return;
        }
        FlushMoves(before, maxOutput);
        output := output + payload;
        pending := pending - {nextResponse};
        nextResponse := nextResponse + 1;
        assert State() == Moved(before);
        ghost var one := [Reply(id, before.nextResponse, payload)];
        assert chunks + (one + Flushed(State(), maxOutput)) == (chunks + one) + Flushed(State(), maxOutput);
        chunks := chunks + one;
      }
      FlushStops(State(), maxOutput);
    }

    method ApplyCompletion(sequence: nat, payload: Bytes, maxOutput: nat) returns (job: Option<Job>)
      modifies this
      ensures var c := Flush(Note(old(State()), sequence, payload), maxOutput);
              && State() == Launch(c)
              && job == (if c.queue == [] then None else Some(HeadJob(c)))
    {
      hide Flush, Flushed;
      if sequence !in pending {
        pending := pending[sequence := payload];
      }
      if inflight > 0 {
        inflight := inflight - 1;
      }
      ghost var chunks := FlushResponses(maxOutput);
      job := LaunchStrand();
    }

    method ProtocolFailure()
      modifies this
      ensures State() == Fail(old(State()))
    {
      output := output + ERROR_TEXT;
      closing := true;
      readClosed := true;
    }
  }
}
