/**
 From bytes to commands (src/server/server.cpp:218-280): each connection has a parser, what arrives is fed
 to it, and the values it yields become commands of the connection's strand.  The strand machine and the
 parser run together here, in every interleaving of arrivals, reads of the parser and all other steps.
 */
module Intake {
  import opened Common
  import opened Resp
  import opened RespParser
  import opened Strand
  import RespStream
  import StrandSafety
  import StrandRuns

  /** `is_command_request`: a non-empty array of bulk strings that are present. */
  predicate IsRequest(v: RespValue) {
    v.Array? && v.items != [] && forall i :: 0 <= i < |v.items| ==> v.items[i].Bulk?
  }

  /** What one connection's parser went through, the bytes of a feed that it refused, and whether input has ended. */
  datatype Link = Link(events: seq<RespStream.Event>, refused: Bytes, ended: bool)

  datatype Joint = Joint(server: Server, links: map<nat, Link>, limits: Limits)

  function LinkOf(j: Joint, id: nat): Link {
    if id in j.links then j.links[id] else Link([], [], false)
  }

  /** Every byte received for the connection. */
  function Received(l: Link): Bytes {
    RespStream.Stream(l.events) + l.refused
  }

  function Taken(l: Link, limits: Limits): seq<RespValue> {
    RespStream.Values(RespStream.Run(l.events, limits).answers)
  }

  datatype Move =
    | Arrive(fd: int, bytes: Bytes)
    | Take(fd: int, pooled: bool, payload: Bytes)
    | End(fd: int)
    | Other(step: Step)

  predicate Takes(step: Step) {
    step.Command? || step.BadInput? || step.EndOfInput?
  }

  predicate Possible(j: Joint, m: Move) {
    match m
    case Other(step) => !Takes(step) && Enabled(j.server, step)
    case _ => Reads(j.server, m.fd) && j.server.conns[m.fd].id in j.server.hist
  }

  /** The strand step that a move makes, if it makes one. */
  function StepOf(j: Joint, m: Move): Option<Step>
    requires Possible(j, m)
  {
    match m
    case Other(step) => Some(step)
    case Arrive(fd, bytes) =>
      var buffer := RespStream.Run(LinkOf(j, j.server.conns[fd].id).events, j.limits).buffer;
      if RespStream.AfterFeed(buffer, bytes, j.limits).oversized then Some(BadInput(fd)) else None
    case Take(fd, pooled, payload) =>
      var buffer := RespStream.Run(LinkOf(j, j.server.conns[fd].id).events, j.limits).buffer;
      (match RespStream.Answer(buffer, j.limits)
       case Incomplete => None
       case Failed(_, _) => Some(BadInput(fd))
       case Complete(v, _) => Some(if IsRequest(v) then Command(fd, v, pooled, payload) else BadInput(fd)))
    case End(fd) =>
      var buffer := RespStream.Run(LinkOf(j, j.server.conns[fd].id).events, j.limits).buffer;
      Some(EndOfInput(fd, buffer.bytes != []))
  }

  function NewLink(j: Joint, m: Move): Link
    requires Possible(j, m) && !m.Other?
  {
    var l := LinkOf(j, j.server.conns[m.fd].id);
    match m
    case Arrive(_, bytes) =>
      if StepOf(j, m).Some? then l.(refused := bytes) else l.(events := l.events + [RespStream.Feed(bytes)])
    case Take(_, _, _) => l.(events := l.events + [RespStream.Next])
    case End(_) => l.(ended := true)
  }

  lemma StepIsEnabled(j: Joint, m: Move)
    requires Possible(j, m) && StepOf(j, m).Some?
    ensures Enabled(j.server, StepOf(j, m).value)
  {
    hide RespStream.Run;
  }

  ghost function ServerAfter(j: Joint, m: Move): Server
    requires Possible(j, m)
  {
    if StepOf(j, m).None? then j.server
    else
      StepIsEnabled(j, m);
      Do(j.server, StepOf(j, m).value)
  }

  ghost function Moved(j: Joint, m: Move): Joint
    requires Possible(j, m)
  {
    if m.Other? then j.(server := ServerAfter(j, m))
    else j.(server := ServerAfter(j, m), links := j.links[j.server.conns[m.fd].id := NewLink(j, m)])
  }

  ghost predicate IsRun(states: seq<Joint>, moves: seq<Move>, maxOutput: nat, limits: Limits) {
    && |states| == |moves| + 1 && states[0] == Joint(Start(maxOutput), map[], limits)
    && forall i :: 0 <= i < |moves| ==> Possible(states[i], moves[i]) && states[i + 1] == Moved(states[i], moves[i])
  }

  // ----- The server of a joint run is the server of a strand run -----

  lemma {:induction false} ServerRun(states: seq<Joint>, moves: seq<Move>, maxOutput: nat, limits: Limits, n: nat)
    returns (servers: seq<Server>, steps: seq<Step>)
    requires IsRun(states, moves, maxOutput, limits) && n < |states|
    ensures StrandRuns.IsRun(servers, steps, maxOutput) && servers[|steps|] == states[n].server
    ensures states[n].limits == limits
  {
    hide Do, Enabled, StepOf, NewLink, Start, Possible, StrandRuns.IsRun;
    if n == 0 {
      EmptyRun(maxOutput);
      servers, steps := [Start(maxOutput)], [];
    } else {
      servers, steps := ServerRun(states, moves, maxOutput, limits, n - 1);
      ServersLength(servers, steps, maxOutput);
      var j, m := states[n - 1], moves[n - 1];
      if StepOf(j, m).Some? {
        StepIsEnabled(j, m);
        var step := StepOf(j, m).value;
        OneStepMore(servers, steps, maxOutput, step);
        servers, steps := servers + [Do(j.server, step)], steps + [step];
      }
    }
  }

  lemma EmptyRun(maxOutput: nat)
    ensures StrandRuns.IsRun([Start(maxOutput)], [], maxOutput)
  {
  }

  lemma OneStepMore(servers: seq<Server>, steps: seq<Step>, maxOutput: nat, step: Step)
    requires StrandRuns.IsRun(servers, steps, maxOutput) && Enabled(servers[|steps|], step)
    ensures StrandRuns.IsRun(servers + [Do(servers[|steps|], step)], steps + [step], maxOutput)
  {
    hide Do, Enabled, Start;
    var servers', steps' := servers + [Do(servers[|steps|], step)], steps + [step];
    forall i | 0 <= i < |steps'|
      ensures Enabled(servers'[i], steps'[i]) && servers'[i + 1] == Do(servers'[i], steps'[i])
    {
      if i < |steps| {
        assert servers'[i] == servers[i] && steps'[i] == steps[i] && servers'[i + 1] == servers[i + 1];
      }
    }
  }

  lemma ServerInv(states: seq<Joint>, moves: seq<Move>, maxOutput: nat, limits: Limits, n: nat)
    requires IsRun(states, moves, maxOutput, limits) && n < |states|
    ensures StrandSafety.Inv(states[n].server) && states[n].limits == limits
  {
    hide IsRun, StrandRuns.IsRun, StrandSafety.Inv;
    var servers, steps := ServerRun(states, moves, maxOutput, limits, n);
    assert |servers| == |steps| + 1 by { ServersLength(servers, steps, maxOutput); }
    StrandRuns.RunInv(servers, steps, maxOutput, |steps|);
  }

  lemma ServersLength(servers: seq<Server>, steps: seq<Step>, maxOutput: nat)
    requires StrandRuns.IsRun(servers, steps, maxOutput)
    ensures |servers| == |steps| + 1
  {
  }

  // ----- What a strand step does to the commands and to reading -----

  lemma EnqueuedKept(s: Server, step: Step, id: nat)
    requires StrandSafety.Inv(s) && Enabled(s, step) && id in s.hist
    requires step.Command? ==> s.conns[step.fd].id != id
    ensures id in Do(s, step).hist && Do(s, step).hist[id].enqueued == s.hist[id].enqueued
  {
    hide StrandSafety.AtId, StrandSafety.AtFd, Flush, Flushed, Note, Flatten;
    if step.Deliver? {
      var done := s.completions[0];
      var t := s.(completions := s.completions[1..]);
      if fd :| fd in t.conns && Owner(t, done.connection, fd) {
        assert Do(s, step) == Delivered(t, fd, done, step.pooled, step.payload);
        DeliveredEnqueued(t, fd, done, step.pooled, step.payload, id);
      }
    }
  }

  lemma DeliveredEnqueued(s: Server, fd: int, done: Completion, pooled: bool, payload: Bytes, id: nat)
    requires fd in s.conns && s.conns[fd].id in s.hist && id in s.hist
    ensures var s' := Delivered(s, fd, done, pooled, payload);
            id in s'.hist && s'.hist[id].enqueued == s.hist[id].enqueued
  {
    hide Flush, Flushed;
    FlushKeeps(Note(s.conns[fd], done.sequence, done.payload), s.maxOutput);
  }

  lemma CommandEnqueues(s: Server, step: Step)
    requires Enabled(s, step) && step.Command?
    ensures var id := s.conns[step.fd].id;
            id in Do(s, step).hist && Do(s, step).hist[id].enqueued == s.hist[id].enqueued + [step.request]
  {
  }

  /** A connection that reads after a step read before it, unless the step accepted it. */
  lemma ReadBefore(s: Server, step: Step, fd: int)
    requires StrandSafety.Inv(s) && Enabled(s, step) && Reads(Do(s, step), fd)
    ensures if step == Accept(fd) then Do(s, step).conns[fd].id == s.nextId
            else
              && Reads(s, fd) && Do(s, step).conns[fd].id == s.conns[fd].id
              && step != BadInput(fd) && !(step.EndOfInput? && step.fd == fd)
  {
    hide StrandSafety.AtId, StrandSafety.AtFd, Flush, Flushed, Note, Flatten;
    if step.Deliver? {
      var done := s.completions[0];
      var t := s.(completions := s.completions[1..]);
      if own :| own in t.conns && Owner(t, done.connection, own) {
        assert Do(s, step) == Delivered(t, own, done, step.pooled, step.payload);
        DeliveredReads(t, own, done, step.pooled, step.payload, fd);
      }
    }
  }

  lemma DeliveredReads(s: Server, own: int, done: Completion, pooled: bool, payload: Bytes, fd: int)
    requires own in s.conns && s.conns[own].id in s.hist
    requires Reads(Delivered(s, own, done, pooled, payload), fd)
    ensures Reads(s, fd) && Delivered(s, own, done, pooled, payload).conns[fd].id == s.conns[fd].id
  {
    hide Flush, Flushed;
    var noted := Note(s.conns[own], done.sequence, done.payload);
    FlushKeeps(noted, s.maxOutput);
    FlushCloses(noted, s.maxOutput);
  }

  /** A flush may close a connection but opens none. */
  lemma {:induction false} FlushCloses(c: Conn, maxOutput: nat)
    ensures c.closing ==> Flush(c, maxOutput).closing
    ensures c.readClosed ==> Flush(c, maxOutput).readClosed
    decreases |c.pending|
  {
    if c.nextResponse in c.pending && !Overflows(c, c.pending[c.nextResponse], maxOutput) {
      assert (c.pending - {c.nextResponse}).Keys == c.pending.Keys - {c.nextResponse};
      FlushCloses(c.(output := c.output + c.pending[c.nextResponse], pending := c.pending - {c.nextResponse},
                     nextResponse := c.nextResponse + 1), maxOutput);
    }
  }

  // ----- The invariant of the intake -----

  predicate IsPrefix(a: seq<RespValue>, b: seq<RespValue>) {
    |a| <= |b| && a == b[..|a|]
  }

  /** The parser was not refused, and the commands are the first values it yielded. */
  predicate Sound(j: Joint, id: nat) {
    id in j.server.hist ==>
      && !RespStream.Run(LinkOf(j, id).events, j.limits).buffer.oversized
      && IsPrefix(j.server.hist[id].enqueued, Taken(LinkOf(j, id), j.limits))
  }

  /** While the connection reads, they are all of them, and no feed was refused. */
  predicate Current(j: Joint, fd: int) {
    Reads(j.server, fd) && j.server.conns[fd].id in j.server.hist ==>
      var id := j.server.conns[fd].id;
      j.server.hist[id].enqueued == Taken(LinkOf(j, id), j.limits) && LinkOf(j, id).refused == []
  }

  ghost predicate Inv(j: Joint) {
    && (forall id :: id in j.links ==> id in j.server.hist)
    && (forall id :: Sound(j, id)) && (forall fd :: Current(j, fd))
  }

  /** One more event of the parser. */
  lemma OneMore(l: Link, event: RespStream.Event, limits: Limits)
    ensures var t, t' := RespStream.Run(l.events, limits), RespStream.Run(l.events + [event], limits);
            match event
            case Feed(bytes) => t' == RespStream.Trace(RespStream.AfterFeed(t.buffer, bytes, limits), t.answers)
            case Next =>
              && t'.buffer.oversized == t.buffer.oversized
              && RespStream.Values(t'.answers) == RespStream.Values(t.answers) +
                 (var r := RespStream.Answer(t.buffer, limits); if r.Complete? then [r.value] else [])
  {
    hide ParseValue;
    assert (l.events + [event])[..|l.events|] == l.events;
    var t := RespStream.Run(l.events, limits);
    if event.Next? {
      var r := RespStream.Answer(t.buffer, limits);
      assert (t.answers + [r])[..|t.answers|] == t.answers;
    }
  }

  /** What a move of its own does to the values taken from a connection that reads. */
  lemma LinkMoves(j: Joint, m: Move)
    requires Possible(j, m) && !m.Other?
    requires !RespStream.Run(LinkOf(j, j.server.conns[m.fd].id).events, j.limits).buffer.oversized
    ensures var l, l', step := LinkOf(j, j.server.conns[m.fd].id), NewLink(j, m), StepOf(j, m);
            && !RespStream.Run(l'.events, j.limits).buffer.oversized
            && IsPrefix(Taken(l, j.limits), Taken(l', j.limits))
            && (step.None? ==> Taken(l', j.limits) == Taken(l, j.limits) && l'.refused == l.refused)
            && (step.Some? && step.value.Command? ==>
                  && step.value.fd == m.fd && l'.refused == l.refused
                  && Taken(l', j.limits) == Taken(l, j.limits) + [step.value.request])
            && (step.Some? && !step.value.Command? ==> step.value == BadInput(m.fd) || step.value.EndOfInput?)
            && (step.Some? && step.value.EndOfInput? ==> step.value.fd == m.fd)
  {
    hide RespStream.Run, RespStream.Values, RespStream.Answer, RespStream.AfterFeed;
    var l := LinkOf(j, j.server.conns[m.fd].id);
    match m {
      case Arrive(_, bytes) => OneMore(l, RespStream.Feed(bytes), j.limits);
      case Take(_, _, _) => OneMore(l, RespStream.Next, j.limits);
      case End(_) =>
    }
  }

  lemma StepIdle(j: Joint, m: Move)
    requires Inv(j) && Possible(j, m) && StepOf(j, m).None?
    ensures Inv(Moved(j, m))
  {
    hide Taken, RespStream.Run, StepOf, NewLink, IsPrefix;
    assert !m.Other? by { OtherSteps(j, m); }
    var id := j.server.conns[m.fd].id;
    assert Sound(j, id) && Current(j, m.fd);
    LinkMoves(j, m);
    var j' := Moved(j, m);
    forall x
      ensures Sound(j', x)
    {
      assert Sound(j, x);
    }
    forall fd
      ensures Current(j', fd)
    {
      assert Current(j, fd);
    }
  }

  lemma OtherSteps(j: Joint, m: Move)
    requires Possible(j, m)
    ensures m.Other? ==> StepOf(j, m) == Some(m.step)
  {
  }

  lemma StepOther(j: Joint, m: Move)
    requires StrandSafety.Inv(j.server) && Inv(j) && Possible(j, m) && m.Other?
    ensures Inv(Moved(j, m))
  {
    hide Taken, RespStream.Run, StepOf, IsPrefix, Do, StrandSafety.Inv;
    OtherSteps(j, m);
    var step, j' := m.step, Moved(j, m);
    assert j'.server == Do(j.server, step) && j'.links == j.links;
    forall id | id in j.server.hist
      ensures id in j'.server.hist && j'.server.hist[id].enqueued == j.server.hist[id].enqueued
    {
      EnqueuedKept(j.server, step, id);
    }
    forall id
      ensures Sound(j', id)
    {
      assert Sound(j, id);
      if id in j'.server.hist && id !in j.server.hist {
        NewIdentity(j.server, step, id);
        NothingTaken(j.limits);
      }
    }
    forall fd
      ensures Current(j', fd)
    {
      if Reads(j'.server, fd) && j'.server.conns[fd].id in j'.server.hist {
        ReadBefore(j.server, step, fd);
        if step == Accept(fd) {
          assert j.server.nextId !in j.server.hist by { NextIsNew(j.server); }
          NewIdentity(j.server, step, j.server.nextId);
          NothingTaken(j.limits);
        } else {
          assert j.server.conns[fd].id in j.server.hist by { OpenHasHistory(j.server, fd); }
          assert Current(j, fd);
        }
      }
    }
  }

  lemma NewIdentity(s: Server, step: Step, id: nat)
    requires StrandSafety.Inv(s) && Enabled(s, step) && id in Do(s, step).hist && id !in s.hist
    ensures Do(s, step).hist[id].enqueued == [] && Do(s, step).hist[id].chunks == []
  {
    hide Flush, Flushed, Note, StrandSafety.AtId, StrandSafety.AtFd;
    if step.Deliver? {
      var done := s.completions[0];
      var t := s.(completions := s.completions[1..]);
      if fd :| fd in t.conns && Owner(t, done.connection, fd) {
        assert Do(s, step) == Delivered(t, fd, done, step.pooled, step.payload);
        DeliveredIds(t, fd, done, step.pooled, step.payload);
      }
    }
  }

  lemma DeliveredIds(s: Server, fd: int, done: Completion, pooled: bool, payload: Bytes)
    requires fd in s.conns && s.conns[fd].id in s.hist
    ensures Delivered(s, fd, done, pooled, payload).hist.Keys == s.hist.Keys
  {
    hide Flush, Flushed;
    FlushKeeps(Note(s.conns[fd], done.sequence, done.payload), s.maxOutput);
  }

  lemma NothingTaken(limits: Limits)
    ensures Taken(Link([], [], false), limits) == [] && !RespStream.Run([], limits).buffer.oversized && IsPrefix([], [])
  {
  }

  lemma NextIsNew(s: Server)
    requires StrandSafety.Inv(s)
    ensures s.nextId !in s.hist
  {
  }

  lemma OpenHasHistory(s: Server, fd: int)
    requires StrandSafety.Inv(s) && fd in s.conns
    ensures s.conns[fd].id in s.hist
  {
  }

  lemma SameOwner(s: Server, fd: int, fd': int)
    requires StrandSafety.Inv(s) && fd in s.conns && fd' in s.conns && s.conns[fd].id == s.conns[fd'].id
    ensures fd == fd'
  {
  }

  lemma StepOwn(j: Joint, m: Move)
    requires StrandSafety.Inv(j.server) && Inv(j) && Possible(j, m) && !m.Other? && StepOf(j, m).Some?
    ensures Inv(Moved(j, m))
  {
    hide Taken, RespStream.Run, StepOf, NewLink, IsPrefix, Do, Enabled, StrandSafety.Inv;
    var id, step := j.server.conns[m.fd].id, StepOf(j, m).value;
    assert Sound(j, id) && Current(j, m.fd);
    LinkMoves(j, m);
    StepIsEnabled(j, m);
    var j' := Moved(j, m);
    assert j'.server == Do(j.server, step) && j'.links == j.links[id := NewLink(j, m)];
    forall x | x in j.server.hist
      ensures Enqueues(j.server, step, id, x)
    {
      OwnEnqueued(j.server, step, id, x);
    }
    forall x
      ensures Sound(j', x)
    {
      assert Sound(j, x);
      if x in j'.server.hist && x !in j.server.hist {
        NewIdentity(j.server, step, x);
        NothingTaken(j.limits);
      } else if x == id {
        OwnPrefix(j.server.hist[id].enqueued, j'.server.hist[id].enqueued, Taken(NewLink(j, m), j.limits));
      }
    }
    forall fd
      ensures Current(j', fd)
    {
      if Reads(j'.server, fd) && j'.server.conns[fd].id in j'.server.hist {
        assert step != Accept(fd);
        ReadBefore(j.server, step, fd);
        assert j.server.conns[fd].id in j.server.hist by { OpenHasHistory(j.server, fd); }
        assert Current(j, fd);
        if j.server.conns[fd].id == id {
          SameOwner(j.server, fd, m.fd);
        }
      }
    }
  }

  /** A step of the connection adds its command, if it is one, to its own commands and to no others. */
  ghost predicate Enqueues(s: Server, step: Step, id: nat, x: nat)
    requires Enabled(s, step) && x in s.hist
  {
    && x in Do(s, step).hist
    && Do(s, step).hist[x].enqueued ==
       if step.Command? && x == id then s.hist[x].enqueued + [step.request] else s.hist[x].enqueued
  }

  lemma OwnEnqueued(s: Server, step: Step, id: nat, x: nat)
    requires StrandSafety.Inv(s) && Enabled(s, step) && x in s.hist
    requires step.Command? ==> s.conns[step.fd].id == id
    ensures Enqueues(s, step, id, x)
  {
    hide Do, StrandSafety.Inv;
    if step.Command? && x == id {
      CommandEnqueues(s, step);
    } else {
      EnqueuedKept(s, step, x);
    }
  }

  lemma OwnPrefix(before: seq<RespValue>, after: seq<RespValue>, taken: seq<RespValue>)
    requires IsPrefix(before, taken) && (after == before || after == taken)
    ensures IsPrefix(after, taken)
  {
  }

  lemma {:induction false} RunInv(states: seq<Joint>, moves: seq<Move>, maxOutput: nat, limits: Limits, n: nat)
    requires IsRun(states, moves, maxOutput, limits) && n < |states|
    ensures Inv(states[n])
  {
    hide Inv, Moved, Possible, StrandSafety.Inv;
    if n == 0 {
      StartInv(maxOutput, limits);
    } else {
      RunInv(states, moves, maxOutput, limits, n - 1);
      ServerInv(states, moves, maxOutput, limits, n - 1);
      var j, m := states[n - 1], moves[n - 1];
      if m.Other? {
        StepOther(j, m);
      } else if StepOf(j, m).None? {
        StepIdle(j, m);
      } else {
        StepOwn(j, m);
      }
    }
  }

  lemma StartInv(maxOutput: nat, limits: Limits)
    ensures Inv(Joint(Start(maxOutput), map[], limits))
  {
    var j := Joint(Start(maxOutput), map[], limits);
    forall id
      ensures Sound(j, id)
    {
    }
    forall fd
      ensures Current(j, fd)
    {
    }
  }

  // ----- From the bytes received to the commands executed -----

  /**
   In every joint run: the commands of a connection, open or closed, are the first values of the byte
   stream received for it, and those executed are the first of the commands.
   */
  lemma CommandsAreFirstValues(
    states: seq<Joint>, moves: seq<Move>, maxOutput: nat, limits: Limits, n: nat, id: nat)
    requires IsRun(states, moves, maxOutput, limits) && n < |states| && id in states[n].server.hist
    ensures var h := states[n].server.hist[id];
            && IsPrefix(h.enqueued, RespStream.Drain(Received(LinkOf(states[n], id)), limits).values)
            && IsPrefix(h.executed, h.enqueued) && |h.replies| == |h.executed|
  {
    hide IsRun, Moved, Possible, StrandSafety.Inv, StrandRuns.IsRun, RespStream.Run, RespStream.Drain,
      RespStream.Stream, RespStream.Values;
    RunInv(states, moves, maxOutput, limits, n);
    var servers, steps := ServerRun(states, moves, maxOutput, limits, n);
    assert |servers| == |steps| + 1 by { ServersLength(servers, steps, maxOutput); }
    StrandRuns.ExecutedInOrder(servers, steps, maxOutput, |steps|, id);
    var l := LinkOf(states[n], id);
    assert Sound(states[n], id);
    FirstValues(l, limits);
    PrefixChain(states[n].server.hist[id].enqueued, Taken(l, limits),
                RespStream.Drain(Received(l), limits).values);
  }

  lemma FirstValues(l: Link, limits: Limits)
    requires !RespStream.Run(l.events, limits).buffer.oversized
    ensures IsPrefix(Taken(l, limits), RespStream.Drain(Received(l), limits).values)
  {
    hide RespStream.Run, RespStream.Drain, RespStream.Stream, RespStream.Values;
    RespStream.StreamAccounted(l.events, limits);
    var t := RespStream.Run(l.events, limits);
    assert RespStream.Drain(RespStream.Stream(l.events) + l.refused, limits) ==
           RespStream.Before(RespStream.Values(t.answers), RespStream.Drain(t.buffer.bytes + l.refused, limits));
  }

  lemma PrefixChain(a: seq<RespValue>, b: seq<RespValue>, c: seq<RespValue>)
    requires IsPrefix(a, b) && IsPrefix(b, c)
    ensures IsPrefix(a, c)
  {
  }
}
