/**
 What the intake does with good and with bad input (src/server/server.cpp:17-29, 218-280): exactly the
 non-empty arrays of present bulk strings become commands, a client that sends only such values is never
 refused, and whoever sends anything else gets the error text and is read no more.
 */
module IntakeVerdicts {
  import opened Common
  import opened Resp
  import opened RespParser
  import opened RespTheorems
  import opened Strand
  import opened Intake
  import RespStream
  import StrandSafety
  import StrandRuns

  // ----- Commands -----

  /** A command as a client sends it: its name and arguments as bulk strings. */
  function CommandOf(args: seq<Bytes>): RespValue {
    Array(seq(|args|, i requires 0 <= i < |args| => Bulk(args[i])))
  }

  function ArgsOf(items: seq<RespValue>): seq<Bytes>
    requires forall i :: 0 <= i < |items| ==> items[i].Bulk?
  {
    seq(|items|, i requires 0 <= i < |items| => items[i].data)
  }

  lemma RequestIff(v: RespValue)
    ensures IsRequest(v) <==> exists args: seq<Bytes> :: args != [] && v == CommandOf(args)
  {
    if IsRequest(v) {
      var args := ArgsOf(v.items);
      assert CommandOf(args).items == v.items;
      assert args != [] && v == CommandOf(args);
    }
  }

  // ----- Verdicts on the input -----

  /** Every answer of the parser so far was "incomplete" or a command. */
  ghost predicate Clean(l: Link, limits: Limits) {
    forall r :: r in RespStream.Run(l.events, limits).answers ==>
      r == Incomplete || (r.Complete? && IsRequest(r.value))
  }

  /** A failure, a value that is no command, a feed that overflows, or an end inside a frame. */
  ghost predicate Bad(l: Link, limits: Limits) {
    || !Clean(l, limits) || l.refused != []
    || (l.ended && RespStream.Run(l.events, limits).buffer.bytes != [])
  }

  ghost predicate Reported(j: Joint, id: nat) {
    id in j.server.hist ==>
      && (Bad(LinkOf(j, id), j.limits) <==> Errors(j.server.hist[id].chunks) >= 1)
      && forall v :: v in j.server.hist[id].enqueued ==> IsRequest(v)
  }

  ghost predicate Untroubled(j: Joint, fd: int) {
    Reads(j.server, fd) ==>
      var l := LinkOf(j, j.server.conns[fd].id);
      !Bad(l, j.limits) && !l.ended
  }

  ghost predicate Verdicts(j: Joint) {
    (forall id :: Reported(j, id)) && (forall fd :: Untroubled(j, fd))
  }

  /** An answer more. */
  lemma CleanMore(l: Link, limits: Limits)
    ensures var t, l' := RespStream.Run(l.events, limits), l.(events := l.events + [RespStream.Next]);
            var r := RespStream.Answer(t.buffer, limits);
            Clean(l', limits) <==> Clean(l, limits) && (r == Incomplete || (r.Complete? && IsRequest(r.value)))
  {
    hide ParseValue, IsRequest, RespStream.Answer, RespStream.AfterNext;
    var events := l.events + [RespStream.Next];
    assert events[..|l.events|] == l.events;
    var t := RespStream.Run(l.events, limits);
    var r := RespStream.Answer(t.buffer, limits);
    var answers := RespStream.Run(events, limits).answers;
    assert answers == t.answers + [r];
    assert r in answers;
    forall x | x in t.answers
      ensures x in answers
    {
    }
  }

  lemma CleanFed(l: Link, bytes: Bytes, limits: Limits)
    ensures Clean(l.(events := l.events + [RespStream.Feed(bytes)]), limits) <==> Clean(l, limits)
  {
    hide ParseValue, IsRequest;
    OneMore(l, RespStream.Feed(bytes), limits);
  }

  /** What a move of its own does to the verdicts on a connection that reads. */
  lemma VerdictMoves(j: Joint, m: Move)
    requires Possible(j, m) && !m.Other?
    requires !Bad(LinkOf(j, j.server.conns[m.fd].id), j.limits) && !LinkOf(j, j.server.conns[m.fd].id).ended
    requires !RespStream.Run(LinkOf(j, j.server.conns[m.fd].id).events, j.limits).buffer.oversized
    ensures var l', step := NewLink(j, m), StepOf(j, m);
            && (step.None? ==> !Bad(l', j.limits) && !l'.ended)
            && (step.Some? && step.value.Command? ==>
                  step.value.fd == m.fd && !Bad(l', j.limits) && !l'.ended && IsRequest(step.value.request))
            && (step.Some? && !step.value.Command? ==>
                  || (step.value == BadInput(m.fd) && Bad(l', j.limits))
                  || (step.value.EndOfInput? && step.value.fd == m.fd &&
                      (Bad(l', j.limits) <==> step.value.leftover)))
  {
    hide RespStream.Run, RespStream.Answer, RespStream.AfterFeed, IsRequest, Clean;
    var l := LinkOf(j, j.server.conns[m.fd].id);
    match m {
      case Arrive(_, bytes) =>
        CleanFed(l, bytes, j.limits);
        RespStream.RefusedIffOverflowing(l.events, bytes, j.limits);
      case Take(_, _, _) => CleanMore(l, j.limits);
      case End(_) => assert Clean(NewLink(j, m), j.limits) by { SameEvents(l, NewLink(j, m), j.limits); }
    }
  }

  lemma SameEvents(l: Link, l': Link, limits: Limits)
    requires l'.events == l.events && Clean(l, limits)
    ensures Clean(l', limits)
  {
  }

  // ----- What a step does to the error texts -----

  lemma ErrorsAfter(s: Server, step: Step, id: nat)
    requires StrandSafety.Inv(s) && Enabled(s, step) && id in s.hist
    ensures id in Do(s, step).hist
    ensures Errors(Do(s, step).hist[id].chunks) ==
            Errors(s.hist[id].chunks) + if StrandRuns.AppendsError(step) && s.conns[step.fd].id == id then 1 else 0
  {
    hide StrandSafety.Inv, Errors, Flush, Flushed, Note;
    if StrandRuns.AppendsError(step) {
      StrandSafety.ChunkAdded(s.hist[s.conns[step.fd].id].chunks, ProtocolError);
    } else {
      StrandRuns.OnlyTheseAppendErrors(s, step, id);
    }
  }

  lemma NothingBad(limits: Limits)
    ensures !Bad(Link([], [], false), limits) && Errors([]) == 0
  {
  }

  // ----- Every joint run -----

  lemma VerdictsOther(j: Joint, m: Move)
    requires StrandSafety.Inv(j.server) && Inv(j) && Verdicts(j) && Possible(j, m) && m.Other?
    ensures Verdicts(Moved(j, m))
  {
    hide Bad, StepOf, Do, StrandSafety.Inv, Errors, Sound, Current, IsRequest;
    OtherSteps(j, m);
    var step, j' := m.step, Moved(j, m);
    assert j'.server == Do(j.server, step) && j'.links == j.links;
    NothingBad(j.limits);
    forall id
      ensures Reported(j', id)
    {
      assert Reported(j, id);
      if id in j.server.hist {
        ErrorsAfter(j.server, step, id);
        EnqueuedKept(j.server, step, id);
      } else if id in j'.server.hist {
        NewIdentity(j.server, step, id);
      }
    }
    forall fd
      ensures Untroubled(j', fd)
    {
      assert Untroubled(j, fd);
      if Reads(j'.server, fd) {
        ReadBefore(j.server, step, fd);
        if step == Accept(fd) {
          NextIsNew(j.server);
        }
      }
    }
  }

  lemma NotOversized(j: Joint, m: Move)
    requires Inv(j) && Possible(j, m) && !m.Other?
    ensures !RespStream.Run(LinkOf(j, j.server.conns[m.fd].id).events, j.limits).buffer.oversized
  {
    assert Sound(j, j.server.conns[m.fd].id);
  }

  lemma VerdictsIdle(j: Joint, m: Move)
    requires Inv(j) && Verdicts(j) && Possible(j, m) && StepOf(j, m).None?
    ensures Verdicts(Moved(j, m))
  {
    hide Bad, StepOf, NewLink, Errors, IsRequest;
    OtherSteps(j, m);
    NotOversized(j, m);
    assert Untroubled(j, m.fd);
    VerdictMoves(j, m);
    var j' := Moved(j, m);
    forall id
      ensures Reported(j', id)
    {
      assert Reported(j, id);
    }
    forall fd
      ensures Untroubled(j', fd)
    {
      assert Untroubled(j, fd);
    }
  }

  lemma VerdictsOwn(j: Joint, m: Move)
    requires StrandSafety.Inv(j.server) && Inv(j) && Verdicts(j) && Possible(j, m) && !m.Other? && StepOf(j, m).Some?
    ensures Verdicts(Moved(j, m))
  {
    hide Bad, StepOf, NewLink, Do, Enabled, StrandSafety.Inv, Errors, Sound, Current, IsRequest;
    var id, step := j.server.conns[m.fd].id, StepOf(j, m).value;
    NotOversized(j, m);
    assert Untroubled(j, m.fd);
    VerdictMoves(j, m);
    StepIsEnabled(j, m);
    NothingBad(j.limits);
    var j' := Moved(j, m);
    assert j'.server == Do(j.server, step) && j'.links == j.links[id := NewLink(j, m)];
    forall x
      ensures Reported(j', x)
    {
      assert Reported(j, x);
      if x in j.server.hist {
        ErrorsAfter(j.server, step, x);
        OwnEnqueued(j.server, step, id, x);
      } else if x in j'.server.hist {
        NewIdentity(j.server, step, x);
      }
    }
    forall fd
      ensures Untroubled(j', fd)
    {
      assert Untroubled(j, fd);
      if Reads(j'.server, fd) {
        ReadBefore(j.server, step, fd);
        if j.server.conns[fd].id == id {
          SameOwner(j.server, fd, m.fd);
        }
      }
    }
  }

  lemma StartVerdicts(maxOutput: nat, limits: Limits)
    ensures Verdicts(Joint(Start(maxOutput), map[], limits))
  {
    var j := Joint(Start(maxOutput), map[], limits);
    forall id
      ensures Reported(j, id)
    {
    }
    forall fd
      ensures Untroubled(j, fd)
    {
    }
  }

  lemma {:induction false} RunVerdicts(states: seq<Joint>, moves: seq<Move>, maxOutput: nat, limits: Limits, n: nat)
    requires IsRun(states, moves, maxOutput, limits) && n < |states|
    ensures Verdicts(states[n])
  {
    hide Verdicts, Inv, Moved, Possible, StrandSafety.Inv;
    if n == 0 {
      StartVerdicts(maxOutput, limits);
    } else {
      RunVerdicts(states, moves, maxOutput, limits, n - 1);
      RunInv(states, moves, maxOutput, limits, n - 1);
      ServerInv(states, moves, maxOutput, limits, n - 1);
      var j, m := states[n - 1], moves[n - 1];
      if m.Other? {
        VerdictsOther(j, m);
      } else if StepOf(j, m).None? {
        VerdictsIdle(j, m);
      } else {
        VerdictsOwn(j, m);
      }
    }
  }

  /** In every joint run every command of every connection is a non-empty array of present bulk strings. */
  lemma CommandsAreRequests(
    states: seq<Joint>, moves: seq<Move>, maxOutput: nat, limits: Limits, n: nat, id: nat, v: RespValue)
    requires IsRun(states, moves, maxOutput, limits) && n < |states|
    requires id in states[n].server.hist && v in states[n].server.hist[id].enqueued
    ensures exists args: seq<Bytes> :: args != [] && v == CommandOf(args)
  {
    hide IsRun, IsRequest;
    RunVerdicts(states, moves, maxOutput, limits, n);
    assert Reported(states[n], id);
    RequestIff(v);
  }

  /**
   In every joint run, for every connection: the error text was appended, once, if and only if the parser
   answered with a failure or with anything but a command, had a feed refused, or saw the input end inside a
   frame. Then the connection is not read any more.
   */
  lemma BadInputIsReported(
    states: seq<Joint>, moves: seq<Move>, maxOutput: nat, limits: Limits, n: nat, id: nat)
    requires IsRun(states, moves, maxOutput, limits) && n < |states| && id in states[n].server.hist
    ensures Errors(states[n].server.hist[id].chunks) == if Bad(LinkOf(states[n], id), limits) then 1 else 0
    ensures Bad(LinkOf(states[n], id), limits) ==>
              forall fd :: Owner(states[n].server, id, fd) ==> !Reads(states[n].server, fd)
  {
    hide IsRun, Bad, IsRequest, StrandRuns.IsRun, Errors;
    RunVerdicts(states, moves, maxOutput, limits, n);
    var servers, steps := ServerRun(states, moves, maxOutput, limits, n);
    ServersLength(servers, steps, maxOutput);
    StrandRuns.ClientSeesRepliesInOrder(servers, steps, maxOutput, |steps|, id);
    assert Reported(states[n], id);
    forall fd | Owner(states[n].server, id, fd)
      ensures Untroubled(states[n], fd)
    {
    }
  }

  // ----- Good input is never refused -----

  /** Values that are commands within the limits. */
  ghost predicate AllCommands(values: seq<RespValue>, limits: Limits) {
    forall v :: v in values ==>
      Fits(v, 0, limits) && exists args: seq<Bytes> :: args != [] && v == CommandOf(args)
  }

  lemma {:induction false} DrainEncoded(values: seq<RespValue>, limits: Limits)
    requires forall v :: v in values ==> Fits(v, 0, limits)
    ensures RespStream.Drain(EncodeAll(values), limits) == RespStream.Drained(values, Incomplete)
    decreases |values|
  {
    hide ParseValue, Encode, Fits;
    if values == [] {
      assert ParseValue([], 0, limits) == Incomplete by { NothingParsed(limits); }
    } else {
      var v, rest := values[0], values[1..];
      assert v in values;
      assert forall x :: x in rest ==> x in values;
      EncodedParses(v, EncodeAll(rest), 0, limits);
      assert EncodeAll(values)[|Encode(v)|..] == EncodeAll(rest);
      DrainEncoded(rest, limits);
      assert [v] + rest == values;
    }
  }

  lemma NothingParsed(limits: Limits)
    ensures ParseValue([], 0, limits) == Incomplete
  {
  }

  /** A parser that has been fed a prefix of such an encoding: its next answer is the next value or "incomplete". */
  lemma NextOfEncoded(events: seq<RespStream.Event>, rest: Bytes, values: seq<RespValue>, limits: Limits)
    requires !RespStream.Run(events, limits).buffer.oversized
    requires RespStream.Stream(events) + rest == EncodeAll(values) && forall v :: v in values ==> Fits(v, 0, limits)
    ensures var t := RespStream.Run(events, limits);
            var taken, r := RespStream.Values(t.answers), RespStream.Answer(t.buffer, limits);
            && |taken| <= |values| && taken == values[..|taken|]
            && (r == Incomplete || (r.Complete? && |taken| < |values| && r.value == values[|taken|]))
            && (r == Incomplete && rest == [] ==> taken == values)
  {
    hide ParseValue, RespStream.Run, RespStream.Values, RespStream.Stream, EncodeAll, Fits, RespStream.Drain;
    var t := RespStream.Run(events, limits);
    var taken := RespStream.Values(t.answers);
    RespStream.StreamAccounted(events, limits);
    DrainEncoded(values, limits);
    var ahead := RespStream.Drain(t.buffer.bytes + rest, limits);
    assert RespStream.Drain(RespStream.Stream(events) + rest, limits) == RespStream.Before(taken, ahead);
    assert values == taken + ahead.values && ahead.verdict == Incomplete;
    var r := ParseValue(t.buffer.bytes, 0, limits);
    if r != Incomplete {
      VerdictStable(t.buffer.bytes, rest, 0, limits);
      DrainStarts(t.buffer.bytes + rest, limits);
    } else if rest == [] {
      assert t.buffer.bytes + rest == t.buffer.bytes;
      DrainStarts(t.buffer.bytes, limits);
      assert taken + [] == taken;
    }
  }

  lemma DrainStarts(bytes: Bytes, limits: Limits)
    ensures var r, d := ParseValue(bytes, 0, limits), RespStream.Drain(bytes, limits);
            if r.Complete? then d.values != [] && d.values[0] == r.value else d == RespStream.Drained([], r)
  {
    hide ParseValue;
  }

  /**
   In every joint run: while what a connection has received is a prefix of encoded commands, however it was
   cut, no read of its parser is refused; and once the parser has nothing more and everything has arrived,
   the commands are exactly those that were sent.
   */
  lemma GoodInputIsAccepted(
    states: seq<Joint>, moves: seq<Move>, maxOutput: nat, limits: Limits, n: nat, fd: int, pooled: bool, payload: Bytes,
    values: seq<RespValue>, rest: Bytes)
    requires IsRun(states, moves, maxOutput, limits) && n < |states| && Possible(states[n], Take(fd, pooled, payload))
    requires AllCommands(values, limits)
    requires Received(LinkOf(states[n], states[n].server.conns[fd].id)) + rest == EncodeAll(values)
    ensures var h := states[n].server.hist[states[n].server.conns[fd].id];
            match StepOf(states[n], Take(fd, pooled, payload))
            case None => rest == [] ==> h.enqueued == values
            case Some(step) =>
              |h.enqueued| < |values| && step == Command(fd, values[|h.enqueued|], pooled, payload)
  {
    hide IsRun, IsRequest, RespStream.Run, RespStream.Values, RespStream.Stream, EncodeAll, Fits, RespStream.Answer;
    var j := states[n];
    var id := j.server.conns[fd].id;
    RunInv(states, moves, maxOutput, limits, n);
    ServerInv(states, moves, maxOutput, limits, n);
    assert Sound(j, id) && Current(j, fd);
    var l := LinkOf(j, id);
    assert RespStream.Stream(l.events) + [] == RespStream.Stream(l.events);
    NextOfEncoded(l.events, rest, values, limits);
    var r := RespStream.Answer(RespStream.Run(l.events, limits).buffer, limits);
    if r.Complete? {
      assert r.value in values;
      RequestIff(r.value);
    }
  }
}
