/**
 The parser object (src/protocol/parser.cpp:203-238) fed piece by piece, its loops, and the theorem
 that the way a byte stream is cut does not change what comes out.
 */
module RespStream {
  import opened Common
  import opened Resp
  import opened RespParser
  import opened RespTheorems

  // ----- The loops of the source -----

  method ScanForLine(input: Bytes) returns (r: LineResult)
    requires input != []
    ensures r == ReadLine(input)
  {
    for index := 1 to |input|
      invariant ScanLine(input, 1, index) == ReadLine(input)
    {
      if input[index] == LF {
        return BadLine("line feed without preceding carriage return");
      }
      if input[index] == CR {
        if index + 1 == |input| {
          return PartialLine;
        }
        if input[index + 1] != LF {
          return BadLine("carriage return not followed by line feed");
        }
        return WholeLine(input[1..index], index + 2);
      }
    }
    r := PartialLine;
  }

  method ParseBulkString(input: Bytes, limits: Limits) returns (r: Result)
    requires input != []
    ensures r == ParseBulk(input, limits)
  {
    hide ReadLine, ParseInteger;
    var line := ScanForLine(input);
    if line.PartialLine? {
      return Incomplete;
    }
    if line.BadLine? {
      return Failed(Malformed, line.reason);
    }
    var length := ParseInteger(line.text);
    if length.None? {
      return Failed(Malformed, "invalid or overflowing bulk length");
    }
    if length.value == -1 {
      return Complete(NullBulk, line.next);
    }
    if length.value < 0 {
      return Failed(Malformed, "illegal negative bulk length");
    }
    var size: nat := length.value;
    if size > limits.maxBulk {
      return Failed(Oversized, "bulk string exceeds configured limit");
    }
    if size > |input| - line.next {
      return Incomplete;
    }
    var payloadEnd := line.next + size;
    if payloadEnd == |input| {
      return Incomplete;
    }
    if input[payloadEnd] != CR {
      return Failed(Malformed, "bulk payload lacks terminating CRLF");
    }
    if payloadEnd + 1 == |input| {
      return Incomplete;
    }
    if input[payloadEnd + 1] != LF {
      return Failed(Malformed, "bulk payload lacks terminating CRLF");
    }
    r := Complete(Bulk(input[line.next..payloadEnd]), payloadEnd + 2);
  }

  method ParseOne(input: Bytes, depth: nat, limits: Limits) returns (r: Result)
    ensures r == ParseValue(input, depth, limits)
    decreases |input|, 1
  {
    hide ReadLine, ParseInteger, ParseArray, ParseBulk;
    if input == [] {
      return Incomplete;
    }
    if input[0] == 42 {
      r := ParseWholeArray(input, depth, limits);
      return;
    }
    if input[0] == 36 {
      r := ParseBulkString(input, limits);
      return;
    }
    if input[0] != 43 && input[0] != 45 && input[0] != 58 {
      return Failed(Malformed, "unknown RESP type prefix");
    }
    var line := ScanForLine(input);
    match line {
      case PartialLine =>
        r := Incomplete;
      case BadLine(reason) =>
        r := Failed(Malformed, reason);
      case WholeLine(text, next) =>
        if input[0] == 43 {
          return Complete(Simple(text), next);
        }
        if input[0] == 45 {
          return Complete(Error(text), next);
        }
        var v := ParseInteger(text);
        r := if v.None? then Failed(Malformed, "invalid or overflowing integer")
        else Complete(Integer(v.value), next);
    }
  }

  /** What the elements parsed so far leave to be decided by the rest of the input. */
  function Continue(done: seq<RespValue>, used: nat, rest: ItemsResult): ItemsResult {
    match rest
    case NoItems(why) => NoItems(why)
    case AllItems(items, more) => AllItems(done + items, used + more)
  }

  /** The element loop of an array, over one cursor into the input. */
  method ParseWholeArray(input: Bytes, depth: nat, limits: Limits) returns (r: Result)
    requires input != []
    ensures r == ParseArray(input, depth, limits)
    decreases |input|, 0
  {
    hide ReadLine, ParseInteger, ParseItems;
    var line := ScanForLine(input);
    if line.PartialLine? {
      return Incomplete;
    }
    if line.BadLine? {
      return Failed(Malformed, line.reason);
    }
    var length := ParseInteger(line.text);
    if length.None? {
      return Failed(Malformed, "invalid or overflowing array length");
    }
    if length.value < -1 {
      return Failed(Malformed, "illegal negative array length");
    }
    if depth >= limits.maxDepth {
      return Failed(TooDeep, "array nesting exceeds configured limit");
    }
    if length.value == -1 {
      return Complete(NullArray, line.next);
    }
    if length.value > limits.maxArray {
      return Failed(Oversized, "array exceeds configured element limit");
    }
    var values, consumed := [], line.next;
    ghost var all := ParseItems(input[line.next..], length.value, depth + 1, limits);
    ContinueNothing(all);
    for index := 0 to length.value
      invariant line.next <= consumed <= |input|
      invariant all == Continue(values, consumed - line.next,
                                ParseItems(input[consumed..], length.value - index, depth + 1, limits))
    {
      var item := ParseOne(input[consumed..], depth + 1, limits);
      ItemsStep(input[consumed..], length.value - index, depth + 1, limits, values, consumed - line.next);
      if !item.Complete? {
        return item;
      }
      assert input[consumed..][item.consumed..] == input[consumed + item.consumed..];
      values := values + [item.value];
      consumed := consumed + item.consumed;
    }
    ItemsDone(input[consumed..], depth + 1, limits, values, consumed - line.next);
    r := Complete(Array(values), consumed);
  }

  lemma ContinueNothing(r: ItemsResult)
    ensures Continue([], 0, r) == r
  {
    if r.AllItems? {
      assert [] + r.items == r.items;
    }
  }

  lemma ItemsDone(input: Bytes, depth: nat, limits: Limits, done: seq<RespValue>, used: nat)
    ensures Continue(done, used, ParseItems(input, 0, depth, limits)) == AllItems(done, used)
  {
    assert done + [] == done;
  }

  lemma ItemsStep(input: Bytes, count: nat, depth: nat, limits: Limits, done: seq<RespValue>, used: nat)
    requires count > 0
    ensures var item := ParseValue(input, depth, limits);
            Continue(done, used, ParseItems(input, count, depth, limits)) ==
            if item.Complete? then
              Continue(done + [item.value], used + item.consumed,
                       ParseItems(input[item.consumed..], count - 1, depth, limits))
            else NoItems(item)
  {
    hide ParseValue;
    var item := ParseValue(input, depth, limits);
    if item.Complete? {
      var rest := ParseItems(input[item.consumed..], count - 1, depth, limits);
      if rest.AllItems? {
        assert done + ([item.value] + rest.items) == done + [item.value] + rest.items;
      }
    }
  }

  // ----- The parser object -----

  datatype Buffer = Buffer(bytes: Bytes, oversized: bool)

  const REFUSED: Result := Failed(Oversized, "parser buffer exceeds configured limit")

  function AfterFeed(b: Buffer, bytes: Bytes, limits: Limits): Buffer {
    if b.oversized then b
    else if |b.bytes| > limits.maxBuffer || |bytes| > limits.maxBuffer - |b.bytes| then b.(oversized := true)
    else b.(bytes := b.bytes + bytes)
  }

  function Answer(b: Buffer, limits: Limits): Result {
    if b.oversized then REFUSED else ParseValue(b.bytes, 0, limits)
  }

  function AfterNext(b: Buffer, limits: Limits): Buffer {
    var r := Answer(b, limits);
    if !b.oversized && r.Complete? then b.(bytes := b.bytes[r.consumed..]) else b
  }

  class Parser {
    const limits: Limits
    var buffer: Bytes
    var oversized: bool

    constructor (limits: Limits)
      ensures this.limits == limits && buffer == [] && !oversized
    {
      this.limits := limits;
      buffer := [];
      oversized := false;
    }

    ghost function State(): Buffer
      reads this
    {
      Buffer(buffer, oversized)
    }

    /** Refuses, for good, what would overflow the buffer. */
    method Feed(bytes: Bytes) returns (accepted: bool)
      modifies this
      ensures State() == AfterFeed(old(State()), bytes, limits) && accepted == !oversized
    {
      if oversized {
        return false;
      }
      if |buffer| > limits.maxBuffer || |bytes| > limits.maxBuffer - |buffer| {
        oversized := true;
        return false;
      }
      buffer := buffer + bytes;
      accepted := true;
    }

    /** Takes the next value off the buffer if it is complete. */
    method Next() returns (r: Result)
      modifies this
      ensures r == Answer(old(State()), limits) && State() == AfterNext(old(State()), limits)
    {
      if oversized {
        return REFUSED;
      }
      r := ParseOne(buffer, 0, limits);
      if r.Complete? {
        buffer := buffer[r.consumed..];
      }
    }

    method Reset()
      modifies this
      ensures State() == Buffer([], false)
    {
      buffer := [];
      oversized := false;
    }
  }

  // ----- Runs of the parser object -----

  datatype Event = Feed(bytes: Bytes) | Next

  datatype Trace = Trace(buffer: Buffer, answers: seq<Result>)

  function Run(events: seq<Event>, limits: Limits): Trace
    decreases |events|
  {
    if events == [] then Trace(Buffer([], false), [])
    else
      var Trace(b, answers) := Run(events[..|events| - 1], limits);
      match events[|events| - 1]
      case Feed(bytes) => Trace(AfterFeed(b, bytes, limits), answers)
      case Next => Trace(AfterNext(b, limits), answers + [Answer(b, limits)])
  }

  /** The byte stream that the feeds make up. */
  function Stream(events: seq<Event>): Bytes
    decreases |events|
  {
    if events == [] then []
    else
      var last := events[|events| - 1];
      Stream(events[..|events| - 1]) + if last.Feed? then last.bytes else []
  }

  function Values(answers: seq<Result>): seq<RespValue>
    decreases |answers|
  {
    if answers == [] then []
    else
      var last := answers[|answers| - 1];
      Values(answers[..|answers| - 1]) + if last.Complete? then [last.value] else []
  }

  /** All values at the front of a byte string, and the verdict on what follows them. */
  datatype Drained = Drained(values: seq<RespValue>, verdict: Result)

  function Drain(bytes: Bytes, limits: Limits): Drained
    decreases |bytes|
  {
    match ParseValue(bytes, 0, limits)
    case Complete(v, used) => Before([v], Drain(bytes[used..], limits))
    case Incomplete => Drained([], Incomplete)
    case Failed(status, reason) => Drained([], Failed(status, reason))
  }

  function Before(values: seq<RespValue>, d: Drained): Drained {
    Drained(values + d.values, d.verdict)
  }

  /** What was taken out and what is buffered together are the stream so far, whatever comes next. */
  ghost predicate Accounted(events: seq<Event>, limits: Limits) {
    var t := Run(events, limits);
    forall ext :: Drain(Stream(events) + ext, limits) == Before(Values(t.answers), Drain(t.buffer.bytes + ext, limits))
  }

  lemma TakeOne(bytes: Bytes, ext: Bytes, limits: Limits)
    requires ParseValue(bytes, 0, limits).Complete?
    ensures var r := ParseValue(bytes, 0, limits);
            Drain(bytes + ext, limits) == Before([r.value], Drain(bytes[r.consumed..] + ext, limits))
  {
    hide ParseValue;
    var r := ParseValue(bytes, 0, limits);
    VerdictStable(bytes, ext, 0, limits);
    assert (bytes + ext)[r.consumed..] == bytes[r.consumed..] + ext;
  }

  lemma {:induction false} OversizedStays(events: seq<Event>, limits: Limits)
    requires events != [] && !Run(events, limits).buffer.oversized
    ensures !Run(events[..|events| - 1], limits).buffer.oversized
  {
    hide ParseValue;
  }

  /**
   Fragmentation independence, for every cut of the stream and every interleaving of feed and next
   in which no feed was refused.
   */
  lemma {:induction false} StreamAccounted(events: seq<Event>, limits: Limits)
    requires !Run(events, limits).buffer.oversized
    ensures Accounted(events, limits)
    decreases |events|
  {
    hide ParseValue, Drain;
    if events == [] {
      forall ext
        ensures Drain([] + ext, limits) == Before([], Drain([] + ext, limits))
      {
        assert [] + Drain([] + ext, limits).values == Drain([] + ext, limits).values;
      }
    } else {
      var n := |events| - 1;
      OversizedStays(events, limits);
      StreamAccounted(events[..n], limits);
      forall ext
        ensures Drain(Stream(events) + ext, limits) ==
                Before(Values(Run(events, limits).answers), Drain(Run(events, limits).buffer.bytes + ext, limits))
      {
        if events[n].Feed? {
          FeedAccounted(events[..n], events[n].bytes, ext, limits);
        } else {
          NextAccounted(events[..n], ext, limits);
        }
        assert events[..n] + [events[n]] == events;
      }
    }
  }

  lemma LastEvent(events: seq<Event>, last: Event, limits: Limits)
    ensures var all, t := events + [last], Run(events, limits);
            && Stream(all) == Stream(events) + (if last.Feed? then last.bytes else [])
            && Run(all, limits) ==
               match last
               case Feed(bytes) => Trace(AfterFeed(t.buffer, bytes, limits), t.answers)
               case Next => Trace(AfterNext(t.buffer, limits), t.answers + [Answer(t.buffer, limits)])
  {
    hide ParseValue;
    assert (events + [last])[..|events|] == events;
  }

  lemma FeedAccounted(events: seq<Event>, bytes: Bytes, ext: Bytes, limits: Limits)
    requires Accounted(events, limits) && !Run(events + [Feed(bytes)], limits).buffer.oversized
    ensures var all := events + [Feed(bytes)];
            var t := Run(all, limits);
            Drain(Stream(all) + ext, limits) == Before(Values(t.answers), Drain(t.buffer.bytes + ext, limits))
  {
    hide ParseValue, Drain, Run, Stream, Values, Before;
    LastEvent(events, Feed(bytes), limits);
    var s, b := Stream(events), Run(events, limits).buffer.bytes;
    assert s + bytes + ext == s + (bytes + ext) && b + bytes + ext == b + (bytes + ext);
  }

  lemma NextAccounted(events: seq<Event>, ext: Bytes, limits: Limits)
    requires Accounted(events, limits) && !Run(events, limits).buffer.oversized
    ensures var all := events + [Next];
            var t := Run(all, limits);
            Drain(Stream(all) + ext, limits) == Before(Values(t.answers), Drain(t.buffer.bytes + ext, limits))
  {
    hide ParseValue, Drain, Run, Stream, Values;
    LastEvent(events, Next, limits);
    var t := Run(events, limits);
    var b, vs := t.buffer.bytes, Values(t.answers);
    assert Stream(events) + [] == Stream(events);
    var r := ParseValue(b, 0, limits);
    LastValue(t.answers, r);
    if r.Complete? {
      TakeOne(b, ext, limits);
      var d := Drain(b[r.consumed..] + ext, limits);
      assert vs + ([r.value] + d.values) == vs + [r.value] + d.values;
    } else {
      assert vs + [] == vs;
    }
  }

  lemma LastValue(answers: seq<Result>, r: Result)
    ensures Values(answers + [r]) == Values(answers) + if r.Complete? then [r.value] else []
  {
    assert (answers + [r])[..|answers|] == answers;
  }

  /** The values taken out so far are the first values of the stream, in order. */
  lemma YieldIsPrefix(events: seq<Event>, limits: Limits)
    requires !Run(events, limits).buffer.oversized
    ensures var t := Run(events, limits);
            var d := Drain(Stream(events), limits);
            && d.values == Values(t.answers) + Drain(t.buffer.bytes, limits).values
            && d.verdict == Drain(t.buffer.bytes, limits).verdict
  {
    hide Drain, Run, Stream, Values;
    StreamAccounted(events, limits);
    assert Stream(events) + [] == Stream(events);
    assert Run(events, limits).buffer.bytes + [] == Run(events, limits).buffer.bytes;
  }

  /** The run has taken everything it can: its next answer is not a value. */
  predicate Exhausted(events: seq<Event>, limits: Limits) {
    !Answer(Run(events, limits).buffer, limits).Complete?
  }

  /** An exhausted run has yielded exactly the values of its stream, and stands at its verdict. */
  lemma ExhaustedRun(events: seq<Event>, limits: Limits)
    requires !Run(events, limits).buffer.oversized && Exhausted(events, limits)
    ensures Values(Run(events, limits).answers) == Drain(Stream(events), limits).values
    ensures Answer(Run(events, limits).buffer, limits) == Drain(Stream(events), limits).verdict
  {
    hide ParseValue, Run, Stream, Values;
    YieldIsPrefix(events, limits);
  }

  lemma {:induction false} BufferWithinStream(events: seq<Event>, limits: Limits)
    requires |Stream(events)| <= limits.maxBuffer
    ensures !Run(events, limits).buffer.oversized && |Run(events, limits).buffer.bytes| <= |Stream(events)|
    decreases |events|
  {
    hide ParseValue;
    if events != [] {
      BufferWithinStream(events[..|events| - 1], limits);
    }
  }

  /** The buffer never holds more than its limit, and a feed is refused exactly when it would. */
  lemma {:induction false} RefusedIffOverflowing(events: seq<Event>, bytes: Bytes, limits: Limits)
    ensures |Run(events, limits).buffer.bytes| <= limits.maxBuffer
    ensures !Run(events, limits).buffer.oversized ==>
              (AfterFeed(Run(events, limits).buffer, bytes, limits).oversized <==>
               |Run(events, limits).buffer.bytes| + |bytes| > limits.maxBuffer)
    decreases |events|
  {
    hide ParseValue;
    if events != [] {
      RefusedIffOverflowing(events[..|events| - 1], bytes, limits);
    }
  }

  /**
   Any two ways of cutting and reading the same stream to exhaustion, of whatever length, give the same
   values and the same final verdict as long as neither was refused for overflowing the buffer.
   */
  lemma CutsDoNotMatter(one: seq<Event>, other: seq<Event>, limits: Limits)
    requires Stream(one) == Stream(other)
    requires !Run(one, limits).buffer.oversized && !Run(other, limits).buffer.oversized
    requires Exhausted(one, limits) && Exhausted(other, limits)
    ensures Values(Run(one, limits).answers) == Values(Run(other, limits).answers)
    ensures Answer(Run(one, limits).buffer, limits) == Answer(Run(other, limits).buffer, limits)
  {
    hide Run, Stream, Values, Answer, Drain;
    ExhaustedRun(one, limits);
    ExhaustedRun(other, limits);
  }

  /** A stream within the buffer limit is refused in no way of cutting it, in particular not as one feed. */
  lemma ShortStreamCutsDoNotMatter(one: seq<Event>, other: seq<Event>, limits: Limits)
    requires Stream(one) == Stream(other) && |Stream(one)| <= limits.maxBuffer
    requires Exhausted(one, limits) && Exhausted(other, limits)
    ensures Values(Run(one, limits).answers) == Values(Run(other, limits).answers)
    ensures Answer(Run(one, limits).buffer, limits) == Answer(Run(other, limits).buffer, limits)
  {
    hide Run, Stream, Values, Answer, Drain;
    BufferWithinStream(one, limits);
    BufferWithinStream(other, limits);
    CutsDoNotMatter(one, other, limits);
  }

  /** After a refused feed every answer is the refusal, whatever is fed later. */
  lemma {:induction false} RefusalIsFinal(events: seq<Event>, more: seq<Event>, limits: Limits)
    requires Run(events, limits).buffer.oversized
    ensures Run(events + more, limits).buffer == Run(events, limits).buffer
    ensures Answer(Run(events + more, limits).buffer, limits) == REFUSED
    decreases |more|
  {
    if more == [] {
      assert events + more == events;
    } else {
      var n := |more| - 1;
      RefusalIsFinal(events, more[..n], limits);
      assert (events + more)[..|events + more| - 1] == events + more[..n];
    }
  }
}
