/**
 When the parser of src/protocol/parser.cpp answers what.  No input is stuck: whatever has arrived, some
 further bytes lead to an answer, so "incomplete" is never the last word.  A malformed verdict does not
 depend on the limits, and an oversized or too deep one is due to them alone.
 */
module RespVerdicts {
  import opened Common
  import opened Resp
  import opened RespParser
  import opened RespTheorems

  // ----- No input is stuck -----

  lemma {:induction false} ScanFinishes(input: Bytes, start: nat, index: nat) returns (ext: Bytes)
    requires start <= index <= |input|
    ensures !ScanLine(input + ext, start, index).PartialLine?
    decreases |input| - index
  {
    if index == |input| {
      ext := CRLF;
    } else if input[index] == CR && index + 1 == |input| {
      ext := [LF];
    } else if input[index] != CR && input[index] != LF {
      ext := ScanFinishes(input, start, index + 1);
    } else {
      ext := [];
      assert input + ext == input;
    }
  }

  /** The line that the input starts with can be finished. */
  lemma LineFinishes(input: Bytes) returns (ext: Bytes)
    requires input != []
    ensures !ReadLine(input + ext).PartialLine?
  {
    ext := ScanFinishes(input, 1, 1);
  }

  lemma BulkFinishes(input: Bytes, limits: Limits) returns (ext: Bytes)
    requires input != [] && !ReadLine(input).PartialLine?
    ensures ParseBulk(input + ext, limits) != Incomplete
  {
    hide ReadLine, ParseInteger;
    ext := [];
    assert input + [] == input;
    if ParseBulk(input, limits) == Incomplete {
      var WholeLine(text, next) := ReadLine(input);
      var length := ParseInteger(text).value;
      var missing := if next + length > |input| then next + length - |input| else 0;
      var filler: Bytes := seq(missing, _ => 0);
      ext := if next + length < |input| then [LF] else filler + CRLF;
      ReadLineStable(input, ext);
      var end := next + length;
      assert (input + ext)[end] == CR && (input + ext)[end + 1] == LF;
    }
  }

  function Room(depth: nat, limits: Limits): nat {
    if depth < limits.maxDepth then limits.maxDepth - depth else 0
  }

  /** For every input, depth and limits there are bytes after which the parser has an answer. */
  lemma {:induction false} NeverStuck(input: Bytes, depth: nat, limits: Limits) returns (ext: Bytes)
    ensures ParseValue(input + ext, depth, limits) != Incomplete
    decreases Room(depth, limits), 1
  {
    hide ReadLine, ParseInteger, ParseBulk, ParseArray;
    if input == [] {
      ext := [43] + CRLF;
      EmptyLineParses(depth, limits);
      assert input + ext == ext;
    } else {
      var line := LineFinishes(input);
      var input' := input + line;
      assert input'[0] == input[0];
      var more: Bytes := [];
      if input[0] == 36 {
        more := BulkFinishes(input', limits);
      } else if input[0] == 42 {
        more := ArrayFinishes(input', depth, limits);
      } else {
        assert input' + [] == input';
      }
      ext := line + more;
      assert input + ext == input' + more;
    }
  }

  lemma EmptyLineParses(depth: nat, limits: Limits)
    ensures ParseValue([43] + CRLF, depth, limits) == Complete(Simple([]), 3)
  {
    assert Line(43, []) + [] == [43] + CRLF;
    ReadBackLine(43, [], []);
  }

  lemma {:induction false} ArrayFinishes(input: Bytes, depth: nat, limits: Limits) returns (ext: Bytes)
    requires input != [] && !ReadLine(input).PartialLine?
    ensures ParseArray(input + ext, depth, limits) != Incomplete
    decreases Room(depth, limits), 0
  {
    hide ReadLine, ParseInteger, ParseItems;
    ext := [];
    assert input + [] == input;
    if ParseArray(input, depth, limits) == Incomplete {
      var WholeLine(text, next) := ReadLine(input);
      var length := ParseInteger(text).value;
      ext := ItemsFinish(input[next..], length, depth + 1, limits);
      ReadLineStable(input, ext);
      assert (input + ext)[next..] == input[next..] + ext;
    }
  }

  lemma {:induction false} ItemsFinish(input: Bytes, count: nat, depth: nat, limits: Limits) returns (ext: Bytes)
    ensures ParseItems(input + ext, count, depth, limits) != NoItems(Incomplete)
    decreases Room(depth, limits), 2, count
  {
    hide ParseValue;
    if count == 0 {
      ext := [];
    } else {
      var first := NeverStuck(input, depth, limits);
      var input' := input + first;
      var more: Bytes := [];
      if ParseValue(input', depth, limits).Complete? {
        var used := ParseValue(input', depth, limits).consumed;
        more := ItemsFinish(input'[used..], count - 1, depth, limits);
        assert (input' + more)[used..] == input'[used..] + more;
      }
      VerdictStable(input', more, depth, limits);
      ext := first + more;
      assert input + ext == input' + more;
    }
  }

  // ----- What the limits decide -----

  predicate Wider(limits: Limits, wide: Limits) {
    limits.maxBulk <= wide.maxBulk && limits.maxArray <= wide.maxArray && limits.maxDepth <= wide.maxDepth
  }

  /** The verdict is due to a limit. */
  predicate Limited(r: Result) {
    r.Failed? && r.status != Malformed
  }

  lemma BulkWider(input: Bytes, limits: Limits, wide: Limits)
    requires input != [] && Wider(limits, wide) && !Limited(ParseBulk(input, limits))
    ensures ParseBulk(input, wide) == ParseBulk(input, limits)
  {
    hide ReadLine, ParseInteger;
  }

  /** Wider limits change no answer but an oversized or too deep one. */
  lemma {:induction false} OnlyLimitsChange(input: Bytes, depth: nat, limits: Limits, wide: Limits)
    requires Wider(limits, wide) && !Limited(ParseValue(input, depth, limits))
    ensures ParseValue(input, depth, wide) == ParseValue(input, depth, limits)
    decreases |input|, 1
  {
    hide ReadLine, ParseInteger, ParseBulk, ParseArray;
    if input != [] {
      if input[0] == 36 {
        BulkWider(input, limits, wide);
      } else if input[0] == 42 {
        ArrayWider(input, depth, limits, wide);
      }
    }
  }

  lemma {:induction false} ArrayWider(input: Bytes, depth: nat, limits: Limits, wide: Limits)
    requires input != [] && Wider(limits, wide) && !Limited(ParseArray(input, depth, limits))
    ensures ParseArray(input, depth, wide) == ParseArray(input, depth, limits)
    decreases |input|, 0
  {
    hide ReadLine, ParseInteger, ParseItems;
    if ReadLine(input).WholeLine? {
      var WholeLine(text, next) := ReadLine(input);
      var length := ParseInteger(text);
      if length.Some? && 0 <= length.value <= limits.maxArray && depth < limits.maxDepth {
        ItemsWider(input[next..], length.value, depth + 1, limits, wide);
      }
    }
  }

  lemma {:induction false} ItemsWider(input: Bytes, count: nat, depth: nat, limits: Limits, wide: Limits)
    requires Wider(limits, wide)
    requires ParseItems(input, count, depth, limits).NoItems? ==> !Limited(ParseItems(input, count, depth, limits).why)
    ensures ParseItems(input, count, depth, wide) == ParseItems(input, count, depth, limits)
    decreases |input|, 2, count
  {
    hide ParseValue;
    if count > 0 {
      OnlyLimitsChange(input, depth, limits, wide);
      var item := ParseValue(input, depth, limits);
      if item.Complete? {
        ItemsWider(input[item.consumed..], count - 1, depth, limits, wide);
      }
    }
  }

  predicate SizesOpen(limits: Limits) {
    limits.maxBulk >= TWO63 && limits.maxArray >= TWO63
  }

  /** Where sizes are not limited nothing is oversized, and where depth is not limited nothing is too deep. */
  lemma {:induction false} RefusedForItsLimit(input: Bytes, depth: nat, limits: Limits)
    ensures var r := ParseValue(input, depth, limits);
            && (r.Failed? && r.status == Oversized ==> !SizesOpen(limits))
            && (r.Failed? && r.status == TooDeep ==> limits.maxDepth < depth + |input|)
    decreases |input|, 1
  {
    hide ReadLine, ParseInteger, ParseArray;
    if input != [] && input[0] == 42 {
      ArrayRefusedForItsLimit(input, depth, limits);
    }
  }

  lemma {:induction false} ArrayRefusedForItsLimit(input: Bytes, depth: nat, limits: Limits)
    requires input != []
    ensures var r := ParseArray(input, depth, limits);
            && (r.Failed? && r.status == Oversized ==> !SizesOpen(limits))
            && (r.Failed? && r.status == TooDeep ==> limits.maxDepth < depth + |input|)
    decreases |input|, 0
  {
    hide ReadLine, ParseInteger, ParseItems;
    if ReadLine(input).WholeLine? {
      var WholeLine(text, next) := ReadLine(input);
      var length := ParseInteger(text);
      if length.Some? && length.value >= 0 {
        ItemsRefusedForTheirLimit(input[next..], length.value, depth + 1, limits);
      }
    }
  }

  lemma {:induction false} ItemsRefusedForTheirLimit(input: Bytes, count: nat, depth: nat, limits: Limits)
    ensures var r := ParseItems(input, count, depth, limits);
            && (r.NoItems? && r.why.Failed? && r.why.status == Oversized ==> !SizesOpen(limits))
            && (r.NoItems? && r.why.Failed? && r.why.status == TooDeep ==> limits.maxDepth < depth + |input|)
    decreases |input|, 2, count
  {
    hide ParseValue;
    if count > 0 {
      RefusedForItsLimit(input, depth, limits);
      var item := ParseValue(input, depth, limits);
      if item.Complete? {
        ItemsRefusedForTheirLimit(input[item.consumed..], count - 1, depth, limits);
      }
    }
  }

  // ----- What the encoder accepts -----

  function Depth(v: RespValue): nat
    decreases v
  {
    match v
    case Array(items) => 1 + DepthAll(items)
    case NullArray => 1
    case _ => 0
  }

  function DepthAll(items: seq<RespValue>): nat
    decreases items
  {
    if items == [] then 0 else Max(Depth(items[0]), DepthAll(items[1..]))
  }

  /** Every length in the value is one that the parser can read. */
  predicate Countable(v: RespValue)
    decreases v
  {
    match v
    case Bulk(data) => |data| < TWO63
    case Array(items) => |items| < TWO63 && forall i :: 0 <= i < |items| ==> Countable(items[i])
    case _ => true
  }

  lemma {:induction false} DepthOfItem(items: seq<RespValue>, i: nat)
    requires i < |items|
    ensures Depth(items[i]) <= DepthAll(items)
    decreases i
  {
    if i > 0 {
      DepthOfItem(items[1..], i - 1);
    }
  }

  lemma {:induction false} EncodableFits(v: RespValue, depth: nat, limits: Limits)
    requires Countable(v) && SizesOpen(limits) && depth + Depth(v) <= limits.maxDepth
    ensures Fits(v, depth, limits) <==> Encodable(v)
    decreases v
  {
    if v.Array? {
      forall i | 0 <= i < |v.items|
        ensures Fits(v.items[i], depth + 1, limits) <==> Encodable(v.items[i])
      {
        DepthOfItem(v.items, i);
        EncodableFits(v.items[i], depth + 1, limits);
      }
    }
  }

  /** The encoder throws exactly on the values that no parser, whatever its limits, would give back. */
  lemma EncodableIffReadable(v: RespValue)
    requires Countable(v)
    ensures Encodable(v) <==> exists limits :: ParseValue(Encode(v), 0, limits) == Complete(v, |Encode(v)|)
  {
    hide ParseValue, Encode, Encodable, Fits;
    var open := Limits(TWO63, TWO63, Depth(v), 0);
    EncodableFits(v, 0, open);
    assert Encode(v) + [] == Encode(v);
    RoundTripIffFits(v, [], open);
    if limits :| ParseValue(Encode(v), 0, limits) == Complete(v, |Encode(v)|) {
      RoundTripIffFits(v, [], limits);
      var both := Limits(Max(TWO63, limits.maxBulk), Max(TWO63, limits.maxArray), Max(Depth(v), limits.maxDepth), 0);
      OnlyLimitsChange(Encode(v), 0, limits, both);
      RoundTripIffFits(v, [], both);
      EncodableFits(v, 0, both);
    }
  }

  // ----- The octets on the wire -----

  /** One value of each kind as RESP2 writes it. */
  lemma LinesOnTheWire()
    ensures Encode(Simple([79, 75])) == [43, 79, 75, 13, 10]
    ensures Encode(Error([69])) == [45, 69, 13, 10]
    ensures Encode(Integer(-12)) == [58, 45, 49, 50, 13, 10]
    ensures Encode(NullBulk) == [36, 45, 49, 13, 10]
    ensures Encode(NullArray) == [42, 45, 49, 13, 10]
  {
    assert Decimal(12) == Decimal(1) + [50] == [49, 50];
  }

  lemma BlocksOnTheWire()
    ensures Encode(Bulk([97, 98])) == [36, 50, 13, 10, 97, 98, 13, 10]
    ensures Encode(Array([Bulk([])])) == [42, 49, 13, 10, 36, 48, 13, 10, 13, 10]
  {
    hide Line;
    assert Decimal(2) == [50] && Decimal(1) == [49] && Decimal(0) == [48];
    LineIs(36, [50]);
    LineIs(36, [48]);
    LineIs(42, [49]);
    assert EncodeAll([Bulk([])]) == Encode(Bulk([])) + [];
  }

  lemma LineIs(prefix: byte, text: Bytes)
    requires |text| == 1
    ensures Line(prefix, text) == [prefix, text[0], 13, 10]
  {
  }
}
