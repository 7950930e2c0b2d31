/** Stability of the parser's verdicts, the round trip with the encoder, and prefix-freeness. */
module RespTheorems {
  import opened Common
  import opened Resp
  import opened RespParser

  // ----- Verdicts are stable under more input -----

  lemma {:induction false} ScanLineStable(input: Bytes, ext: Bytes, start: nat, index: nat)
    requires start <= index <= |input| && !ScanLine(input, start, index).PartialLine?
    ensures ScanLine(input + ext, start, index) == ScanLine(input, start, index)
    decreases |input| - index
  {
    if input[index] != LF && input[index] != CR {
      ScanLineStable(input, ext, start, index + 1);
    } else if input[index] == CR && input[index + 1] == LF {
      assert (input + ext)[start..index] == input[start..index];
    }
  }

  lemma ReadLineStable(input: Bytes, ext: Bytes)
    requires input != [] && !ReadLine(input).PartialLine?
    ensures ReadLine(input + ext) == ReadLine(input)
  {
    ScanLineStable(input, ext, 1, 1);
  }

  lemma BulkStable(input: Bytes, ext: Bytes, limits: Limits)
    requires input != [] && ParseBulk(input, limits) != Incomplete
    ensures ParseBulk(input + ext, limits) == ParseBulk(input, limits)
  {
    hide ReadLine, ParseInteger;
    ReadLineStable(input, ext);
    var line := ReadLine(input);
    if line.WholeLine? && ParseInteger(line.text).Some? {
      var length := ParseInteger(line.text).value;
      if 0 <= length <= limits.maxBulk {
        var end := line.next + length;
        assert (input + ext)[line.next..end] == input[line.next..end];
      }
    }
  }

  /**
   Whatever parse_value answers except "incomplete" it answers on every extension of the input, with
   the same value, the same count of consumed bytes and the same error text.
   */
  lemma {:induction false} VerdictStable(input: Bytes, ext: Bytes, depth: nat, limits: Limits)
    requires ParseValue(input, depth, limits) != Incomplete
    ensures ParseValue(input + ext, depth, limits) == ParseValue(input, depth, limits)
    decreases |input|, 1
  {
    hide ReadLine, ParseInteger, ParseBulk, ParseArray;
    assert input != [];
    assert (input + ext)[0] == input[0];
    if input[0] == 43 || input[0] == 45 || input[0] == 58 {
      ReadLineStable(input, ext);
    } else if input[0] == 36 {
      BulkStable(input, ext, limits);
    } else if input[0] == 42 {
      ArrayStable(input, ext, depth, limits);
    }
  }

  lemma {:induction false} ArrayStable(input: Bytes, ext: Bytes, depth: nat, limits: Limits)
    requires input != [] && ParseArray(input, depth, limits) != Incomplete
    ensures ParseArray(input + ext, depth, limits) == ParseArray(input, depth, limits)
    decreases |input|, 0
  {
    hide ReadLine, ParseInteger, ParseItems;
    ReadLineStable(input, ext);
    var line := ReadLine(input);
    if line.WholeLine? && ParseInteger(line.text).Some? {
      var length := ParseInteger(line.text).value;
      if 0 <= length <= limits.maxArray && depth < limits.maxDepth {
        var rest := input[line.next..];
        assert (input + ext)[line.next..] == rest + ext;
        ItemsStable(rest, ext, length, depth + 1, limits);
      }
    }
  }

  lemma {:induction false} ItemsStable(input: Bytes, ext: Bytes, count: nat, depth: nat, limits: Limits)
    requires ParseItems(input, count, depth, limits) != NoItems(Incomplete)
    ensures ParseItems(input + ext, count, depth, limits) == ParseItems(input, count, depth, limits)
    decreases |input|, 2, count
  {
    hide ParseValue;
    if count > 0 {
      VerdictStable(input, ext, depth, limits);
      var r := ParseValue(input, depth, limits);
      if r.Complete? {
        assert (input + ext)[r.consumed..] == input[r.consumed..] + ext;
        ItemsStable(input[r.consumed..], ext, count - 1, depth, limits);
      }
    }
  }

  // ----- Lines and numbers read back -----

  lemma {:induction false} ScanToEnd(input: Bytes, start: nat, index: nat, end: nat)
    requires start <= index <= end && end + 2 <= |input|
    requires forall i :: index <= i < end ==> input[i] != CR && input[i] != LF
    requires input[end] == CR && input[end + 1] == LF
    ensures ScanLine(input, start, index) == WholeLine(input[start..end], end + 2)
    decreases end - index
  {
    if index < end {
      ScanToEnd(input, start, index + 1, end);
    }
  }

  lemma ReadBackLine(prefix: byte, body: Bytes, rest: Bytes)
    requires IsLine(body)
    ensures ReadLine(Line(prefix, body) + rest) == WholeLine(body, |body| + 3)
    ensures (Line(prefix, body) + rest)[0] == prefix
    ensures (Line(prefix, body) + rest)[|body| + 3..] == rest
  {
    var input := Line(prefix, body) + rest;
    var end := 1 + |body|;
    assert forall i :: 1 <= i < end ==> input[i] == body[i - 1];
    ScanToEnd(input, 1, 1, end);
    assert input[1..end] == body;
  }

  lemma {:induction false} DecimalReads(n: nat)
    ensures Digits(Decimal(n)) == Some(n)
    ensures forall i :: 0 <= i < |Decimal(n)| ==> IsDigit(Decimal(n)[i])
    decreases n
  {
    if n < 10 {
      assert Decimal(n)[..0] == [];
    } else {
      DecimalReads(n / 10);
      var r := Decimal(n);
      assert r[..|r| - 1] == Decimal(n / 10);
    }
  }

  lemma DecimalIsLine(n: nat)
    ensures IsLine(Decimal(n)) && Decimal(n)[0] != MINUS && Decimal(n)[0] != 43
  {
    hide Decimal;
    DecimalReads(n);
    assert IsDigit(Decimal(n)[0]);
  }

  lemma DecimalParses(n: nat)
    requires n < TWO63
    ensures ParseInteger(Decimal(n)) == Some(n)
  {
    hide Decimal;
    DecimalReads(n);
    DecimalIsLine(n);
  }

  lemma NumberParses(v: int64)
    ensures ParseInteger(Number(v)) == Some(v) && IsLine(Number(v))
  {
    hide Decimal, Digits;
    if v < 0 {
      var d := Decimal(-(v as int));
      DecimalReads(-(v as int));
      DecimalIsLine(-(v as int));
      assert ([MINUS] + d)[1..] == d;
    } else {
      DecimalParses(v);
      DecimalIsLine(v);
    }
  }

  lemma NullLengthParses()
    ensures ParseInteger([MINUS, 49]) == Some(-1) && IsLine([MINUS, 49])
  {
    NumberParses(-1);
    assert Decimal(1) == [49];
    assert [MINUS] + [49] == [MINUS, 49];
  }

  // ----- Round trip -----

  /** The value is within the parser's limits when it stands at the given nesting depth. */
  predicate Fits(v: RespValue, depth: nat, limits: Limits)
    decreases v
  {
    match v
    case Simple(text) => IsLine(text)
    case Error(message) => IsLine(message)
    case Integer(_) => true
    case Bulk(data) => |data| <= limits.maxBulk && |data| < TWO63
    case NullBulk => true
    case Array(items) =>
      && depth < limits.maxDepth && |items| <= limits.maxArray && |items| < TWO63
      && forall i :: 0 <= i < |items| ==> Fits(items[i], depth + 1, limits)
    case NullArray => depth < limits.maxDepth
  }

  lemma BulkReadsBack(data: Bytes, rest: Bytes, limits: Limits)
    requires |data| <= limits.maxBulk && |data| < TWO63
    ensures var e := Line(36, Decimal(|data|)) + data + CRLF;
            ParseBulk(e + rest, limits) == Complete(Bulk(data), |e|)
  {
    hide Decimal, ReadLine, ParseInteger;
    var n := Decimal(|data|);
    var e := Line(36, n) + data + CRLF;
    var more := data + CRLF + rest;
    assert e + rest == Line(36, n) + more;
    DecimalIsLine(|data|);
    DecimalParses(|data|);
    ReadBackLine(36, n, more);
    var next := |n| + 3;
    var input := e + rest;
    assert input[next..next + |data|] == data;
    assert input[next + |data|] == CR && input[next + |data| + 1] == LF;
  }

  /** Parsing an encoded value followed by any bytes gives the value and consumes its encoding. */
  lemma {:induction false} EncodedParses(v: RespValue, rest: Bytes, depth: nat, limits: Limits)
    requires Fits(v, depth, limits)
    ensures ParseValue(Encode(v) + rest, depth, limits) == Complete(v, |Encode(v)|)
    decreases v, 1
  {
    hide Decimal, Number, ReadLine, ParseInteger, ParseBulk, ParseArray, Digits, Line;
    match v {
      case Simple(text) =>
        ReadBackLine(43, text, rest);
        LineLength(43, text);
      case Error(message) =>
        ReadBackLine(45, message, rest);
        LineLength(45, message);
      case Integer(number) =>
        NumberParses(number);
        ReadBackLine(58, Number(number), rest);
        LineLength(58, Number(number));
      case Bulk(data) =>
        BulkReadsBack(data, rest, limits);
        LineLength(36, Decimal(|data|));
      case NullBulk =>
        NullReadsBack(36, rest, depth, limits);
      case Array(items) =>
        ArrayReadsBack(items, rest, depth, limits);
        LineLength(42, Decimal(|items|));
      case NullArray =>
        NullReadsBack(42, rest, depth, limits);
    }
  }

  lemma LineLength(prefix: byte, body: Bytes)
    ensures |Line(prefix, body)| == |body| + 3 && Line(prefix, body)[0] == prefix
  {
  }

  lemma NullReadsBack(prefix: byte, rest: Bytes, depth: nat, limits: Limits)
    requires prefix == 36 || prefix == 42
    ensures var e := Line(prefix, [MINUS, 49]);
            && (e + rest)[0] == prefix && |e| == 5
            && ParseBulk(e + rest, limits) == Complete(NullBulk, 5)
            && (depth < limits.maxDepth ==> ParseArray(e + rest, depth, limits) == Complete(NullArray, 5))
  {
    hide ReadLine, ParseInteger;
    NullLengthParses();
    ReadBackLine(prefix, [MINUS, 49], rest);
  }

  lemma {:induction false} ArrayReadsBack(items: seq<RespValue>, rest: Bytes, depth: nat, limits: Limits)
    requires depth < limits.maxDepth && |items| <= limits.maxArray && |items| < TWO63
    requires forall i :: 0 <= i < |items| ==> Fits(items[i], depth + 1, limits)
    ensures var e := Line(42, Decimal(|items|)) + EncodeAll(items);
            ParseArray(e + rest, depth, limits) == Complete(Array(items), |e|)
    decreases items, 1
  {
    hide Decimal, ReadLine, ParseInteger, ParseItems, Fits, EncodeAll, Line;
    var n := Decimal(|items|);
    var e := Line(42, n) + EncodeAll(items);
    assert e + rest == Line(42, n) + (EncodeAll(items) + rest);
    DecimalIsLine(|items|);
    DecimalParses(|items|);
    ReadBackLine(42, n, EncodeAll(items) + rest);
    LineLength(42, n);
    ItemsReadBack(items, rest, depth + 1, limits);
  }

  lemma {:induction false} ItemsReadBack(items: seq<RespValue>, rest: Bytes, depth: nat, limits: Limits)
    requires forall i :: 0 <= i < |items| ==> Fits(items[i], depth, limits)
    ensures ParseItems(EncodeAll(items) + rest, |items|, depth, limits) == AllItems(items, |EncodeAll(items)|)
    decreases items, 0
  {
    hide ParseValue, Fits, Encode;
    if items != [] {
      var first, others := items[0], items[1..];
      var more := EncodeAll(others) + rest;
      assert EncodeAll(items) + rest == Encode(first) + more;
      EncodedParses(first, more, depth, limits);
      assert (Encode(first) + more)[|Encode(first)|..] == more;
      ItemsReadBack(others, rest, depth, limits);
      assert [first] + others == items;
    }
  }

  // ----- Only values within the limits are ever produced -----

  lemma SliceIsLine(input: Bytes, start: nat, end: nat)
    requires start <= end <= |input|
    requires forall i :: start <= i < end ==> input[i] != CR && input[i] != LF
    ensures IsLine(input[start..end])
  {
    var text := input[start..end];
    assert forall i :: 0 <= i < |text| ==> text[i] == input[start + i];
  }

  lemma {:induction false} ScannedIsLine(input: Bytes, start: nat, index: nat)
    requires start <= index <= |input|
    requires forall i :: start <= i < index ==> input[i] != CR && input[i] != LF
    ensures ScanLine(input, start, index).WholeLine? ==> IsLine(ScanLine(input, start, index).text)
    decreases |input| - index
  {
    if index < |input| && input[index] != LF {
      if input[index] != CR {
        ScannedIsLine(input, start, index + 1);
      } else {
        SliceIsLine(input, start, index);
      }
    }
  }

  lemma {:induction false} ParsedFits(input: Bytes, depth: nat, limits: Limits)
    ensures ParseValue(input, depth, limits).Complete? ==> Fits(ParseValue(input, depth, limits).value, depth, limits)
    decreases |input|, 1
  {
    hide ParseInteger, ParseArray;
    if input != [] {
      ScannedIsLine(input, 1, 1);
      if input[0] == 42 {
        ArrayFits(input, depth, limits);
      }
    }
  }

  lemma {:induction false} ArrayFits(input: Bytes, depth: nat, limits: Limits)
    requires input != []
    ensures ParseArray(input, depth, limits).Complete? ==> Fits(ParseArray(input, depth, limits).value, depth, limits)
    decreases |input|, 0
  {
    hide ReadLine, ParseInteger, ParseItems;
    var line := ReadLine(input);
    if line.WholeLine? && ParseInteger(line.text).Some? && ParseInteger(line.text).value >= 0 {
      ItemsFit(input[line.next..], ParseInteger(line.text).value, depth + 1, limits);
    }
  }

  lemma {:induction false} ItemsFit(input: Bytes, count: nat, depth: nat, limits: Limits)
    ensures var r := ParseItems(input, count, depth, limits);
            r.AllItems? ==> forall i :: 0 <= i < |r.items| ==> Fits(r.items[i], depth, limits)
    decreases |input|, 2, count
  {
    hide ParseValue, Fits;
    if count > 0 {
      ParsedFits(input, depth, limits);
      var r := ParseValue(input, depth, limits);
      if r.Complete? {
        ItemsFit(input[r.consumed..], count - 1, depth, limits);
      }
    }
  }

  /** The round trip holds exactly for the values within the limits. */
  lemma RoundTripIffFits(v: RespValue, rest: Bytes, limits: Limits)
    ensures ParseValue(Encode(v) + rest, 0, limits) == Complete(v, |Encode(v)|) <==> Fits(v, 0, limits)
  {
    hide Encode, ParseValue, Fits;
    ParsedFits(Encode(v) + rest, 0, limits);
    if Fits(v, 0, limits) {
      EncodedParses(v, rest, 0, limits);
    }
  }

  /** Every strict prefix of an encoding is incomplete. */
  lemma PrefixIncomplete(v: RespValue, k: nat, limits: Limits)
    requires Fits(v, 0, limits) && k < |Encode(v)|
    ensures ParseValue(Encode(v)[..k], 0, limits) == Incomplete
  {
    hide Encode, ParseValue, Fits;
    var e := Encode(v);
    EncodedParses(v, [], 0, limits);
    assert e + [] == e && e[..k] + e[k..] == e;
    if ParseValue(e[..k], 0, limits) != Incomplete {
      VerdictStable(e[..k], e[k..], 0, limits);
    }
  }
}
