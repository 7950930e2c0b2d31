/**
 The incremental RESP2 parser (src/protocol/parser.cpp): a recursive descent over the bytes buffered
 so far that answers with a value, with "incomplete", or with one of three errors.
 */
module RespParser {
  import opened Common
  import opened Resp

  datatype Limits = Limits(maxBulk: nat, maxArray: nat, maxDepth: nat, maxBuffer: nat)

  datatype Status = Malformed | Oversized | TooDeep

  datatype Result =
    | Complete(value: RespValue, consumed: nat)
    | Incomplete
    | Failed(status: Status, reason: string)

  datatype LineResult =
    | WholeLine(text: Bytes, next: nat)
    | PartialLine
    | BadLine(reason: string)

  /** Scans for CRLF from `index`; `start` is where the line text begins. */
  function ScanLine(input: Bytes, start: nat, index: nat): (r: LineResult)
    requires start <= index <= |input|
    ensures r.WholeLine? ==> index + 2 <= r.next <= |input| && r.text == input[start..r.next - 2]
    decreases |input| - index
  {
    if index == |input| then PartialLine
    else if input[index] == LF then BadLine("line feed without preceding carriage return")
    else if input[index] != CR then ScanLine(input, start, index + 1)
    else if index + 1 == |input| then PartialLine
    else if input[index + 1] != LF then BadLine("carriage return not followed by line feed")
    else WholeLine(input[start..index], index + 2)
  }

  /** The line after the type octet. */
  function ReadLine(input: Bytes): (r: LineResult)
    requires input != []
    ensures r.WholeLine? ==> 3 <= r.next <= |input| && r.text == input[1..r.next - 2]
  {
    ScanLine(input, 1, 1)
  }

  // ----- Integers -----

  predicate IsDigit(b: byte) {
    48 <= b <= 57
  }

  /** The value of a string of decimal digits. */
  function Digits(text: Bytes): Option<nat> {
    if text == [] then Some(0)
    else
      var last := text[|text| - 1];
      match Digits(text[..|text| - 1])
      case None => None
      case Some(n) => if IsDigit(last) then Some(10 * n + (last - 48)) else None
  }

  /** from_chars into 64 bits over the whole text, with a leading plus refused. */
  function ParseInteger(text: Bytes): Option<int64> {
    if text == [] || text[0] == 43 then None
    else
      var negative := text[0] == MINUS;
      var digits := if negative then text[1..] else text;
      if digits == [] then None else
      match Digits(digits)
      case None => None
      case Some(n) =>
        var v: int := if negative then -(n as int) else n;
        if -TWO63 <= v < TWO63 then Some(v) else None
  }

  // ----- Values -----

  function ParseLineValue(input: Bytes, isError: bool): Result
    requires input != []
  {
    match ReadLine(input)
    case PartialLine => Incomplete
    case BadLine(reason) => Failed(Malformed, reason)
    case WholeLine(text, next) => Complete(if isError then Error(text) else Simple(text), next)
  }

  function ParseRespInteger(input: Bytes): Result
    requires input != []
  {
    match ReadLine(input)
    case PartialLine => Incomplete
    case BadLine(reason) => Failed(Malformed, reason)
    case WholeLine(text, next) =>
      match ParseInteger(text)
      case None => Failed(Malformed, "invalid or overflowing integer")
      case Some(v) => Complete(Integer(v), next)
  }

  function ParseBulk(input: Bytes, limits: Limits): Result
    requires input != []
  {
    match ReadLine(input)
    case PartialLine => Incomplete
    case BadLine(reason) => Failed(Malformed, reason)
    case WholeLine(text, next) =>
      match ParseInteger(text)
      case None => Failed(Malformed, "invalid or overflowing bulk length")
      case Some(length) =>
        if length == -1 then Complete(NullBulk, next)
        else if length < 0 then Failed(Malformed, "illegal negative bulk length")
        else if length > limits.maxBulk then Failed(Oversized, "bulk string exceeds configured limit")
        else if length > |input| - next then Incomplete
        else
          var end := next + length;
          if end == |input| then Incomplete
          else if input[end] != CR then Failed(Malformed, "bulk payload lacks terminating CRLF")
          else if end + 1 == |input| then Incomplete
          else if input[end + 1] != LF then Failed(Malformed, "bulk payload lacks terminating CRLF")
          else Complete(Bulk(input[next..end]), end + 2)
  }

  datatype ItemsResult =
    | AllItems(items: seq<RespValue>, used: nat)
    | NoItems(why: Result)

  function ParseArray(input: Bytes, depth: nat, limits: Limits): (r: Result)
    requires input != []
    ensures r.Complete? ==> 0 < r.consumed <= |input|
    decreases |input|, 0
  {
    match ReadLine(input)
    case PartialLine => Incomplete
    case BadLine(reason) => Failed(Malformed, reason)
    case WholeLine(text, next) =>
      match ParseInteger(text)
      case None => Failed(Malformed, "invalid or overflowing array length")
      case Some(length) =>
        if length < -1 then Failed(Malformed, "illegal negative array length")
        else if depth >= limits.maxDepth then Failed(TooDeep, "array nesting exceeds configured limit")
        else if length == -1 then Complete(NullArray, next)
        else if length > limits.maxArray then Failed(Oversized, "array exceeds configured element limit")
        else
          match ParseItems(input[next..], length, depth + 1, limits)
          case NoItems(why) => why
          case AllItems(items, used) => Complete(Array(items), next + used)
  }

  /** The element loop: the first element that is not complete decides. */
  function ParseItems(input: Bytes, count: nat, depth: nat, limits: Limits): (r: ItemsResult)
    ensures r.AllItems? ==> r.used <= |input| && |r.items| == count
    ensures r.NoItems? ==> !r.why.Complete?
    decreases |input|, 2, count
  {
    if count == 0 then AllItems([], 0) else
    match ParseValue(input, depth, limits)
    case Complete(v, used) =>
      (match ParseItems(input[used..], count - 1, depth, limits)
       case NoItems(why) => NoItems(why)
       case AllItems(items, more) => AllItems([v] + items, used + more))
    case Incomplete => NoItems(Incomplete)
    case Failed(status, reason) => NoItems(Failed(status, reason))
  }

  function ParseValue(input: Bytes, depth: nat, limits: Limits): (r: Result)
    ensures r.Complete? ==> 0 < r.consumed <= |input|
    decreases |input|, 1
  {
    if input == [] then Incomplete
    else if input[0] == 43 then ParseLineValue(input, false)
    else if input[0] == 45 then ParseLineValue(input, true)
    else if input[0] == 58 then ParseRespInteger(input)
    else if input[0] == 36 then ParseBulk(input, limits)
    else if input[0] == 42 then ParseArray(input, depth, limits)
    else Failed(Malformed, "unknown RESP type prefix")
  }
}
