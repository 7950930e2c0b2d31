/**
 Parsing and then encoding.  The parser reads integers with from_chars (src/protocol/parser.cpp:47-56),
 which accepts leading zeros and a negative zero, so the bytes that come out need not be the bytes that
 went in.  They are if and only if every number read in the frame is plain.
 */
module RespCanonical {
  import opened Common
  import opened Resp
  import opened RespParser
  import opened RespTheorems

  // ----- Plain numbers -----

  const ZERO: byte := 48

  predicate PlainDigits(text: Bytes) {
    |text| == 1 || (text != [] && text[0] != ZERO)
  }

  /** No leading zero unless the text is a single zero, and no negative zero. */
  predicate PlainNumber(text: Bytes) {
    if text != [] && text[0] == MINUS then PlainDigits(text[1..]) && text[1..] != [ZERO] else PlainDigits(text)
  }

  lemma {:induction false} DecimalLead(n: nat)
    requires n > 0
    ensures Decimal(n)[0] != ZERO
    decreases n
  {
    if n >= 10 {
      DecimalLead(n / 10);
    }
  }

  /** A string of digits is the decimal form of its value if and only if it has no leading zero. */
  lemma {:induction false} DigitsPlainIff(text: Bytes, n: nat)
    requires text != [] && Digits(text) == Some(n)
    ensures text == Decimal(n) <==> PlainDigits(text)
    decreases |text|
  {
    var front, last := text[..|text| - 1], text[|text| - 1];
    var m := Digits(front).value;
    assert text == front + [last];
    if front == [] {
      assert Decimal(n) == [Digit(n)];
    } else {
      assert text[0] == front[0];
      if text[0] != ZERO {
        DigitsPlainIff(front, m);
        assert m > 0 by { assert Decimal(0) == [ZERO]; }
        assert Decimal(n) == Decimal(m) + [Digit(n % 10)];
      } else if n > 0 {
        DecimalLead(n);
      } else {
        assert |Decimal(n)| == 1;
      }
    }
  }

  /** An accepted number is written back as it was if and only if it is plain. */
  lemma NumberPlainIff(text: Bytes, v: int64)
    requires ParseInteger(text) == Some(v)
    ensures text == Number(v) <==> PlainNumber(text)
  {
    hide Digits, Decimal;
    if text[0] == MINUS {
      var digits := text[1..];
      var n := Digits(digits).value;
      DigitsPlainIff(digits, n);
      DecimalReads(n);
      assert text == [MINUS] + digits;
      ZeroIs();
      if n == 0 {
        DecimalIsLine(0);
      } else {
        assert digits == [ZERO] ==> Digits(digits) == Some(0) by { DecimalReads(0); }
        assert ([MINUS] + Decimal(n))[1..] == Decimal(n);
      }
    } else {
      DigitsPlainIff(text, v);
    }
  }

  lemma ZeroIs()
    ensures Decimal(0) == [ZERO] && Number(-1) == [MINUS, 49]
  {
    assert Decimal(1) == [49];
  }

  // ----- Which texts are numbers -----

  function Padding(k: nat): (text: Bytes)
    ensures |text| == k
  {
    seq(k, _ => ZERO)
  }

  /** The decimal form of the number behind `k` zeros, with or without a minus. */
  function Spelling(v: int64, k: nat, minus: bool): Bytes {
    (if minus then [MINUS] else []) + (Padding(k) + Decimal(Magnitude(v)))
  }

  function Magnitude(v: int64): nat {
    if v < 0 then -(v as int) else v
  }

  /** The text is such a form, with a minus if the number is negative and none if it is positive. */
  ghost predicate Spells(text: Bytes, v: int64) {
    exists k: nat, minus: bool :: text == Spelling(v, k, minus) && (v < 0 ==> minus) && (v > 0 ==> !minus)
  }

  lemma {:induction false} PrefixedDigits(zero: Bytes, text: Bytes)
    requires Digits(zero) == Some(0)
    ensures Digits(zero + text) == Digits(text)
    decreases |text|
  {
    if text == [] {
      assert zero + text == zero;
    } else {
      assert (zero + text)[..|zero + text| - 1] == zero + text[..|text| - 1];
      PrefixedDigits(zero, text[..|text| - 1]);
    }
  }

  lemma {:induction false} PaddingReads(k: nat)
    ensures Digits(Padding(k)) == Some(0)
  {
    if k > 0 {
      PaddingReads(k - 1);
      assert Padding(k)[..k - 1] == Padding(k - 1);
    }
  }

  lemma {:induction false} DigitsArePadded(text: Bytes, n: nat) returns (k: nat)
    requires text != [] && Digits(text) == Some(n)
    ensures text == Padding(k) + Decimal(n)
    decreases |text|
  {
    hide Decimal, Digits;
    if PlainDigits(text) {
      DigitsPlainIff(text, n);
      k := 0;
      assert Padding(0) + text == text;
    } else {
      var rest := text[1..];
      assert text == [ZERO] + rest;
      assert Digits([ZERO]) == Some(0) by { PaddingReads(1); assert Padding(1) == [ZERO]; }
      PrefixedDigits([ZERO], rest);
      var less := DigitsArePadded(rest, n);
      k := less + 1;
      assert Padding(k) == [ZERO] + Padding(less);
      assert [ZERO] + (Padding(less) + Decimal(n)) == Padding(k) + Decimal(n);
    }
  }

  lemma AcceptedSpells(text: Bytes, v: int64)
    requires ParseInteger(text) == Some(v)
    ensures Spells(text, v)
  {
    hide Decimal, Digits, Padding;
    var minus := text[0] == MINUS;
    var digits := if minus then text[1..] else text;
    var k := DigitsArePadded(digits, Magnitude(v));
    assert text == (if minus then [MINUS] else []) + digits;
    assert text == Spelling(v, k, minus);
  }

  lemma SpellingIsAccepted(v: int64, k: nat, minus: bool)
    requires (v < 0 ==> minus) && (v > 0 ==> !minus)
    ensures ParseInteger(Spelling(v, k, minus)) == Some(v)
  {
    hide Decimal, Digits;
    var n := Magnitude(v);
    var text, digits := Spelling(v, k, minus), Padding(k) + Decimal(n);
    PaddingReads(k);
    PrefixedDigits(Padding(k), Decimal(n));
    DecimalReads(n);
    DecimalIsLine(n);
    assert digits[0] == if k > 0 then ZERO else Decimal(n)[0];
    if minus {
      assert text[1..] == digits;
    } else {
      assert text == digits;
    }
  }

  /** A text is accepted as a number of 64 bits if and only if it spells that number. */
  lemma NumberAcceptedIff(text: Bytes, v: int64)
    ensures ParseInteger(text) == Some(v) <==> Spells(text, v)
  {
    hide ParseInteger, Spelling;
    if ParseInteger(text) == Some(v) {
      AcceptedSpells(text, v);
    }
    if k: nat, minus: bool :| text == Spelling(v, k, minus) && (v < 0 ==> minus) && (v > 0 ==> !minus) {
      SpellingIsAccepted(v, k, minus);
    }
  }

  // ----- Plain frames -----

  /** Every integer and length line read in the frame at the front of the input is plain. */
  predicate PlainFrame(input: Bytes, depth: nat, limits: Limits)
    decreases |input|, 1
  {
    input == [] || !ReadLine(input).WholeLine? ||
    (var WholeLine(text, next) := ReadLine(input);
     if input[0] == 58 || input[0] == 36 then PlainNumber(text)
     else if input[0] == 42 then
       && PlainNumber(text)
       && (ParseInteger(text).Some? && ParseInteger(text).value >= 0 ==>
             PlainItems(input[next..], ParseInteger(text).value, depth + 1, limits))
     else true)
  }

  predicate PlainItems(input: Bytes, count: nat, depth: nat, limits: Limits)
    decreases |input|, 2, count
  {
    count == 0 || !ParseValue(input, depth, limits).Complete? ||
    (PlainFrame(input, depth, limits) &&
     PlainItems(input[ParseValue(input, depth, limits).consumed..], count - 1, depth, limits))
  }

  /** The front of the input is a given line exactly when the line read has that text. */
  lemma LineAtFront(input: Bytes, body: Bytes, more: Bytes)
    requires input != [] && ReadLine(input).WholeLine? && IsLine(body)
    ensures var WholeLine(text, next) := ReadLine(input);
            && input[..next] == Line(input[0], text)
            && (input[..next] + more == Line(input[0], body) + more <==> text == body)
  {
    hide ReadLine;
    var WholeLine(text, next) := ReadLine(input);
    assert input[..next] == Line(input[0], text) by { FrontIsLine(input); }
    if input[..next] + more == Line(input[0], body) + more {
      assert |text| == |body|;
      assert (input[..next] + more)[1..1 + |text|] == text;
      assert (Line(input[0], body) + more)[1..1 + |body|] == body;
    }
  }

  lemma FrontIsLine(input: Bytes)
    requires input != [] && ReadLine(input).WholeLine?
    ensures var WholeLine(text, next) := ReadLine(input);
            input[..next] == Line(input[0], text)
  {
    var WholeLine(text, next) := ReadLine(input);
    ScannedEnds(input, 1, 1);
    assert input[..next] == [input[0]] + input[1..next - 2] + [input[next - 2], input[next - 1]];
  }

  lemma {:induction false} ScannedEnds(input: Bytes, start: nat, index: nat)
    requires start <= index <= |input| && ScanLine(input, start, index).WholeLine?
    ensures var next := ScanLine(input, start, index).next;
            input[next - 2] == CR && input[next - 1] == LF
    decreases |input| - index
  {
    if index < |input| && input[index] != CR && input[index] != LF {
      ScannedEnds(input, start, index + 1);
    }
  }

  lemma LineOnlyPlainIff(input: Bytes, v: int64)
    requires input != [] && ReadLine(input).WholeLine? && ParseInteger(ReadLine(input).text) == Some(v)
    ensures var WholeLine(text, next) := ReadLine(input);
            input[..next] == Line(input[0], Number(v)) <==> PlainNumber(text)
  {
    hide ReadLine, ParseInteger, Number;
    var WholeLine(text, next) := ReadLine(input);
    NumberParses(v);
    LineAtFront(input, Number(v), []);
    assert input[..next] + [] == input[..next] && Line(input[0], Number(v)) + [] == Line(input[0], Number(v));
    NumberPlainIff(text, v);
  }

  lemma BulkPlainIff(input: Bytes, limits: Limits)
    requires input != [] && input[0] == 36 && ParseBulk(input, limits).Complete?
    ensures var Complete(v, used) := ParseBulk(input, limits);
            used <= |input| && (input[..used] == Encode(v) <==> PlainNumber(ReadLine(input).text))
  {
    hide ReadLine, ParseInteger, Number, Decimal, Line;
    var WholeLine(text, next) := ReadLine(input);
    var length := ParseInteger(text).value;
    LineOnlyPlainIff(input, length);
    ZeroIs();
    if length >= 0 {
      var data, end := input[next..next + length], next + length;
      assert Number(length) == Decimal(|data|) by { NumberOfNat(length); }
      assert input[..end + 2] == input[..next] + (data + CRLF);
      assert Encode(Bulk(data)) == Line(36, Decimal(|data|)) + (data + CRLF);
      DecimalIsLine(|data|);
      LineAtFront(input, Decimal(|data|), data + CRLF);
      NumberPlainIff(text, length);
    }
  }

  lemma NumberOfNat(v: int64)
    requires v >= 0
    ensures Number(v) == Decimal(v)
  {
  }

  /**
   Whatever is parsed: the bytes consumed are the encoding of the value if and only if every integer
   and length line in them is plain.
   */
  lemma {:induction false} ReencodesIffPlain(input: Bytes, depth: nat, limits: Limits)
    requires ParseValue(input, depth, limits).Complete?
    ensures var Complete(v, used) := ParseValue(input, depth, limits);
            input[..used] == Encode(v) <==> PlainFrame(input, depth, limits)
    decreases |input|, 1
  {
    hide ReadLine, ParseInteger, Number, Decimal, Line, PlainNumber, ParseBulk, ParseArray, PlainItems, EncodeAll;
    if input[0] == 43 || input[0] == 45 {
      FrontIsLine(input);
    } else if input[0] == 58 {
      LineOnlyPlainIff(input, ParseInteger(ReadLine(input).text).value);
    } else if input[0] == 36 {
      BulkPlainIff(input, limits);
      BulkReadsLine(input, limits);
    } else {
      ArrayReencodesIffPlain(input, depth, limits);
      ArrayReadsLine(input, depth, limits);
    }
  }

  lemma BulkReadsLine(input: Bytes, limits: Limits)
    requires input != [] && ParseBulk(input, limits).Complete?
    ensures ReadLine(input).WholeLine?
  {
  }

  lemma ArrayReadsLine(input: Bytes, depth: nat, limits: Limits)
    requires input != [] && ParseArray(input, depth, limits).Complete?
    ensures ReadLine(input).WholeLine? && ParseInteger(ReadLine(input).text).Some?
  {
  }

  lemma {:induction false} ArrayReencodesIffPlain(input: Bytes, depth: nat, limits: Limits)
    requires input != [] && input[0] == 42 && ParseArray(input, depth, limits).Complete?
    ensures var Complete(v, used) := ParseArray(input, depth, limits);
            && ReadLine(input).WholeLine? && ParseInteger(ReadLine(input).text).Some?
            && var WholeLine(text, next) := ReadLine(input);
               var length := ParseInteger(text).value;
               input[..used] == Encode(v) <==>
               PlainNumber(text) && (length >= 0 ==> PlainItems(input[next..], length, depth + 1, limits))
    decreases |input|, 0
  {
    hide ReadLine, ParseInteger, Number, Decimal, Line, PlainNumber, ParseItems, PlainItems, EncodeAll;
    var WholeLine(text, next) := ReadLine(input);
    var length := ParseInteger(text).value;
    LineOnlyPlainIff(input, length);
    ZeroIs();
    if length >= 0 {
      var AllItems(items, used) := ParseItems(input[next..], length, depth + 1, limits);
      ItemsReencodeIffPlain(input[next..], length, depth + 1, limits);
      var rest := input[next..][..used];
      assert input[..next + used] == input[..next] + rest;
      NumberOfNat(length);
      DecimalIsLine(length);
      LineAtFront(input, Decimal(length), rest);
      NumberPlainIff(text, length);
      assert IsLine(text) by { ReadIsLine(input); }
      SplitAtLine(input[..next], rest, input[0], text, Decimal(length), EncodeAll(items));
    }
  }

  lemma ReadIsLine(input: Bytes)
    requires input != [] && ReadLine(input).WholeLine?
    ensures IsLine(ReadLine(input).text)
  {
    ScannedIsLine(input, 1, 1);
  }

  /** Two lines followed by bytes are equal only if both parts are: no line text holds a line end. */
  lemma SplitAtLine(front: Bytes, rest: Bytes, prefix: byte, text: Bytes, body: Bytes, more: Bytes)
    requires front == Line(prefix, text) && IsLine(text) && IsLine(body)
    ensures front + rest == Line(prefix, body) + more <==> text == body && rest == more
  {
    hide ReadLine;
    if front + rest == Line(prefix, body) + more {
      ReadBackLine(prefix, text, rest);
      ReadBackLine(prefix, body, more);
      assert text == body;
      assert (front + rest)[|front|..] == rest && (Line(prefix, body) + more)[|front|..] == more;
    }
  }

  lemma FirstItem(input: Bytes, count: nat, depth: nat, limits: Limits)
    requires count > 0 && ParseItems(input, count, depth, limits).AllItems?
    ensures ParseValue(input, depth, limits).Complete?
    ensures var Complete(v, used) := ParseValue(input, depth, limits);
            var rest := ParseItems(input[used..], count - 1, depth, limits);
            && rest.AllItems? && used + rest.used <= |input|
            && ParseItems(input, count, depth, limits) == AllItems([v] + rest.items, used + rest.used)
            && (PlainItems(input, count, depth, limits) <==>
                PlainFrame(input, depth, limits) && PlainItems(input[used..], count - 1, depth, limits))
  {
    hide PlainFrame, ParseValue;
  }

  lemma NoItemsPlain(input: Bytes, depth: nat, limits: Limits)
    ensures ParseItems(input, 0, depth, limits) == AllItems([], 0) && EncodeAll([]) == input[..0]
    ensures PlainItems(input, 0, depth, limits)
  {
  }

  lemma EncodeAllFirst(v: RespValue, items: seq<RespValue>)
    ensures EncodeAll([v] + items) == Encode(v) + EncodeAll(items)
  {
    assert ([v] + items)[1..] == items;
  }

  lemma {:induction false} ItemsReencodeIffPlain(input: Bytes, count: nat, depth: nat, limits: Limits)
    requires ParseItems(input, count, depth, limits).AllItems?
    ensures var AllItems(items, used) := ParseItems(input, count, depth, limits);
            used <= |input| && (input[..used] == EncodeAll(items) <==> PlainItems(input, count, depth, limits))
    decreases |input|, 2, count
  {
    hide PlainFrame, PlainItems, ParseValue, ParseItems, Encode, EncodeAll;
    if count == 0 {
      NoItemsPlain(input, depth, limits);
    } else {
      FirstItem(input, count, depth, limits);
      var Complete(v, used) := ParseValue(input, depth, limits);
      var AllItems(items, more) := ParseItems(input[used..], count - 1, depth, limits);
      ReencodesIffPlain(input, depth, limits);
      ItemsReencodeIffPlain(input[used..], count - 1, depth, limits);
      ParsedFits(input, depth, limits);
      EncodeAllFirst(v, items);
      assert input[..used + more] == input[..used] + input[used..][..more];
      SplitAtValue(input, v, used, items, more, depth, limits);
    }
  }

  /** Encodings are self-delimiting, so equal bytes split at the same place. */
  lemma SplitAtValue(
    input: Bytes, v: RespValue, used: nat, items: seq<RespValue>, more: nat, depth: nat, limits: Limits)
    requires ParseValue(input, depth, limits) == Complete(v, used) && used + more <= |input| && Fits(v, depth, limits)
    ensures input[..used] + input[used..][..more] == Encode(v) + EncodeAll(items) <==>
            input[..used] == Encode(v) && input[used..][..more] == EncodeAll(items)
  {
    hide ParseValue, Encode, EncodeAll, Fits;
    var e, es := Encode(v), EncodeAll(items);
    if input[..used] + input[used..][..more] == e + es {
      var rest := es + input[used + more..];
      assert input == input[..used] + input[used..][..more] + input[used + more..];
      assert input == e + rest;
      EncodedParses(v, rest, depth, limits);
      assert |e| == used;
      assert (e + es)[..used] == e && (e + es)[used..] == es;
      assert (input[..used] + input[used..][..more])[..used] == input[..used];
      assert (input[..used] + input[used..][..more])[used..] == input[used..][..more];
    }
  }

  // ----- Inputs that do not come back -----

  /** `:007` is read as seven and written as `:7`. */
  lemma LeadingZerosAreLost(limits: Limits)
    ensures var input: Bytes := [58, 48, 48, 55, 13, 10];
            && ParseValue(input, 0, limits) == Complete(Integer(7), 6)
            && Encode(Integer(7)) == [58, 55, 13, 10] && !PlainFrame(input, 0, limits)
  {
    var input: Bytes := [58, 48, 48, 55, 13, 10];
    var text: Bytes := [48, 48, 55];
    assert input == Line(58, text) + [];
    ReadBackLine(58, text, []);
    assert text[..2] == [48, 48] && text[..2][..1] == [48] && text[..2][..1][..0] == [];
    assert Digits([48]) == Some(0) && Digits([48, 48]) == Some(0) && Digits(text) == Some(7);
    assert Decimal(7) == [55];
  }

  /** `$-01` is read as the absent bulk string and written as `$-1`. */
  lemma PaddedNullIsLost(limits: Limits)
    ensures var input: Bytes := [36, 45, 48, 49, 13, 10];
            && ParseValue(input, 0, limits) == Complete(NullBulk, 6)
            && Encode(NullBulk) == [36, 45, 49, 13, 10] && !PlainFrame(input, 0, limits)
  {
    var input: Bytes := [36, 45, 48, 49, 13, 10];
    var text: Bytes := [45, 48, 49];
    assert input == Line(36, text) + [];
    ReadBackLine(36, text, []);
    var digits: Bytes := text[1..];
    assert digits == [48, 49] && digits[..1] == [48] && digits[..1][..0] == [];
    assert Digits([48]) == Some(0) && Digits(digits) == Some(1);
  }
}
