/**
 RESP2 values and their encoder (src/protocol/encoder.cpp).  An absent bulk string or array is a
 constructor of its own.
 */
module Resp {
  import opened Common

  datatype RespValue =
    | Simple(text: Bytes)
    | Error(message: Bytes)
    | Integer(number: int64)
    | Bulk(data: Bytes)
    | NullBulk
    | Array(items: seq<RespValue>)
    | NullArray

  const CR: byte := 13
  const LF: byte := 10
  const MINUS: byte := 45
  const CRLF: Bytes := [13, 10]

  // ----- Decimal numbers -----

  function Digit(d: int): byte
    requires 0 <= d < 10
  {
    48 + d
  }

  function Decimal(n: nat): (r: Bytes)
    ensures |r| > 0
  {
    if n < 10 then [Digit(n)] else Decimal(n / 10) + [Digit(n % 10)]
  }

  function Number(v: int64): Bytes {
    if v < 0 then [MINUS] + Decimal(-(v as int)) else Decimal(v)
  }

  // ----- Encoding -----

  predicate IsLine(s: Bytes) {
    CR !in s && LF !in s
  }

  function Line(prefix: byte, body: Bytes): Bytes {
    [prefix] + body + CRLF
  }

  function Encode(v: RespValue): Bytes
    decreases v
  {
    match v
    case Simple(text) => Line(43, text)
    case Error(message) => Line(45, message)
    case Integer(number) => Line(58, Number(number))
    case Bulk(data) => Line(36, Decimal(|data|)) + data + CRLF
    case NullBulk => Line(36, [MINUS, 49])
    case Array(items) => Line(42, Decimal(|items|)) + EncodeAll(items)
    case NullArray => Line(42, [MINUS, 49])
  }

  function EncodeAll(items: seq<RespValue>): Bytes
    decreases items
  {
    if items == [] then [] else Encode(items[0]) + EncodeAll(items[1..])
  }

  /** The encoder throws on a line string that contains CR or LF. */
  predicate Encodable(v: RespValue)
    decreases v
  {
    match v
    case Simple(text) => IsLine(text)
    case Error(message) => IsLine(message)
    case Array(items) => forall i :: 0 <= i < |items| ==> Encodable(items[i])
    case _ => true
  }

  lemma {:induction false} EncodeAllAppend(items: seq<RespValue>, v: RespValue)
    ensures EncodeAll(items + [v]) == EncodeAll(items) + Encode(v)
    decreases |items|
  {
    if items == [] {
      assert items + [v] == [v] && EncodeAll([v]) == Encode(v) + [] == Encode(v);
    } else {
      assert (items + [v])[1..] == items[1..] + [v];
      EncodeAllAppend(items[1..], v);
    }
  }

  /** `append_encoded`: `None` stands for the exception. */
  method AppendEncoded(v: RespValue, output: Bytes) returns (r: Option<Bytes>)
    ensures r == if Encodable(v) then Some(output + Encode(v)) else None
    decreases v, 1
  {
    hide Decimal, Number;
    match v {
      case Simple(text) =>
        if !IsLine(text) {
          return None;
        }
        r := Some(output + [43] + text + CRLF);
        assert r.value == output + Encode(v);
      case Error(message) =>
        if !IsLine(message) {
          return None;
        }
        r := Some(output + [45] + message + CRLF);
        assert r.value == output + Encode(v);
      case Integer(number) =>
        r := Some(output + [58] + Number(number) + CRLF);
        assert r.value == output + Encode(v);
      case Bulk(data) =>
        r := Some(output + [36] + Decimal(|data|) + CRLF + data + CRLF);
        assert r.value == output + Encode(v);
      case NullBulk =>
        r := Some(output + [36, MINUS, 49, CR, LF]);
        assert r.value == output + Encode(v);
      case Array(items) =>
        var head := output + [42] + Decimal(|items|) + CRLF;
        assert head == output + Line(42, Decimal(|items|));
        r := AppendItems(items, head);
        assert Encodable(v) ==> r.value == output + Encode(v);
      case NullArray =>
        r := Some(output + [42, MINUS, 49, CR, LF]);
        assert r.value == output + Encode(v);
    }
  }

  /** The element loop of an array. */
  method AppendItems(items: seq<RespValue>, output: Bytes) returns (r: Option<Bytes>)
    ensures r == if forall i :: 0 <= i < |items| ==> Encodable(items[i]) then Some(output + EncodeAll(items)) else None
    decreases items, 0
  {
    hide Encode;
    var out := output;
    for i := 0 to |items|
      invariant out == output + EncodeAll(items[..i])
      invariant forall j :: 0 <= j < i ==> Encodable(items[j])
    {
      var item := AppendEncoded(items[i], out);
      if item.None? {
        return None;
      }
      EncodeAllAppend(items[..i], items[i]);
      assert items[..i + 1] == items[..i] + [items[i]];
      out := item.value;
    }
    assert items[..|items|] == items;
    r := Some(out);
  }
}
