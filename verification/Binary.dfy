/**
 The little-endian codecs of the on-disk formats (include/novacache/persistence/binary.hpp).
 Writers are the bytes they append; readers give the value and the rest of the input, or `Short`
 where the source throws because the input is truncated.
 */
module Binary {
  import opened Common

  datatype Read<+T> = Got(value: T, rest: Bytes) | Short

  // ----- Writers -----

  function U8(v: int): (r: Bytes)
    requires 0 <= v < 256
    ensures |r| == 1
  {
    [v]
  }

  function U16(v: int): (r: Bytes)
    requires 0 <= v < 0x1_0000
    ensures |r| == 2
  {
    [v % 256, v / 256]
  }

  function U32(v: int): (r: Bytes)
    requires 0 <= v < TWO32
    ensures |r| == 4
  {
    [v % 256, v / 256 % 256, v / 0x1_0000 % 256, v / 0x100_0000]
  }

  function U64(v: int): (r: Bytes)
    requires 0 <= v < TWO64
    ensures |r| == 8
  {
    U32(v % TWO32) + U32(v / TWO32)
  }

  /** Two's complement. */
  function I64(v: int): (r: Bytes)
    requires -TWO63 <= v < TWO63
    ensures |r| == 8
  {
    U64(if v < 0 then v + TWO64 else v)
  }

  /** A length-prefixed byte string; the length is cast to 32 bits. */
  function Blob(b: Bytes): (r: Bytes)
    ensures |r| == 4 + |b|
  {
    U32(|b| % TWO32) + b
  }

  // ----- Readers -----

  /** The number whose little-endian digits are `s`. */
  function LeValue(s: Bytes): (r: nat)
    decreases |s|
  {
    if s == [] then 0 else s[0] + 256 * LeValue(s[1..])
  }

  function ReadUint(input: Bytes, width: nat): (r: Read<nat>)
    ensures r.Got? <==> |input| >= width
    ensures r.Got? ==> |r.rest| == |input| - width
  {
    if |input| < width then Short else Got(LeValue(input[..width]), input[width..])
  }

  function ToSigned(v: int): int {
    if v >= TWO63 then v - TWO64 else v
  }

  function ReadI64(input: Bytes): (r: Read<int>)
    ensures r.Got? ==> |r.rest| == |input| - 8
  {
    match ReadUint(input, 8)
    case Short => Short
    case Got(v, rest) => Got(ToSigned(v), rest)
  }

  function ReadBlob(input: Bytes): (r: Read<Bytes>)
    ensures r.Got? ==> |r.rest| <= |input| - 4
  {
    match ReadUint(input, 4)
    case Short => Short
    case Got(n, rest) => if |rest| < n then Short else Got(rest[..n], rest[n..])
  }

  // ----- Digits -----

  function Pow256(n: nat): nat {
    if n == 0 then 1 else 256 * Pow256(n - 1)
  }

  lemma {:induction false} LeValueBound(s: Bytes)
    ensures LeValue(s) < Pow256(|s|)
    decreases |s|
  {
    if s != [] {
      LeValueBound(s[1..]);
    }
  }

  lemma {:induction false} LeValueAppend(s: Bytes, t: Bytes)
    ensures LeValue(s + t) == LeValue(s) + Pow256(|s|) * LeValue(t)
    decreases |s|
  {
    if s == [] {
      assert s + t == t;
    } else {
      var u := s[1..] + t;
      assert (s + t)[1..] == u;
      LeValueAppend(s[1..], t);
      assert LeValue(s + t) == s[0] + 256 * LeValue(u);
      Regroup(Pow256(|s| - 1), LeValue(t));
    }
  }

  lemma Regroup(p: nat, x: nat)
    ensures 256 * (p * x) == (256 * p) * x
  {
  }

  /** Two strings of digits of the same length with the same value are the same string. */
  lemma {:induction false} LeValueInjective(s: Bytes, t: Bytes)
    requires |s| == |t| && LeValue(s) == LeValue(t)
    ensures s == t
    decreases |s|
  {
    if s != [] {
      LeValueInjective(s[1..], t[1..]);
      assert s == [s[0]] + s[1..] && t == [t[0]] + t[1..];
    }
  }

  lemma DigitsOfTwo(s: Bytes)
    requires |s| == 2
    ensures LeValue(s) == s[0] + 256 * (s[1] as int)
  {
    assert LeValue(s[1..]) == s[1];
  }

  lemma DigitsOfFour(s: Bytes)
    requires |s| == 4
    ensures LeValue(s) == s[0] + 256 * (s[1] as int) + 0x1_0000 * (s[2] as int) + 0x100_0000 * (s[3] as int)
  {
    var t := s[1..];
    DigitsOfTwo(t[1..]);
  }

  lemma U16Value(v: int)
    requires 0 <= v < 0x1_0000
    ensures LeValue(U16(v)) == v
  {
    DigitsOfTwo(U16(v));
  }

  lemma U32Value(v: int)
    requires 0 <= v < TWO32
    ensures LeValue(U32(v)) == v
  {
    DigitsOfFour(U32(v));
    var a := v / 256;
    var b := a / 256;
    assert v / 0x1_0000 == b && v / 0x100_0000 == b / 256;
  }

  lemma U64Value(v: int)
    requires 0 <= v < TWO64
    ensures LeValue(U64(v)) == v
  {
    var lo, hi := U32(v % TWO32), U32(v / TWO32);
    U32Value(v % TWO32);
    U32Value(v / TWO32);
    LeValueAppend(lo, hi);
    Pow256Four();
  }

  lemma Pow256Four()
    ensures Pow256(2) == 0x1_0000 && Pow256(4) == TWO32 && Pow256(8) == TWO64
  {
  }

  // ----- Reading back -----

  lemma ReadBackU8(v: int, rest: Bytes)
    requires 0 <= v < 256
    ensures ReadUint(U8(v) + rest, 1) == Got(v, rest)
  {
    var s := U8(v) + rest;
    assert s[..1] == [v] && s[1..] == rest;
    assert LeValue([v]) == v;
  }

  lemma ReadBackU16(v: int, rest: Bytes)
    requires 0 <= v < 0x1_0000
    ensures ReadUint(U16(v) + rest, 2) == Got(v, rest)
  {
    ReadBackDigits(U16(v), rest);
    U16Value(v);
  }

  lemma ReadBackU32(v: int, rest: Bytes)
    requires 0 <= v < TWO32
    ensures ReadUint(U32(v) + rest, 4) == Got(v, rest)
  {
    ReadBackDigits(U32(v), rest);
    U32Value(v);
  }

  lemma ReadBackU64(v: int, rest: Bytes)
    requires 0 <= v < TWO64
    ensures ReadUint(U64(v) + rest, 8) == Got(v, rest)
  {
    ReadBackDigits(U64(v), rest);
    U64Value(v);
  }

  lemma ReadBackDigits(digits: Bytes, rest: Bytes)
    ensures ReadUint(digits + rest, |digits|) == Got(LeValue(digits), rest)
  {
    assert (digits + rest)[..|digits|] == digits && (digits + rest)[|digits|..] == rest;
  }

  lemma ReadBackI64(v: int, rest: Bytes)
    requires -TWO63 <= v < TWO63
    ensures ReadI64(I64(v) + rest) == Got(v, rest)
  {
    ReadBackU64(if v < 0 then v + TWO64 else v, rest);
  }

  /** A byte string survives exactly when its length fits the 32-bit prefix. */
  lemma ReadBackBlob(b: Bytes, rest: Bytes)
    ensures ReadBlob(Blob(b) + rest) == Got(b, rest) <==> |b| < TWO32
  {
    var n := |b| % TWO32;
    ReadBackU32(n, b + rest);
    assert Blob(b) + rest == U32(n) + (b + rest);
    if |b| < TWO32 {
      assert (b + rest)[..n] == b && (b + rest)[n..] == rest;
    }
  }

  /** Every byte string that a reader returns is one that a writer can write. */
  lemma ReadBlobFits(input: Bytes)
    ensures ReadBlob(input).Got? ==>
              && |ReadBlob(input).value| < TWO32
              && input == Blob(ReadBlob(input).value) + ReadBlob(input).rest
  {
    if ReadBlob(input).Got? {
      WriteBackU32(input);
      SplitBlob(input, LeValue(input[..4]));
    }
  }

  lemma SplitBlob(input: Bytes, n: nat)
    requires n < TWO32 && 4 + n <= |input| && input == U32(n) + input[4..]
    ensures input == Blob(input[4..][..n]) + input[4..][n..]
  {
    var body := input[4..];
    assert body == body[..n] + body[n..];
    assert Blob(body[..n]) == U32(n) + body[..n];
  }

  /** Writing back what was read gives the bytes that were read. */
  lemma WriteBackU32(input: Bytes)
    requires |input| >= 4
    ensures LeValue(input[..4]) < TWO32 && input == U32(LeValue(input[..4])) + input[4..]
  {
    var s := input[..4];
    LeValueBound(s);
    Pow256Four();
    U32Value(LeValue(s));
    LeValueInjective(s, U32(LeValue(s)));
  }

  lemma WriteBackU16(input: Bytes)
    requires |input| >= 2
    ensures LeValue(input[..2]) < 0x1_0000 && input == U16(LeValue(input[..2])) + input[2..]
  {
    var s := input[..2];
    LeValueBound(s);
    Pow256Four();
    U16Value(LeValue(s));
    LeValueInjective(s, U16(LeValue(s)));
  }

  lemma WriteBackU64(input: Bytes)
    requires |input| >= 8
    ensures LeValue(input[..8]) < TWO64 && input == U64(LeValue(input[..8])) + input[8..]
  {
    var s := input[..8];
    LeValueBound(s);
    Pow256Four();
    U64Value(LeValue(s));
    LeValueInjective(s, U64(LeValue(s)));
  }

  /** The loop that assembles a 64-bit value octet by octet. */
  method ReadU64(input: Bytes) returns (r: Read<nat>)
    ensures r == ReadUint(input, 8)
  {
    if |input| < 8 {
      return Short;
    }
    var value, scale := 0, 1;
    for index := 0 to 8
      invariant value == LeValue(input[..index])
      invariant scale == Pow256(index)
    {
      LeValueAppend(input[..index], [input[index]]);
      assert input[..index + 1] == input[..index] + [input[index]];
      assert LeValue([input[index]]) == input[index];
      value := value + scale * (input[index] as int);
      scale := 256 * scale;
    }
    r := Got(value, input[8..]);
  }
}
