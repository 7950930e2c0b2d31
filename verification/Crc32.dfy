/**
 CRC-32 as the persistence layer computes it (src/persistence/crc32.cpp): a table of 256 words
 is built once and the checksum advances one octet at a time.  The reference is the reflected
 division that advances one bit at a time.

 A 32-bit word is the sequence of its bits, least significant first, so a right shift drops the
 head and exclusive-or works place by place.
 */
module Crc32 {
  import opened Common

  type Word = w: seq<bool> | |w| == 32 witness seq(32, _ => false)

  function Xor(a: Word, b: Word): Word {
    seq(32, i requires 0 <= i < 32 => a[i] != b[i])
  }

  function Not(a: Word): Word {
    seq(32, i requires 0 <= i < 32 => !a[i])
  }

  function ShiftRight(a: Word, n: nat): Word
    requires n <= 32
  {
    a[n..] + seq(n, _ => false)
  }

  /** A word whose low bits are `bits`. */
  function Pad(bits: seq<bool>): Word
    requires |bits| <= 32
  {
    bits + seq(32 - |bits|, _ => false)
  }

  /** The low `n` bits of `b`, least significant first. */
  function LowBits(b: nat, n: nat): (r: seq<bool>)
    ensures |r| == n
    decreases n
  {
    if n == 0 then [] else [b % 2 == 1] + LowBits(b / 2, n - 1)
  }

  function Pow2(n: nat): nat {
    if n == 0 then 1 else 2 * Pow2(n - 1)
  }

  /** The number a sequence of bits stands for. */
  function Value(bits: seq<bool>): (r: nat)
    ensures r < Pow2(|bits|)
    decreases |bits|
  {
    if bits == [] then 0 else (if bits[0] then 1 else 0) + 2 * Value(bits[1..])
  }

  /** The reflected IEEE 802.3 generator polynomial. */
  const POLY: Word := LowBits(0xEDB8_8320, 32)

  /** One step of the reflected shift register. */
  function ShiftOne(crc: Word): Word {
    if crc[0] then Xor(POLY, ShiftRight(crc, 1)) else ShiftRight(crc, 1)
  }

  function Shift(crc: Word, n: nat): Word
    decreases n
  {
    if n == 0 then crc else Shift(ShiftOne(crc), n - 1)
  }

  // ----- The bit-serial reference -----

  function Bits(data: Bytes): (r: seq<bool>)
    ensures |r| == 8 * |data|
  {
    if data == [] then [] else LowBits(data[0], 8) + Bits(data[1..])
  }

  /** Divides the message by the polynomial, one bit at a time. */
  function Divide(crc: Word, bits: seq<bool>): Word
    decreases |bits|
  {
    if bits == [] then crc else Divide(ShiftOne(Xor(crc, Pad(bits[..1]))), bits[1..])
  }

  function Update(crc: Word, data: Bytes): Word {
    Not(Divide(Not(crc), Bits(data)))
  }

  const ZERO: Word := Pad([])

  /** The checksum written after a log record and at the end of a snapshot. */
  function Checksum(data: Bytes): (r: int)
    ensures 0 <= r < TWO32
  {
    var crc := Update(ZERO, data);
    Pow2OfWidth(|crc|);
    Value(crc)
  }

  lemma {:induction false} Pow2Add(m: nat, n: nat)
    ensures Pow2(m + n) == Pow2(m) * Pow2(n)
  {
    if m > 0 {
      Pow2Add(m - 1, n);
    }
  }

  lemma Pow2OfWidth(n: nat)
    requires n == 32
    ensures Pow2(n) == TWO32 && Pow2(n - 1) == 0x8000_0000
  {
    Pow2Add(4, 4);
    Pow2Add(8, 8);
    Pow2Add(16, n - 16);
  }

  // ----- Numbers and bits -----

  lemma {:induction false} ValueOfLowBits(b: nat, n: nat)
    requires b < Pow2(n)
    ensures Value(LowBits(b, n)) == b
    decreases n
  {
    if n > 0 {
      ValueOfLowBits(b / 2, n - 1);
      assert LowBits(b, n)[1..] == LowBits(b / 2, n - 1);
    }
  }

  lemma {:induction false} LowBitsOfValue(bits: seq<bool>)
    ensures LowBits(Value(bits), |bits|) == bits
    decreases |bits|
  {
    if bits != [] {
      LowBitsOfValue(bits[1..]);
      assert bits == [bits[0]] + bits[1..];
    }
  }

  lemma {:induction false} TopBit(b: nat, n: nat)
    requires n > 0 && Pow2(n - 1) <= b < Pow2(n)
    ensures LowBits(b, n)[n - 1]
    decreases n
  {
    if n > 1 {
      TopBit(b / 2, n - 1);
    }
  }

  lemma PolyTopBit()
    ensures POLY[31]
  {
    Pow2OfWidth(|POLY|);
    TopBit(0xEDB8_8320, |POLY|);
  }

  // ----- Injectivity -----

  /** The polynomial has its top bit set, so one step loses nothing. */
  lemma ShiftOneInjective(a: Word, b: Word)
    requires ShiftOne(a) == ShiftOne(b)
    ensures a == b
  {
    hide LowBits;
    PolyTopBit();
    assert ShiftOne(a)[31] == a[0] && ShiftOne(b)[31] == b[0];
    forall i | 1 <= i < 32
      ensures a[i] == b[i]
    {
      assert ShiftOne(a)[i - 1] == ShiftOne(b)[i - 1];
    }
  }

  lemma {:induction false} ShiftInjective(a: Word, b: Word, n: nat)
    requires Shift(a, n) == Shift(b, n)
    ensures a == b
    decreases n
  {
    if n > 0 {
      ShiftInjective(ShiftOne(a), ShiftOne(b), n - 1);
      ShiftOneInjective(a, b);
    }
  }

  lemma XorCancel(s: Word, x: Word, y: Word)
    requires Xor(s, x) == Xor(s, y)
    ensures x == y
  {
    forall i | 0 <= i < 32
      ensures x[i] == y[i]
    {
      assert Xor(s, x)[i] == Xor(s, y)[i];
    }
  }

  lemma {:induction false} DivideInjective(a: Word, b: Word, bits: seq<bool>)
    requires Divide(a, bits) == Divide(b, bits)
    ensures a == b
    decreases |bits|
  {
    if bits != [] {
      var w := Pad(bits[..1]);
      DivideInjective(ShiftOne(Xor(a, w)), ShiftOne(Xor(b, w)), bits[1..]);
      ShiftOneInjective(Xor(a, w), Xor(b, w));
      assert Xor(w, a) == Xor(a, w) && Xor(w, b) == Xor(b, w);
      XorCancel(w, a, b);
    }
  }

  lemma NotInjective(a: Word, b: Word)
    requires Not(a) == Not(b)
    ensures a == b
  {
    forall i | 0 <= i < 32
      ensures a[i] == b[i]
    {
      assert Not(a)[i] == Not(b)[i];
    }
  }

  lemma NotNot(a: Word)
    ensures Not(Not(a)) == a
  {
  }

  // ----- Splitting the division -----

  lemma {:induction false} DivideSplit(crc: Word, x: seq<bool>, y: seq<bool>)
    ensures Divide(crc, x + y) == Divide(Divide(crc, x), y)
    decreases |x|
  {
    if x == [] {
      assert x + y == y;
    } else {
      assert (x + y)[1..] == x[1..] + y && (x + y)[..1] == x[..1];
      DivideSplit(ShiftOne(Xor(crc, Pad(x[..1]))), x[1..], y);
    }
  }

  lemma {:induction false} BitsSplit(a: Bytes, b: Bytes)
    ensures Bits(a + b) == Bits(a) + Bits(b)
    decreases |a|
  {
    if a == [] {
      assert a + b == b;
    } else {
      assert (a + b)[1..] == a[1..] + b;
      BitsSplit(a[1..], b);
    }
  }

  /** Checksumming in pieces is checksumming the concatenation. */
  lemma UpdateChains(crc: Word, a: Bytes, b: Bytes)
    ensures Update(Update(crc, a), b) == Update(crc, a + b)
  {
    NotNot(Divide(Not(crc), Bits(a)));
    BitsSplit(a, b);
    DivideSplit(Not(crc), Bits(a), Bits(b));
  }

  // ----- A block of at most 32 bits enters the register as one word -----

  /** Input bits that have not yet reached the low end only move down with the register. */
  lemma ShiftOneBlock(crc: Word, bits: seq<bool>)
    requires 0 < |bits| <= 32
    ensures ShiftOne(Xor(crc, Pad(bits))) == Xor(ShiftOne(Xor(crc, Pad(bits[..1]))), Pad(bits[1..]))
  {
    hide LowBits;
    var whole, first := Xor(crc, Pad(bits)), Xor(crc, Pad(bits[..1]));
    assert whole[0] == first[0];
    forall i | 0 <= i < 32
      ensures ShiftOne(whole)[i] == Xor(ShiftOne(first), Pad(bits[1..]))[i]
    {
      if i < 31 {
        assert whole[i + 1] == (first[i + 1] != Pad(bits[1..])[i]);
      }
    }
  }

  lemma {:induction false} DivideBlock(crc: Word, bits: seq<bool>)
    requires |bits| <= 32
    ensures Divide(crc, bits) == Shift(Xor(crc, Pad(bits)), |bits|)
    decreases |bits|
  {
    if bits == [] {
      assert Xor(crc, Pad([])) == crc;
    } else {
      ShiftOneBlock(crc, bits);
      DivideBlock(ShiftOne(Xor(crc, Pad(bits[..1]))), bits[1..]);
    }
  }

  // ----- Detection of burst errors -----

  /** The two bit strings agree outside a window of 32 bits that starts at bit `p`. */
  predicate DifferInBurst(x: seq<bool>, y: seq<bool>, p: nat) {
    && |x| == |y|
    && forall i :: 0 <= i < |x| && !(p <= i < p + 32) ==> x[i] == y[i]
  }

  lemma BurstChangesRemainder(crc: Word, x: seq<bool>, y: seq<bool>, p: nat)
    requires DifferInBurst(x, y, p) && x != y
    ensures Divide(crc, x) != Divide(crc, y)
  {
    if p <= |x| {
      var q := Min(p + 32, |x|);
      assert x[..p] == y[..p] && x[q..] == y[q..];
      assert x == x[..p] + x[p..q] + x[q..] && y == y[..p] + y[p..q] + y[q..];
      assert x[p..q] != y[p..q];
      DivideSplit(crc, x[..p] + x[p..q], x[q..]);
      DivideSplit(crc, x[..p], x[p..q]);
      DivideSplit(crc, y[..p] + y[p..q], y[q..]);
      DivideSplit(crc, y[..p], y[p..q]);
      if Divide(crc, x) == Divide(crc, y) {
        BlockCollision(Divide(crc, x[..p]), x[p..q], y[p..q], x[q..]);
      }
    }
  }

  lemma BlockCollision(s: Word, x: seq<bool>, y: seq<bool>, tail: seq<bool>)
    requires |x| == |y| <= 32
    requires Divide(Divide(s, x), tail) == Divide(Divide(s, y), tail)
    ensures x == y
  {
    DivideInjective(Divide(s, x), Divide(s, y), tail);
    DivideBlock(s, x);
    DivideBlock(s, y);
    ShiftInjective(Xor(s, Pad(x)), Xor(s, Pad(y)), |x|);
    XorCancel(s, Pad(x), Pad(y));
    assert x == Pad(x)[..|x|] && y == Pad(y)[..|y|];
  }

  lemma {:induction false} BitsInjective(a: Bytes, b: Bytes)
    requires |a| == |b| && Bits(a) == Bits(b)
    ensures a == b
    decreases |a|
  {
    if a != [] {
      assert Bits(a)[..8] == LowBits(a[0], 8) && Bits(b)[..8] == LowBits(b[0], 8);
      assert Bits(a)[8..] == Bits(a[1..]) && Bits(b)[8..] == Bits(b[1..]);
      assert Pow2(8) == 256 by { Pow2Add(4, 4); }
      ValueOfLowBits(a[0], 8);
      ValueOfLowBits(b[0], 8);
      BitsInjective(a[1..], b[1..]);
      assert a == [a[0]] + a[1..] && b == [b[0]] + b[1..];
    }
  }

  /** Every error burst of at most 32 bits changes the checksum. */
  lemma BurstDetected(a: Bytes, b: Bytes, p: nat)
    requires a != b && DifferInBurst(Bits(a), Bits(b), p)
    ensures Checksum(a) != Checksum(b)
  {
    if Bits(a) == Bits(b) {
      BitsInjective(a, b);
    }
    BurstChangesRemainder(Not(ZERO), Bits(a), Bits(b), p);
    if Checksum(a) == Checksum(b) {
      LowBitsOfValue(Update(ZERO, a));
      LowBitsOfValue(Update(ZERO, b));
      NotInjective(Divide(Not(ZERO), Bits(a)), Divide(Not(ZERO), Bits(b)));
    }
  }

  // ----- The table-driven implementation -----

  /** Shifting a register whose low `n` bits are zero cannot meet the polynomial. */
  lemma {:induction false} ShiftHigh(lo: Word, hi: Word, n: nat)
    requires n <= 8 && forall i :: 0 <= i < n ==> !hi[i]
    ensures Shift(Xor(lo, hi), n) == Xor(Shift(lo, n), ShiftRight(hi, n))
    decreases n
  {
    if n == 0 {
      assert ShiftRight(hi, 0) == hi;
    } else {
      var hi' := ShiftRight(hi, 1);
      assert ShiftOne(Xor(lo, hi)) == Xor(ShiftOne(lo), hi') by {
        assert Xor(lo, hi)[0] == lo[0];
        forall i | 0 <= i < 32
          ensures ShiftOne(Xor(lo, hi))[i] == Xor(ShiftOne(lo), hi')[i]
        {
        }
      }
      ShiftHigh(ShiftOne(lo), hi', n - 1);
      assert ShiftRight(hi', n - 1) == ShiftRight(hi, n);
    }
  }

  /** The low octet is looked up; the rest of the register only moves down. */
  lemma TableStep(crc: Word, b: byte)
    ensures var x := Xor(crc, Pad(LowBits(b, 8)));
            Divide(crc, LowBits(b, 8)) == Xor(Shift(Pad(x[..8]), 8), ShiftRight(crc, 8))
  {
    hide LowBits, Shift, Divide;
    var x := Xor(crc, Pad(LowBits(b, 8)));
    DivideBlock(crc, LowBits(b, 8));
    var hi := seq(8, _ => false) + x[8..];
    assert x == Xor(Pad(x[..8]), hi);
    ShiftHigh(Pad(x[..8]), hi, 8);
    assert ShiftRight(hi, 8) == ShiftRight(crc, 8);
  }

  function TableEntry(index: nat): Word {
    Shift(Pad(LowBits(index, 8)), 8)
  }

  predicate IsTable(table: seq<Word>) {
    |table| == 256 && forall i :: 0 <= i < 256 ==> table[i] == TableEntry(i)
  }

  lemma OctetIndex(bits: seq<bool>)
    requires |bits| == 8
    ensures Value(bits) < 256 && TableEntry(Value(bits)) == Shift(Pad(bits), 8)
  {
    assert Pow2(8) == 256 by { Pow2Add(4, 4); }
    LowBitsOfValue(bits);
  }

  /** The inner loop of the table: one conditional shift per bit. */
  method ShiftBits(start: Word, count: nat) returns (crc: Word)
    ensures crc == Shift(start, count)
  {
    crc := start;
    for bit := 0 to count
      invariant Shift(crc, count - bit) == Shift(start, count)
    {
      if crc[0] {
        crc := Xor(POLY, ShiftRight(crc, 1));
      } else {
        crc := ShiftRight(crc, 1);
      }
    }
  }

  method BuildEntry(index: nat) returns (crc: Word)
    ensures crc == TableEntry(index)
  {
    crc := ShiftBits(Pad(LowBits(index, 8)), 8);
  }

  method BuildTable() returns (table: array<Word>)
    ensures fresh(table) && IsTable(table[..])
  {
    hide TableEntry;
    table := new Word[256](_ => ZERO);
    for index := 0 to 256
      invariant forall i :: 0 <= i < index ==> table[i] == TableEntry(i)
    {
      var entry := BuildEntry(index);
      table[index] := entry;
    }
  }

  /** The loop over octets computes the bit-by-bit remainder. */
  method TableUpdate(start: Word, data: Bytes) returns (r: Word)
    ensures r == Update(start, data)
  {
    var crc := Not(start);
    var table := BuildTable();
    for i := 0 to |data|
      invariant Divide(crc, Bits(data[i..])) == Divide(Not(start), Bits(data))
      invariant IsTable(table[..])
    {
      ghost var before := crc;
      var x := Xor(crc, Pad(LowBits(data[i], 8)));
      OctetIndex(x[..8]);
      var index := Value(x[..8]);
      assert table[index] == table[..][index];
      crc := Xor(table[index], ShiftRight(crc, 8));
      TableStep(before, data[i]);
      assert data[i..][1..] == data[i + 1..];
      DivideSplit(before, LowBits(data[i], 8), Bits(data[i + 1..]));
    }
    r := Not(crc);
  }
}
