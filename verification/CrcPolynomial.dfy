/**
 What the checksum is: the CRC-32 of IEEE 802.3, stated with polynomials over GF(2) and without the
 shift register.  The message is read least significant bit first, its first 32 coefficients are
 complemented, it is multiplied by x^32 and divided by the generator, and the remainder is complemented.

 A polynomial is the sequence of its coefficients, highest degree first.
 */
module CrcPolynomial {
  import opened Common
  import opened Crc32

  type Poly = seq<bool>

  /** The exponents of the generator of IEEE 802.3. */
  predicate InGenerator(e: int) {
    e in {32, 26, 23, 22, 16, 12, 11, 10, 8, 7, 5, 4, 2, 1, 0}
  }

  function Generator(): (p: Poly)
    ensures |p| == 33
  {
    seq(33, i requires 0 <= i < 33 => InGenerator(32 - i))
  }

  function Zeros(n: nat): (p: Poly)
    ensures |p| == n
  {
    seq(n, _ => false)
  }

  function Ones(n: nat): (p: Poly)
    ensures |p| == n
  {
    seq(n, _ => true)
  }

  function Plus(a: Poly, b: Poly): (r: Poly)
    requires |a| == |b|
    ensures |r| == |a|
  {
    seq(|a|, i requires 0 <= i < |a| => a[i] != b[i])
  }

  /** The product with the generator, term by term. */
  function TimesGenerator(q: Poly): (r: Poly)
    ensures |r| == |q| + 32
  {
    if q == [] then Zeros(32)
    else Plus(if q[0] then Generator() + Zeros(|q| - 1) else Zeros(|q| + 32), [false] + TimesGenerator(q[1..]))
  }

  /** Division with remainder: `r` has degree below 32. */
  predicate IsDivision(p: Poly, q: Poly, r: Poly) {
    |r| == 32 && |p| == |q| + 32 && p == Plus(TimesGenerator(q), Zeros(|q|) + r)
  }

  // ----- Long division, and that there is no other -----

  /** One line of long division: the leading term is taken off. */
  function Reduced(p: Poly): (r: Poly)
    requires |p| > 32
    ensures |r| == |p| - 1
  {
    if p[0] then Plus(p, Generator() + Zeros(|p| - 33))[1..] else p[1..]
  }

  lemma ReducedAt(p: Poly, i: nat)
    requires |p| > 32 && i < |p| - 1
    ensures Reduced(p)[i] == (p[i + 1] != (p[0] && i < 32 && Generator()[i + 1]))
  {
    hide Generator;
    var g := Generator() + Zeros(|p| - 33);
    assert g[i + 1] == (i < 32 && Generator()[i + 1]);
  }

  lemma TimesAt(q: Poly, i: nat)
    requires q != [] && i < |q| + 32
    ensures TimesGenerator(q)[i] == ((q[0] && i < 33 && Generator()[i]) != (i > 0 && TimesGenerator(q[1..])[i - 1]))
  {
    hide Generator;
    var term := if q[0] then Generator() + Zeros(|q| - 1) else Zeros(|q| + 32);
    assert term[i] == (q[0] && i < 33 && Generator()[i]);
    var rest := [false] + TimesGenerator(q[1..]);
    assert rest[i] == (i > 0 && TimesGenerator(q[1..])[i - 1]);
  }

  lemma SumAt(q: Poly, r: Poly, i: nat)
    requires |r| == 32 && i < |q| + 32
    ensures Plus(TimesGenerator(q), Zeros(|q|) + r)[i] == (TimesGenerator(q)[i] != (i >= |q| && r[i - |q|]))
  {
    hide TimesGenerator;
  }

  lemma LeadsWithOne()
    ensures Generator()[0]
  {
  }

  /** The leading coefficient of the quotient is that of the dividend, and the rest divides the reduced one. */
  lemma DivisionStep(p: Poly, q: Poly, r: Poly)
    requires IsDivision(p, q, r) && q != []
    ensures p[0] == q[0] && IsDivision(Reduced(p), q[1..], r)
  {
    hide Generator, TimesGenerator, Reduced, Plus;
    LeadsWithOne();
    TimesAt(q, 0);
    SumAt(q, r, 0);
    var p' := Reduced(p);
    forall i | 0 <= i < |p'|
      ensures p'[i] == Plus(TimesGenerator(q[1..]), Zeros(|q| - 1) + r)[i]
    {
      ReducedAt(p, i);
      TimesAt(q, i + 1);
      SumAt(q, r, i + 1);
      SumAt(q[1..], r, i);
    }
  }

  lemma DivisionBack(p: Poly, q: Poly, r: Poly)
    requires |p| > 32 && IsDivision(Reduced(p), q, r)
    ensures IsDivision(p, [p[0]] + q, r)
  {
    hide Generator, TimesGenerator, Reduced, Plus;
    LeadsWithOne();
    var whole := [p[0]] + q;
    assert whole[1..] == q;
    forall i | 0 <= i < |p|
      ensures p[i] == Plus(TimesGenerator(whole), Zeros(|whole|) + r)[i]
    {
      TimesAt(whole, i);
      SumAt(whole, r, i);
      if i > 0 {
        ReducedAt(p, i - 1);
        SumAt(q, r, i - 1);
      }
    }
  }

  lemma NoTerms(r: Poly)
    requires |r| == 32
    ensures Plus(TimesGenerator([]), Zeros(0) + r) == r
  {
    assert Zeros(0) + r == r;
  }

  lemma {:induction false} DivisionUnique(p: Poly, q: Poly, r: Poly, q': Poly, r': Poly)
    requires IsDivision(p, q, r) && IsDivision(p, q', r')
    ensures q == q' && r == r'
    decreases |q|
  {
    hide TimesGenerator, Plus;
    if q == [] {
      NoTerms(r);
      NoTerms(r');
    } else {
      DivisionStep(p, q, r);
      DivisionStep(p, q', r');
      DivisionUnique(Reduced(p), q[1..], r, q'[1..], r');
      assert q == [q[0]] + q[1..] && q' == [q'[0]] + q'[1..];
    }
  }

  function Remainder(p: Poly): (r: Poly)
    requires |p| >= 32
    ensures |r| == 32
    decreases |p|
  {
    if |p| == 32 then p else Remainder(Reduced(p))
  }

  function Quotient(p: Poly): (q: Poly)
    requires |p| >= 32
    ensures |q| == |p| - 32
    decreases |p|
  {
    if |p| == 32 then [] else [p[0]] + Quotient(Reduced(p))
  }

  lemma {:induction false} LongDivision(p: Poly)
    requires |p| >= 32
    ensures IsDivision(p, Quotient(p), Remainder(p))
    decreases |p|
  {
    hide TimesGenerator, Plus, Reduced;
    if |p| == 32 {
      NoTerms(p);
    } else {
      LongDivision(Reduced(p));
      DivisionBack(p, Quotient(Reduced(p)), Remainder(Reduced(p)));
    }
  }

  // ----- The generator is the constant of the source -----

  lemma LowBit(high: nat, b: bool, n: nat)
    requires n > 0
    ensures LowBits(2 * high + (if b then 1 else 0), n) == [b] + LowBits(high, n - 1)
  {
    hide LowBits;
    LowBitIs(2 * high + (if b then 1 else 0), n);
  }

  lemma LowBitIs(v: nat, n: nat)
    requires n > 0
    ensures LowBits(v, n) == [v % 2 == 1] + LowBits(v / 2, n - 1)
  {
  }

  function One(b: bool): nat {
    if b then 1 else 0
  }

  lemma LowNibble(high: nat, b0: bool, b1: bool, b2: bool, b3: bool, n: nat)
    requires n >= 4
    ensures LowBits(16 * high + One(b0) + 2 * One(b1) + 4 * One(b2) + 8 * One(b3), n) ==
            [b0, b1, b2, b3] + LowBits(high, n - 4)
  {
    hide LowBits;
    LowBit(high, b3, n - 3);
    LowBit(2 * high + One(b3), b2, n - 2);
    LowBit(4 * high + One(b2) + 2 * One(b3), b1, n - 1);
    LowBit(8 * high + One(b1) + 2 * One(b2) + 4 * One(b3), b0, n);
    var tail := LowBits(high, n - 4);
    assert [b0] + ([b1] + ([b2] + ([b3] + tail))) == [b0, b1, b2, b3] + tail;
  }

  /** The lowest bit of the constant is the coefficient of x^31, and x^32 goes without saying. */
  lemma PolyIsGenerator()
    ensures Generator() == [true] + POLY
  {
    hide LowBits;
    var n := |POLY|;
    LowNibble(0x0EDB_8832, false, false, false, false, n);
    LowNibble(0x00ED_B883, false, true, false, false, n - 4);
    LowNibble(0x000E_DB88, true, true, false, false, n - 8);
    LowNibble(0x0000_EDB8, false, false, false, true, n - 12);
    LowNibble(0x0000_0EDB, false, false, false, true, n - 16);
    LowNibble(0x0000_00ED, true, true, false, true, n - 20);
    LowNibble(0x0000_000E, true, false, true, true, n - 24);
    LowNibble(0x0000_0000, false, true, true, true, n - 28);
    assert LowBits(0, n - 32) == [] by { NoBits(); }
  }

  lemma NoBits()
    ensures LowBits(0, 0) == []
  {
  }

  // ----- The register computes the remainder -----

  /** The polynomial that the register stands before: the bits to come, with the register added at the front. */
  function Ahead(crc: Word, bits: seq<bool>): (p: Poly)
    ensures |p| == |bits| + 32
  {
    Plus(bits + Zeros(32), crc + Zeros(|bits|))
  }

  lemma ShiftReduces(crc: Word, bits: seq<bool>)
    requires bits != []
    ensures Reduced(Ahead(crc, bits)) == Ahead(ShiftOne(Xor(crc, Pad(bits[..1]))), bits[1..])
  {
    hide LowBits;
    PolyIsGenerator();
    var p := Ahead(crc, bits);
    var x := Xor(crc, Pad(bits[..1]));
    var next := ShiftOne(x);
    assert x[0] == p[0];
    assert forall i :: 0 <= i < 31 ==> next[i] == (crc[i + 1] != (p[0] && POLY[i]));
    assert next[31] == (p[0] && POLY[31]);
    var n := |bits| - 1;
    assert Generator() + Zeros(|p| - 33) == [true] + POLY + Zeros(n);
    forall i | 0 <= i < n + 32
      ensures Reduced(p)[i] == Ahead(next, bits[1..])[i]
    {
      assert (bits + Zeros(32))[i + 1] == (bits[1..] + Zeros(32))[i];
      assert (crc + Zeros(|bits|))[i + 1] == if i < 31 then crc[i + 1] else false;
      assert (next + Zeros(n))[i] == if i < 32 then next[i] else false;
      assert ([true] + POLY + Zeros(n))[i + 1] == if i < 32 then POLY[i] else false;
    }
  }

  lemma {:induction false} DivideIsRemainder(crc: Word, bits: seq<bool>)
    ensures Divide(crc, bits) == Remainder(Ahead(crc, bits))
    decreases |bits|
  {
    if bits == [] {
      assert forall i :: 0 <= i < 32 ==> Ahead(crc, bits)[i] == crc[i];
    } else {
      ShiftReduces(crc, bits);
      DivideIsRemainder(ShiftOne(Xor(crc, Pad(bits[..1]))), bits[1..]);
    }
  }

  // ----- The checksum -----

  function Complement(p: Poly): (r: Poly)
    ensures |r| == |p|
  {
    seq(|p|, i requires 0 <= i < |p| => !p[i])
  }

  /** The message times x^32, its first 32 coefficients complemented. */
  function Dividend(data: Bytes): (p: Poly)
    ensures |p| == 8 * |data| + 32
  {
    Plus(Bits(data) + Zeros(32), Ones(32) + Zeros(8 * |data|))
  }

  /**
   The checksum is the complement of the remainder that the generator of IEEE 802.3 leaves, for every
   message and for the one division there is.
   */
  lemma ChecksumIsRemainder(data: Bytes, q: Poly, r: Poly)
    requires IsDivision(Dividend(data), q, r)
    ensures Checksum(data) == Value(Complement(r))
  {
    hide Bits, Divide, Remainder, Quotient, TimesGenerator, LowBits, Value;
    var start := Not(ZERO);
    assert start + Zeros(8 * |data|) == Ones(32) + Zeros(8 * |data|);
    assert Ahead(start, Bits(data)) == Dividend(data);
    DivideIsRemainder(start, Bits(data));
    LongDivision(Dividend(data));
    DivisionUnique(Dividend(data), q, r, Quotient(Dividend(data)), Remainder(Dividend(data)));
    assert Not(Divide(start, Bits(data))) == Complement(r);
  }

  // ----- Bits and numbers -----

  /** Bit `j` of a number. */
  predicate Bit(b: nat, j: nat)
    decreases j
  {
    if j == 0 then b % 2 == 1 else Bit(b / 2, j - 1)
  }

  lemma {:induction false} LowBitsAre(b: nat, n: nat, j: nat)
    requires j < n
    ensures LowBits(b, n)[j] == Bit(b, j)
    decreases n
  {
    if j > 0 {
      LowBitsAre(b / 2, n - 1, j - 1);
    }
  }

  /** The message is read octet by octet, the least significant bit first. */
  lemma {:induction false} BitsAre(data: Bytes, i: nat, j: nat)
    requires i < |data| && j < 8
    ensures Bits(data)[8 * i + j] == Bit(data[i], j)
    decreases i
  {
    LowBitsAre(data[0], 8, j);
    if i > 0 {
      BitsAre(data[1..], i - 1, j);
      assert Bits(data)[8 * i + j] == Bits(data[1..])[8 * (i - 1) + j];
    }
  }

  /** Bit `j` of the number is element `j` of the sequence it is made of. */
  lemma ValueBits(bits: seq<bool>, j: nat)
    requires j < |bits|
    ensures Bit(Value(bits), j) == bits[j]
  {
    LowBitsOfValue(bits);
    LowBitsAre(Value(bits), |bits|, j);
  }
}
