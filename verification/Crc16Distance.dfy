/** The distance of the block code: up to 32767 bits, no three flipped bits go unnoticed.
    Everything rests on x having order 32767 modulo the generator. */
module Crc16Distance {
  import opened Gf2
  import opened Crc16
  import opened Arithmetic

  // ----- Powers of x -----

  /** x^n modulo the generator. */
  function X(n: nat): bv16 {
    if n == 0 then 1 else Shift(X(n - 1))
  }

  function Twice(r: Bits): (s: Bits)
    requires |r| == 16
    ensures |s| == 16
  {
    Clock(Clock(r, false, GENERATOR), false, GENERATOR)
  }

  lemma TwiceLinear(a: Bits, b: Bits)
    requires |a| == |b| == 16
    ensures Twice(Xor(a, b)) == Xor(Twice(a), Twice(b))
  {
    ClockLinear(a, b, false, false, GENERATOR);
    ClockLinear(Clock(a, false, GENERATOR), Clock(b, false, GENERATOR), false, false, GENERATOR);
  }

  lemma XBits(n: nat)
    ensures Bits16(X(n + 1)) == Clock(Bits16(X(n)), false, GENERATOR)
    ensures Bits16(X(n + 2)) == Twice(Bits16(X(n)))
  {
    ShiftIsClock(X(n));
    ShiftIsClock(X(n + 1));
  }

  /** The square of the monomial of bit i; counted from the top, bit i stands for x^(15 - i). */
  function Square(i: nat): bv16
    requires i < 16
  {
    X(30 - 2 * i)
  }

  lemma TwiceSquare(i: nat)
    requires 0 < i < 16
    ensures Twice(Bits16(Square(i))) == Bits16(Square(i - 1))
  {
    XBits(30 - 2 * i);
  }

  // ----- Squaring is linear -----

  function Term(t: bool, i: nat): (s: Bits)
    requires i < 16
    ensures |s| == 16
  {
    if t then Bits16(Square(i)) else Zeros(16)
  }

  /** The square of a polynomial, over its first k coefficients. */
  function Sq(r: Bits, k: nat): (s: Bits)
    requires k <= |r| == 16
    ensures |s| == 16
  {
    if k == 0 then Zeros(16) else Xor(Sq(r, k - 1), Term(r[k - 1], k - 1))
  }

  lemma XorSwap(a: Bits, b: Bits, c: Bits, d: Bits)
    requires |a| == |b| == |c| == |d|
    ensures Xor(Xor(a, b), Xor(c, d)) == Xor(Xor(a, c), Xor(b, d))
  {
  }

  lemma TermLinear(s: bool, t: bool, i: nat)
    requires i < 16
    ensures Term(s != t, i) == Xor(Term(s, i), Term(t, i))
  {
  }

  lemma {:induction false} SqLinear(a: Bits, b: Bits, k: nat)
    requires k <= |a| == |b| == 16
    ensures Sq(Xor(a, b), k) == Xor(Sq(a, k), Sq(b, k))
  {
    if k > 0 {
      SqLinear(a, b, k - 1);
      TermLinear(a[k - 1], b[k - 1], k - 1);
      XorSwap(Sq(a, k - 1), Sq(b, k - 1), Term(a[k - 1], k - 1), Term(b[k - 1], k - 1));
    } else {
      assert Xor(Zeros(16), Zeros(16)) == Zeros(16);
    }
  }

  function Shifted(r: Bits): (s: Bits)
    requires |r| == 16
    ensures |s| == 16
  {
    r[1..] + [false]
  }

  /** What the top coefficient contributes to x^2 times a square. */
  function Carry(t: bool): (s: Bits)
    ensures |s| == 16
  {
    if t then Twice(Bits16(Square(0))) else Zeros(16)
  }

  lemma TwiceTerm(t: bool, i: nat)
    requires 0 < i < 16
    ensures Twice(Term(t, i)) == Term(t, i - 1)
  {
    TwiceSquare(i);
    TwiceNothing();
  }

  lemma XorTail(a: Bits, c: Bits, b: Bits)
    requires |a| == |b| == |c|
    ensures Xor(Xor(a, c), b) == Xor(Xor(a, b), c)
  {
  }

  lemma TwiceSqStep(r: Bits, k: nat)
    requires |r| == 16 && 0 < k <= 15
    requires Twice(Sq(r, k)) == Xor(Sq(Shifted(r), k - 1), Carry(r[0]))
    ensures Twice(Sq(r, k + 1)) == Xor(Sq(Shifted(r), k), Carry(r[0]))
  {
    TwiceLinear(Sq(r, k), Term(r[k], k));
    TwiceTerm(r[k], k);
    XorTail(Sq(Shifted(r), k - 1), Carry(r[0]), Term(r[k], k - 1));
    assert Shifted(r)[k - 1] == r[k];
  }

  lemma TwiceSqFirst(r: Bits)
    requires |r| == 16
    ensures Twice(Sq(r, 1)) == Xor(Sq(Shifted(r), 0), Carry(r[0]))
  {
    TwiceLinear(Zeros(16), Term(r[0], 0));
    TwiceNothing();
    CarryIs(r[0]);
  }

  lemma TwiceNothing()
    ensures Twice(Zeros(16)) == Zeros(16)
  {
  }

  lemma CarryIs(t: bool)
    ensures Carry(t) == Twice(Term(t, 0))
  {
    TwiceNothing();
  }

  lemma {:induction false} TwiceSq(r: Bits, k: nat)
    requires |r| == 16 && k <= 15
    ensures Twice(Sq(r, k + 1)) == Xor(Sq(Shifted(r), k), Carry(r[0]))
  {
    if k == 0 {
      TwiceSqFirst(r);
    } else {
      TwiceSq(r, k - 1);
      TwiceSqStep(r, k);
    }
  }

  lemma ClockParts(r: Bits)
    requires |r| == 16
    ensures Clock(r, false, GENERATOR) == Xor(Shifted(r), if r[0] then GENERATOR else Zeros(16))
  {
  }

  // ----- The same on machine words -----

  function Plus(s: bv16, c: bv16, k: bv16, v: bv16): bv16 {
    if Has(c, k) then s ^ v else s
  }

  function SquareTo(c: bv16, k: nat): bv16
    requires k <= 16
  {
    if k == 0 then 0 else Plus(SquareTo(c, k - 1), c, Mask(k - 1), Square(k - 1))
  }

  lemma Bits16Xor(a: bv16, b: bv16, z: bv16)
    requires z == a ^ b
    ensures Bits16(z) == Xor(Bits16(a), Bits16(b))
  {
    forall i | 0 <= i < 16
      ensures Bits16(z)[i] == Xor(Bits16(a), Bits16(b))[i]
    {
      XorBit(a, b, z, i);
    }
  }

  lemma ZeroBits()
    ensures Bits16(0) == Zeros(16)
  {
  }

  lemma XorNothing(a: Bits)
    requires |a| == 16
    ensures Xor(a, Zeros(16)) == a
  {
  }

  lemma PlusBits(s: bv16, c: bv16, k: nat, v: bv16, z: bv16)
    requires k < 16 && z == Plus(s, c, Mask(k), v)
    ensures Bits16(z) == Xor(Bits16(s), if Bit(c, k) then Bits16(v) else Zeros(16))
  {
    if Bit(c, k) {
      Bits16Xor(s, v, z);
    } else {
      XorNothing(Bits16(s));
    }
  }

  lemma {:induction false} SquareToBits(c: bv16, k: nat)
    requires k <= 16
    ensures Bits16(SquareTo(c, k)) == Sq(Bits16(c), k)
  {
    if k > 0 {
      SquareToBits(c, k - 1);
      PlusBits(SquareTo(c, k - 1), c, k - 1, Square(k - 1), SquareTo(c, k));
    } else {
      ZeroBits();
    }
  }

  // ----- Evaluation -----

  lemma PowersTo30()
    ensures X(0) == 0x0001
    ensures X(2) == 0x0004
    ensures X(4) == 0x0010
    ensures X(6) == 0x0040
    ensures X(8) == 0x0100
    ensures X(10) == 0x0400
    ensures X(12) == 0x1000
    ensures X(14) == 0x4000
    ensures X(16) == 0x1021
    ensures X(18) == 0x4084
    ensures X(20) == 0x1231
    ensures X(22) == 0x48C4
    ensures X(24) == 0x3331
    ensures X(26) == 0xCCC4
    ensures X(28) == 0x0373
    ensures X(30) == 0x0DCC
    ensures X(32) == 0x3730
  {
    assert X(4) == 0x0010;
    assert X(8) == 0x0100;
    assert X(12) == 0x1000;
    assert X(16) == 0x1021;
    assert X(20) == 0x1231;
    assert X(24) == 0x3331;
    assert X(28) == 0x0373;
    assert X(32) == 0x3730;
  }

  /** The square of a word, with masks and squares spelled out. */
  function WordSquare(c: bv16): bv16 {
    var s1 := Plus(0, c, 0x8000, 0x0DCC);
    var s2 := Plus(s1, c, 0x4000, 0x0373);
    var s3 := Plus(s2, c, 0x2000, 0xCCC4);
    var s4 := Plus(s3, c, 0x1000, 0x3331);
    var s5 := Plus(s4, c, 0x0800, 0x48C4);
    var s6 := Plus(s5, c, 0x0400, 0x1231);
    var s7 := Plus(s6, c, 0x0200, 0x4084);
    var s8 := Plus(s7, c, 0x0100, 0x1021);
    var s9 := Plus(s8, c, 0x0080, 0x4000);
    var s10 := Plus(s9, c, 0x0040, 0x1000);
    var s11 := Plus(s10, c, 0x0020, 0x0400);
    var s12 := Plus(s11, c, 0x0010, 0x0100);
    var s13 := Plus(s12, c, 0x0008, 0x0040);
    var s14 := Plus(s13, c, 0x0004, 0x0010);
    var s15 := Plus(s14, c, 0x0002, 0x0004);
    var s16 := Plus(s15, c, 0x0001, 0x0001);
    s16
  }

  lemma WordSquareIs(c: bv16)
    ensures WordSquare(c) == SquareTo(c, 16)
  {
    MaskValues();
    PowersTo30();
    assert SquareTo(c, 1) == Plus(SquareTo(c, 0), c, 0x8000, 0x0DCC);
    assert SquareTo(c, 2) == Plus(SquareTo(c, 1), c, 0x4000, 0x0373);
    assert SquareTo(c, 3) == Plus(SquareTo(c, 2), c, 0x2000, 0xCCC4);
    assert SquareTo(c, 4) == Plus(SquareTo(c, 3), c, 0x1000, 0x3331);
    assert SquareTo(c, 5) == Plus(SquareTo(c, 4), c, 0x0800, 0x48C4);
    assert SquareTo(c, 6) == Plus(SquareTo(c, 5), c, 0x0400, 0x1231);
    assert SquareTo(c, 7) == Plus(SquareTo(c, 6), c, 0x0200, 0x4084);
    assert SquareTo(c, 8) == Plus(SquareTo(c, 7), c, 0x0100, 0x1021);
    assert SquareTo(c, 9) == Plus(SquareTo(c, 8), c, 0x0080, 0x4000);
    assert SquareTo(c, 10) == Plus(SquareTo(c, 9), c, 0x0040, 0x1000);
    assert SquareTo(c, 11) == Plus(SquareTo(c, 10), c, 0x0020, 0x0400);
    assert SquareTo(c, 12) == Plus(SquareTo(c, 11), c, 0x0010, 0x0100);
    assert SquareTo(c, 13) == Plus(SquareTo(c, 12), c, 0x0008, 0x0040);
    assert SquareTo(c, 14) == Plus(SquareTo(c, 13), c, 0x0004, 0x0010);
    assert SquareTo(c, 15) == Plus(SquareTo(c, 14), c, 0x0002, 0x0004);
    assert SquareTo(c, 16) == Plus(SquareTo(c, 15), c, 0x0001, 0x0001);
  }

  // ----- Doubling -----

  lemma {:induction false} SqZeros(k: nat)
    requires k <= 16
    ensures Sq(Zeros(16), k) == Zeros(16)
  {
    if k > 0 {
      SqZeros(k - 1);
      XorNothing(Zeros(16));
    }
  }

  lemma GeneratorSquared()
    ensures Sq(GENERATOR, 16) == Carry(true)
  {
    PowersTo30();
    SquareToBits(0x1021, 16);
    WordSquareIs(0x1021);
    assert WordSquare(0x1021) == 0x3730;
    XBits(30);
  }

  lemma CarrySquared(t: bool)
    ensures Sq(if t then GENERATOR else Zeros(16), 16) == Carry(t)
  {
    GeneratorSquared();
    SqZeros(16);
  }

  /** Squaring carries multiplication by x over to multiplication by x^2. */
  lemma SquareClock(r: Bits)
    requires |r| == 16
    ensures Sq(Clock(r, false, GENERATOR), 16) == Twice(Sq(r, 16))
  {
    var low := if r[0] then GENERATOR else Zeros(16);
    ClockParts(r);
    SqLinear(Shifted(r), low, 16);
    XorNothing(Sq(Shifted(r), 15));
    assert Sq(Shifted(r), 16) == Sq(Shifted(r), 15);
    CarrySquared(r[0]);
    TwiceSq(r, 15);
  }

  lemma SquareOfOne()
    ensures Sq(Bits16(X(0)), 16) == Bits16(X(0))
  {
    SquareToBits(1, 16);
    WordSquareIs(1);
    assert WordSquare(1) == 1;
  }

  lemma SquareStep(n: nat, m: nat)
    requires Sq(Bits16(X(n)), 16) == Bits16(X(m))
    ensures Sq(Bits16(X(n + 1)), 16) == Bits16(X(m + 2))
  {
    SquareClock(Bits16(X(n)));
    XBits(n);
    XBits(m);
  }

  lemma {:induction false} SquareOfPower(n: nat)
    ensures Sq(Bits16(X(n)), 16) == Bits16(X(2 * n))
  {
    if n == 0 {
      SquareOfOne();
    } else {
      SquareOfPower(n - 1);
      SquareStep(n - 1, 2 * (n - 1));
    }
  }

  lemma Doubling(n: nat, c: bv16)
    requires X(n) == c
    ensures X(2 * n) == WordSquare(c) && X(2 * n + 1) == Shift(WordSquare(c))
  {
    SquareOfPower(n);
    SquareToBits(c, 16);
    WordSquareIs(c);
    Bits16Injective(X(2 * n), WordSquare(c));
  }

  // ----- The order of x -----

  lemma At217()
    ensures X(217) == 0x48E3
  {
    PowersTo30();
    assert X(27) == Shift(X(26)) == 0x89A9;
    Doubling(27, 0x89A9);
    assert X(54) == WordSquare(0x89A9) == 0x1168;
    Doubling(54, 0x1168);
    assert X(108) == WordSquare(0x1168) == 0x3750;
    Doubling(108, 0x3750);
    assert X(217) == Shift(WordSquare(0x3750)) == 0x48E3;
  }

  lemma At1057()
    ensures X(1057) == 0xF2AF
  {
    PowersTo30();
    Doubling(16, 0x1021);
    assert X(33) == Shift(WordSquare(0x1021)) == 0x6E60;
    Doubling(33, 0x6E60);
    assert X(66) == WordSquare(0x6E60) == 0xC1C6;
    Doubling(66, 0xC1C6);
    assert X(132) == WordSquare(0xC1C6) == 0x4E8A;
    Doubling(132, 0x4E8A);
    assert X(264) == WordSquare(0x4E8A) == 0x5946;
    Doubling(264, 0x5946);
    assert X(528) == WordSquare(0x5946) == 0x78B3;
    Doubling(528, 0x78B3);
    assert X(1057) == Shift(WordSquare(0x78B3)) == 0xF2AF;
  }

  lemma At4681()
    ensures X(4681) == 0x2C42
  {
    PowersTo30();
    Doubling(18, 0x4084);
    assert X(36) == WordSquare(0x4084) == 0x4363;
    Doubling(36, 0x4363);
    assert X(73) == Shift(WordSquare(0x4363)) == 0x8FA6;
    Doubling(73, 0x8FA6);
    assert X(146) == WordSquare(0x8FA6) == 0x4388;
    Doubling(146, 0x4388);
    assert X(292) == WordSquare(0x4388) == 0x1396;
    Doubling(292, 0x1396);
    assert X(585) == Shift(WordSquare(0x1396)) == 0x4500;
    Doubling(585, 0x4500);
    assert X(1170) == WordSquare(0x4500) == 0x0163;
    Doubling(1170, 0x0163);
    assert X(2340) == WordSquare(0x0163) == 0x0424;
    Doubling(2340, 0x0424);
    assert X(4681) == Shift(WordSquare(0x0424)) == 0x2C42;
  }

  lemma At32767()
    ensures X(32767) == 0x0001
  {
    PowersTo30();
    assert X(15) == Shift(X(14)) == 0x8000;
    Doubling(15, 0x8000);
    assert X(31) == Shift(WordSquare(0x8000)) == 0x1B98;
    Doubling(31, 0x1B98);
    assert X(63) == Shift(WordSquare(0x1B98)) == 0xD420;
    Doubling(63, 0xD420);
    assert X(127) == Shift(WordSquare(0xD420)) == 0x577E;
    Doubling(127, 0x577E);
    assert X(255) == Shift(WordSquare(0x577E)) == 0xCF04;
    Doubling(255, 0xCF04);
    assert X(511) == Shift(WordSquare(0xCF04)) == 0x09FE;
    Doubling(511, 0x09FE);
    assert X(1023) == Shift(WordSquare(0x09FE)) == 0x1B62;
    Doubling(1023, 0x1B62);
    assert X(2047) == Shift(WordSquare(0x1B62)) == 0x7EA8;
    Doubling(2047, 0x7EA8);
    assert X(4095) == Shift(WordSquare(0x7EA8)) == 0x554F;
    Doubling(4095, 0x554F);
    assert X(8191) == Shift(WordSquare(0x554F)) == 0x440E;
    Doubling(8191, 0x440E);
    assert X(16383) == Shift(WordSquare(0x440E)) == 0x222C;
    Doubling(16383, 0x222C);
    assert X(32767) == Shift(WordSquare(0x222C)) == 0x0001;
  }

  // ----- No shorter period -----

  predicate Period(d: nat) {
    X(d) == 1
  }

  lemma ShiftInjective(a: bv16, b: bv16)
    requires Shift(a) == Shift(b)
    ensures a == b
  {
    var d := Xor(Bits16(a), Bits16(b));
    ShiftIsClock(a);
    ShiftIsClock(b);
    ClockLinear(Bits16(a), Bits16(b), false, false, GENERATOR);
    assert Clock(d, false, GENERATOR) == Zeros(16);
    GeneratorShape();
    ClockInjective(d, GENERATOR);
    SameBits(Bits16(a), Bits16(b));
    Bits16Injective(a, b);
  }

  lemma SameBits(a: Bits, b: Bits)
    requires |a| == |b| && Xor(a, b) == Zeros(|a|)
    ensures a == b
  {
    forall i | 0 <= i < |a|
      ensures a[i] == b[i]
    {
      assert !Xor(a, b)[i];
    }
  }

  lemma {:induction false} CancelPower(a: nat, b: nat)
    requires X(a + b) == X(b)
    ensures Period(a)
  {
    if b > 0 {
      ShiftInjective(X(a + b - 1), X(b - 1));
      CancelPower(a, b - 1);
    }
  }

  lemma {:induction false} PeriodShifts(a: nat, b: nat)
    requires Period(a)
    ensures X(a + b) == X(b)
  {
    if b > 0 {
      PeriodShifts(a, b - 1);
    }
  }

  lemma {:induction false} PeriodTimes(k: nat, g: nat)
    requires Period(g)
    ensures Period(k * g)
  {
    if k > 0 {
      PeriodTimes(k - 1, g);
      PeriodShifts(g, (k - 1) * g);
      assert k * g == g + (k - 1) * g;
    }
  }

  /** Two periods have a common divisor that is a period. */
  lemma {:induction false} Euclid(a: nat, b: nat) returns (g: nat, i: nat, j: nat)
    requires b > 0 && Period(a) && Period(b)
    ensures Period(g) && a == i * g && b == j * g
    decreases b
  {
    var q, r := a / b, a % b;
    DivMod(a, b);
    PeriodTimes(q, b);
    PeriodShifts(q * b, r);
    if r == 0 {
      g, i, j := b, q, 1;
    } else {
      var k;
      g, j, k := Euclid(b, r);
      i := q * j + k;
      Combine(q, j, k, g);
    }
  }

  lemma Combine(q: nat, j: nat, k: nat, g: nat)
    ensures q * (j * g) + k * g == (q * j + k) * g
  {
  }

  lemma NoPeriod(g: nat, k: nat, n: nat)
    requires k * g == n && !Period(n)
    ensures !Period(g)
  {
    if Period(g) {
      PeriodTimes(k, g);
    }
  }

  /** Of the numbers up to k, only 7, 31 and 151 divide 32767. */
  predicate Checked(k: nat) {
    k < 2 || ((32767 % k != 0 || k == 7 || k == 31 || k == 151) && Checked(k - 1))
  }

  lemma Checked50()
    ensures Checked(50)
  {
    assert Checked(10);
    assert Checked(20);
    assert Checked(30);
    assert Checked(40);
  }

  lemma Checked90()
    ensures Checked(90)
  {
    Checked50();
    assert Checked(60);
    assert Checked(70);
    assert Checked(80);
  }

  lemma Checked130()
    ensures Checked(130)
  {
    Checked90();
    assert Checked(100);
    assert Checked(110);
    assert Checked(120);
  }

  lemma ChecksOut()
    ensures Checked(181)
  {
    Checked130();
    assert Checked(140);
    assert Checked(150);
    assert Checked(160);
    assert Checked(170);
    assert Checked(180);
  }

  lemma {:induction false} CheckedBelow(n: nat, k: nat)
    requires Checked(n) && 2 <= k <= n && 32767 % k == 0
    ensures k == 7 || k == 31 || k == 151
  {
    if k < n {
      CheckedBelow(n - 1, k);
    }
  }

  lemma SmallDivisor(k: nat, g: nat)
    requires k * g == 32767 && 2 <= k <= 181
    ensures k == 7 || k == 31 || k == 151
  {
    ChecksOut();
    MultipleIs(k, g);
    CheckedBelow(181, k);
  }

  /** No proper divisor of 32767 is a period. */
  lemma NoProperPeriod(k: nat, g: nat)
    requires k >= 2 && k * g == 32767
    ensures !Period(g)
  {
    At217();
    At1057();
    At4681();
    if k <= 181 {
      SmallDivisor(k, g);
    } else {
      OtherIsSmall(k, g);
      if g == 1 {
        NoPeriod(1, 217, 217);
      } else {
        SmallDivisor(g, k);
        if g == 7 {
          NoPeriod(7, 31, 217);
        } else if g == 31 {
          NoPeriod(31, 7, 217);
        } else {
          NoPeriod(151, 7, 1057);
        }
      }
    }
  }

  lemma OtherIsSmall(k: nat, g: nat)
    requires k > 181 && k * g == 32767
    ensures 1 <= g <= 180
  {
    assert g == 0 ==> k * g == 0;
    assert 182 * g <= k * g;
  }

  /** The order of x is exactly 32767. */
  lemma OrderIs(d: nat)
    requires 0 < d < 32767
    ensures !Period(d) && Period(32767)
  {
    At32767();
    if Period(d) {
      var g, i, j := Euclid(32767, d);
      AtLeastTwo(i, j, g, d);
      NoProperPeriod(i, g);
    }
  }

  lemma AtLeastTwo(i: nat, j: nat, g: nat, d: nat)
    requires i * g == 32767 && j * g == d && 0 < d < 32767
    ensures i >= 2
  {
    assert i == 0 ==> i * g == 0;
    assert j == 0 ==> j * g == 0;
    assert j > 0 ==> j * g >= g;
  }

  lemma PeriodIff(d: nat)
    ensures Period(d) <==> d % 32767 == 0
  {
    var q, r := d / 32767, d % 32767;
    At32767();
    PeriodTimes(q, 32767);
    PeriodShifts(q * 32767, r);
    if r > 0 {
      OrderIs(r);
    }
  }

  // ----- Errors of few bits -----

  lemma FeedZero(r: Bits, k: nat)
    requires |r| == 16 && k > 0
    ensures Feed(r, Zeros(k), GENERATOR) == Clock(Feed(r, Zeros(k - 1), GENERATOR), false, GENERATOR)
  {
    assert Zeros(k)[..k - 1] == Zeros(k - 1);
  }

  lemma {:induction false} FeedPowers(n: nat, k: nat)
    ensures Feed(Bits16(X(n)), Zeros(k), GENERATOR) == Bits16(X(n + k))
  {
    if k > 0 {
      FeedPowers(n, k - 1);
      FeedZero(Bits16(X(n)), k);
      XBits(n + k - 1);
    }
  }

  lemma FirstOneIn()
    ensures Remainder([true], GENERATOR) == Bits16(X(16)) == GENERATOR
  {
    PowersTo30();
    FeedEnds(Zeros(16), [true], GENERATOR);
    FeedNext(Zeros(16), [true], 0, GENERATOR);
    assert Clock(Zeros(16), true, GENERATOR) == GENERATOR;
  }

  lemma OneMoreIn(r: Bits)
    requires |r| == 16
    ensures Clock(r, true, GENERATOR) == Xor(Clock(r, false, GENERATOR), GENERATOR)
  {
  }

  lemma TwoOnesLeave(k: nat)
    ensures Remainder([true] + Zeros(k) + [true], GENERATOR) == Xor(Bits16(X(17 + k)), Bits16(X(16)))
  {
    var m := [true] + Zeros(k);
    FirstOneIn();
    FeedConcat(Zeros(16), [true], Zeros(k), GENERATOR);
    FeedPowers(16, k);
    assert (m + [true])[..|m|] == m;
    OneMoreIn(Bits16(X(16 + k)));
    XBits(16 + k);
  }

  lemma XorZeroIff(a: bv16, b: bv16)
    ensures Xor(Bits16(a), Bits16(b)) == Zeros(16) <==> a == b
  {
    if Xor(Bits16(a), Bits16(b)) == Zeros(16) {
      SameBits(Bits16(a), Bits16(b));
      Bits16Injective(a, b);
    }
  }

  lemma PowersMeetIff(d: nat, n: nat)
    ensures X(d + n) == X(n) <==> Period(d)
  {
    if X(d + n) == X(n) {
      CancelPower(d, n);
    } else if Period(d) {
      PeriodShifts(d, n);
    }
  }

  /** Two ones k + 1 places apart are a multiple of the generator exactly when x has that
      period. */
  lemma TwoOnesIff(k: nat)
    ensures Remainder([true] + Zeros(k) + [true], GENERATOR) == Zeros(16) <==> Period(k + 1)
  {
    TwoOnesLeave(k);
    XorZeroIff(X(17 + k), X(16));
    PowersMeetIff(k + 1, 16);
  }

  /** Two flipped bits cancel out exactly when they are a multiple of 32767 places apart. */
  lemma {:induction false} TwoBits(e: Bits) returns (i: nat, k: nat)
    requires Weight(e) == 2
    ensures i + k + 1 < |e| && e[i] && e[i + k + 1]
    ensures Remainder(e, GENERATOR) == Zeros(16) <==> (k + 1) % 32767 == 0
  {
    i := FirstOne(e);
    var rest := e[i + 1..];
    k := FirstOne(rest);
    var tail := rest[k + 1..];
    var core := [true] + Zeros(k) + [true];
    NoOnes(tail);
    TwoBitShape(e, i, k);
    GeneratorShape();
    TwoOnesIff(k);
    PeriodIff(k + 1);
    if Remainder(core, GENERATOR) == Zeros(16) {
      Invisible(i, core, |tail|);
    } else {
      Surrounded(i, core, |tail|, GENERATOR);
    }
  }

  lemma Invisible(i: nat, b: Bits, j: nat)
    requires Remainder(b, GENERATOR) == Zeros(16)
    ensures Remainder(Zeros(i) + b + Zeros(j), GENERATOR) == Zeros(16)
  {
    FeedNothing(i, GENERATOR);
    FeedNothing(j, GENERATOR);
    FeedConcat(Zeros(16), Zeros(i), b, GENERATOR);
    FeedConcat(Zeros(16), Zeros(i) + b, Zeros(j), GENERATOR);
  }

  lemma {:induction false} WeightOdd(e: Bits)
    ensures Odd(e) <==> Weight(e) % 2 == 1
    decreases |e|
  {
    if e != [] {
      WeightOdd(e[1..]);
      OddTail(e);
    }
  }

  lemma OddNoticed(e: Bits)
    requires Weight(e) == 1 || Weight(e) == 3
    ensures Remainder(e, GENERATOR) != Zeros(16)
  {
    WeightOdd(e);
    GeneratorOdd();
    OddErrorNoticed(e, GENERATOR);
  }

  lemma TwoNoticed(e: Bits)
    requires |e| <= 32767 && Weight(e) == 2
    ensures Remainder(e, GENERATOR) != Zeros(16)
  {
    var i, k := TwoBits(e);
    NotMultiple(k + 1);
  }

  lemma NotMultiple(d: nat)
    requires 0 < d < 32767
    ensures d % 32767 != 0
  {
    RemainderIs(d, 32767, 0, d);
  }

  lemma LightErrorNoticed(e: Bits)
    requires |e| <= 32767 && 1 <= Weight(e) <= 3
    ensures Remainder(e, GENERATOR) != Zeros(16)
  {
    if Weight(e) == 2 {
      TwoNoticed(e);
    } else {
      OddNoticed(e);
    }
  }

  /** In a block of up to 4093 bytes no one, two or three flipped bits go unnoticed. */
  lemma ThreeFlipsNoticed(sent: seq<byte>, got: seq<byte>, hi: byte, lo: byte, e: Bits)
    requires |sent| == |got| && |e| == 8 * |sent| + 16 <= 32767
    requires WireBits(got, hi, lo) == Xor(WireBits(sent, Trailer(Crc(sent))[0], Trailer(Crc(sent))[1]), e)
    requires 1 <= Weight(e) <= 3
    ensures !BlockOk(got, hi, lo)
  {
    LightErrorNoticed(e);
    FlippedBits(sent, got, hi, lo, e);
  }

  /** Four can: the generator itself, in the last 17 bits of a one-byte block. */
  lemma FourFlipsUnnoticed(e: Bits)
    requires e == Zeros(7) + ([true] + GENERATOR)
    ensures |e| == 8 * 1 + 16 && Weight(e) == 4
    ensures Remainder(e, GENERATOR) == Zeros(16)
  {
    FirstOneIn();
    FeedConcat(Zeros(16), [true], GENERATOR, GENERATOR);
    FeedOwnPrefix(GENERATOR, 16, GENERATOR);
    assert GENERATOR[..16] == GENERATOR && GENERATOR[16..] + Zeros(16) == Zeros(16);
    Invisible(7, [true] + GENERATOR, 0);
    assert Zeros(7) + ([true] + GENERATOR) + Zeros(0) == e;
    FourOnes(e);
  }

  lemma FourOnes(e: Bits)
    requires e == Zeros(7) + ([true] + GENERATOR)
    ensures Weight(e) == 4
  {
    var r4 := Run(4, []);
    var r3 := Run(6, r4);
    var r2 := Run(3, r3);
    GeneratorRuns();
    RunWeight(4, []);
    RunWeight(6, r4);
    RunWeight(3, r3);
    RunWeight(7, r2);
    assert e == Run(7, r2);
  }

  lemma GeneratorRuns()
    ensures GENERATOR == Run(3, Run(6, Run(4, [])))
  {
    GeneratorShape();
  }

  /** Zeros, a one, and the rest. */
  function Run(n: nat, rest: Bits): Bits {
    Zeros(n) + [true] + rest
  }

  lemma {:induction false} RunWeight(n: nat, rest: Bits)
    ensures Weight(Run(n, rest)) == 1 + Weight(rest)
  {
    if n > 0 {
      RunWeight(n - 1, rest);
      assert Run(n, rest)[1..] == Run(n - 1, rest);
    } else {
      assert Run(0, rest)[1..] == rest;
    }
  }
}
