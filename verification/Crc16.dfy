/** CRC-16 of data blocks (section 4.5 of the SD Physical Layer specification):
    generator x^16 + x^12 + x^5 + 1, register started at zero. */
module Crc16 {
  import opened Gf2

  type byte = bv8

  // ----- Machine words as bit strings, most significant bit first -----

  predicate Has(x: bv16, k: bv16) {
    x & k != 0
  }

  predicate OneHot(k: bv16) {
    k != 0 && k & (k - 1) == 0
  }

  /** The mask of bit i, counted from the most significant one; 0 beyond the last. */
  function Mask(i: nat): bv16 {
    if i == 0 then 0x8000 else Mask(i - 1) >> 1
  }

  lemma MaskValues()
    ensures Mask(0) == 0x8000 && Mask(1) == 0x4000 && Mask(2) == 0x2000 && Mask(3) == 0x1000
    ensures Mask(4) == 0x0800 && Mask(5) == 0x0400 && Mask(6) == 0x0200 && Mask(7) == 0x0100
    ensures Mask(8) == 0x0080 && Mask(9) == 0x0040 && Mask(10) == 0x0020 && Mask(11) == 0x0010
    ensures Mask(12) == 0x0008 && Mask(13) == 0x0004 && Mask(14) == 0x0002 && Mask(15) == 0x0001
    ensures Mask(16) == 0
  {
  }

  lemma MaskOneHot(i: nat)
    requires i < 16
    ensures OneHot(Mask(i))
  {
    MaskValues();
  }

  predicate Bit(x: bv16, i: nat) {
    Has(x, Mask(i))
  }

  function Bits16(x: bv16): (s: Bits)
    ensures |s| == 16
    ensures forall i | 0 <= i < 16 :: s[i] == Bit(x, i)
  {
    seq(16, i requires 0 <= i < 16 => Bit(x, i))
  }

  lemma NoBits(x: bv16)
    requires forall i | 0 <= i < 16 :: !Bit(x, i)
    ensures x == 0
  {
    MaskValues();
    assert !Bit(x, 0) && !Bit(x, 1) && !Bit(x, 2) && !Bit(x, 3) && !Bit(x, 4) && !Bit(x, 5) && !Bit(x, 6);
    assert !Bit(x, 7) && !Bit(x, 8) && !Bit(x, 9) && !Bit(x, 10) && !Bit(x, 11) && !Bit(x, 12);
    assert !Bit(x, 13) && !Bit(x, 14) && !Bit(x, 15);
  }

  lemma Bits16Injective(x: bv16, y: bv16)
    requires Bits16(x) == Bits16(y)
    ensures x == y
  {
    var d := x ^ y;
    forall i | 0 <= i < 16
      ensures !Bit(d, i)
    {
      XorBit(x, y, d, i);
      assert Bits16(x)[i] == Bits16(y)[i];
    }
    NoBits(d);
  }

  function Widen(b: byte): bv16 { b as bv16 }

  /** The bits of a byte in the order they go over the wire. */
  function ByteBits(b: byte): (s: Bits)
    ensures |s| == 8
    ensures forall i | 0 <= i < 8 :: s[i] == Bit(Widen(b), 8 + i)
  {
    seq(8, i requires 0 <= i < 8 => Bit(Widen(b), 8 + i))
  }

  function BytesBits(s: seq<byte>): (r: Bits)
    ensures |r| == 8 * |s|
  {
    if s == [] then [] else BytesBits(s[..|s| - 1]) + ByteBits(s[|s| - 1])
  }

  /** The generator's low coefficients: x^12 + x^5 + 1. */
  const GENERATOR: Bits := Bits16(0x1021)

  lemma GeneratorShape()
    ensures |GENERATOR| == 16 && GENERATOR[15]
    ensures forall i | 0 <= i < 16 :: GENERATOR[i] <==> i in {3, 10, 15}
  {
    MaskValues();
  }

  // ----- The register -----

  lemma XorHas(x: bv16, y: bv16, z: bv16, k: bv16)
    requires OneHot(k) && z == x ^ y
    ensures Has(z, k) == (Has(x, k) != Has(y, k))
  {
  }

  lemma XorBit(x: bv16, y: bv16, z: bv16, i: nat)
    requires i < 16 && z == x ^ y
    ensures Bit(z, i) == (Bit(x, i) != Bit(y, i))
  {
    MaskOneHot(i);
    XorHas(x, y, z, Mask(i));
  }

  lemma DoubleHas(c: bv16, z: bv16, k: bv16)
    requires OneHot(k) && z == c << 1
    ensures Has(z, k) == Has(c, k >> 1)
  {
  }

  lemma DoubleBit(c: bv16, z: bv16, i: nat)
    requires i < 16 && z == c << 1
    ensures Bit(z, i) == Bit(c, i + 1)
  {
    MaskOneHot(i);
    DoubleHas(c, z, Mask(i));
  }

  /** One step of the inner loop of crc16_ccitt. */
  function Shift(c: bv16): bv16 {
    if c & 0x8000 != 0 then (c << 1) ^ 0x1021 else c << 1
  }

  lemma TopBit(c: bv16)
    ensures Bit(c, 0) <==> c & 0x8000 != 0
  {
  }

  lemma ShiftBit(c: bv16, z: bv16, g: bv16, s: bv16, i: nat)
    requires i < 16
    requires z == c << 1
    requires s == if Bit(c, 0) then z ^ g else z
    ensures Bit(s, i) == (Bit(c, i + 1) != (Bit(c, 0) && Bit(g, i)))
  {
    DoubleBit(c, z, i);
    if Bit(c, 0) {
      XorBit(z, g, s, i);
    }
  }

  lemma NoBit16(x: bv16)
    ensures !Bit(x, 16)
  {
    MaskValues();
  }

  lemma ShiftIsClock(c: bv16)
    ensures Bits16(Shift(c)) == Clock(Bits16(c), false, GENERATOR)
  {
    TopBit(c);
    var s, t := Bits16(Shift(c)), Clock(Bits16(c), false, GENERATOR);
    forall i | 0 <= i < 16
      ensures s[i] == t[i]
    {
      ShiftBit(c, c << 1, 0x1021, Shift(c), i);
      NoBit16(c);
    }
  }

  lemma ByteHas(x: bv16, z: bv16, k: bv16)
    requires z == x << 8
    ensures Has(z, k) == Has(x, k >> 8)
  {
  }

  lemma MaskDown(i: nat)
    requires i < 16
    ensures Mask(i) >> 8 == if i < 8 then Mask(i + 8) else 0
  {
    MaskValues();
  }

  lemma ByteBit(b: byte, z: bv16, i: nat)
    requires i < 16 && z == Widen(b) << 8
    ensures Bit(z, i) == (i < 8 && Bit(Widen(b), 8 + i))
  {
    ByteHas(Widen(b), z, Mask(i));
    MaskDown(i);
    assert !Has(Widen(b), 0);
  }

  lemma AddByteAtTop(c: bv16, b: byte, d: bv16)
    requires d == c ^ (Widen(b) << 8)
    ensures Bits16(d) == Xor(Bits16(c), ByteBits(b) + Zeros(8))
  {
    var s, t := Bits16(d), Xor(Bits16(c), ByteBits(b) + Zeros(8));
    forall i | 0 <= i < 16
      ensures s[i] == t[i]
    {
      XorBit(c, Widen(b) << 8, d, i);
      ByteBit(b, Widen(b) << 8, i);
    }
  }

  // ----- The CRC of a block -----

  /** The register one bit at a time: multiply by x, add the bit at the top, reduce. */
  function Register(m: Bits): (c: bv16)
    ensures Bits16(c) == Remainder(m, GENERATOR)
  {
    if m == [] then
      assert Bits16(0) == Zeros(16);
      0
    else
      var c := Register(m[..|m| - 1]);
      BitIn(c, m[|m| - 1]);
      Shift(if m[|m| - 1] then c ^ 0x8000 else c)
  }

  lemma BitIn(c: bv16, b: bool)
    ensures Bits16(Shift(if b then c ^ 0x8000 else c)) == Clock(Bits16(c), b, GENERATOR)
  {
    var d := if b then c ^ 0x8000 else c;
    forall i | 0 <= i < 16
      ensures Bits16(d)[i] == (Bits16(c)[i] != (b && i == 0))
    {
      if b {
        TopFlipped(c, d, i);
      }
    }
    ShiftIsClock(d);
    ClockTop(Bits16(c), Bits16(d), b, GENERATOR);
  }

  lemma TopFlipped(c: bv16, d: bv16, i: nat)
    requires i < 16 && d == c ^ 0x8000
    ensures Bit(d, i) == (Bit(c, i) != (i == 0))
  {
    XorBit(c, 0x8000, d, i);
    OnlyTop(i);
  }

  lemma OnlyTop(i: nat)
    requires i < 16
    ensures Bit(0x8000, i) <==> i == 0
  {
    MaskValues();
  }

  function Crc(bytes: seq<byte>): (c: bv16)
    ensures Bits16(c) == Remainder(BytesBits(bytes), GENERATOR)
  {
    Register(BytesBits(bytes))
  }

  lemma AbsorbByte(bytes: seq<byte>, n: nat)
    requires n < |bytes|
    ensures Feed(Xor(Remainder(BytesBits(bytes[..n]), GENERATOR), ByteBits(bytes[n]) + Zeros(8)), Zeros(8), GENERATOR)
         == Remainder(BytesBits(bytes[..n + 1]), GENERATOR)
  {
    var m, b := BytesBits(bytes[..n]), ByteBits(bytes[n]);
    Preload(Remainder(m, GENERATOR), b, GENERATOR);
    FeedConcat(Zeros(16), m, b, GENERATOR);
    assert bytes[..n + 1][..n] == bytes[..n];
    assert BytesBits(bytes[..n + 1]) == m + b;
  }

  method Crc16Ccitt(bytes: seq<byte>) returns (crc: bv16)
    ensures crc == Crc(bytes)
  {
    crc := 0;
    assert Bits16(0) == Zeros(16);
    for n := 0 to |bytes|
      invariant Bits16(crc) == Remainder(BytesBits(bytes[..n]), GENERATOR)
    {
      ghost var before := crc;
      crc := crc ^ ((bytes[n] as bv16) << 8);
      AddByteAtTop(before, bytes[n], crc);
      ghost var loaded := Bits16(crc);
      for k := 0 to 8
        invariant Bits16(crc) == Feed(loaded, Zeros(k), GENERATOR)
      {
        ShiftIsClock(crc);
        assert Zeros(k + 1)[..k] == Zeros(k);
        if crc & 0x8000 != 0 {
          crc := (crc << 1) ^ 0x1021;
        } else {
          crc := crc << 1;
        }
      }
      AbsorbByte(bytes, n);
    }
    assert bytes[..|bytes|] == bytes;
    Bits16Injective(crc, Crc(bytes));
  }

  // ----- What the CRC promises for a received block -----

  /** The two trailer bytes, most significant first. */
  function Trailer(c: bv16): (t: seq<byte>)
    ensures |t| == 2
  {
    [(c >> 8) as byte, (c & 0xFF) as byte]
  }

  function FromTrailer(hi: byte, lo: byte): bv16 {
    (Widen(hi) << 8) | Widen(lo)
  }

  /** The receiver's test: the two bytes read after the data are its CRC. */
  predicate BlockOk(data: seq<byte>, hi: byte, lo: byte) {
    FromTrailer(hi, lo) == Crc(data)
  }

  /** All bits of a block on the wire, data then trailer. */
  function WireBits(data: seq<byte>, hi: byte, lo: byte): (w: Bits)
    ensures |w| == 8 * |data| + 16
  {
    BytesBits(data) + Bits16(FromTrailer(hi, lo))
  }

  lemma JoinIsXor(hi: byte, lo: byte)
    ensures FromTrailer(hi, lo) == (Widen(hi) << 8) ^ Widen(lo)
  {
  }

  lemma NoHighBit(b: byte, i: nat)
    requires i < 8
    ensures !Bit(Widen(b), i)
  {
    HighMask(i);
    ByteIsLow(b, Mask(i));
  }

  lemma ByteIsLow(b: byte, k: bv16)
    requires k & 0xFF == 0
    ensures !Has(Widen(b), k)
  {
  }

  lemma HighMask(i: nat)
    requires i < 8
    ensures Mask(i) & 0xFF == 0
  {
    MaskValues();
  }

  lemma {:induction false} TrailerBits(hi: byte, lo: byte)
    ensures Bits16(FromTrailer(hi, lo)) == ByteBits(hi) + ByteBits(lo)
  {
    JoinIsXor(hi, lo);
    var s, t := Bits16(FromTrailer(hi, lo)), ByteBits(hi) + ByteBits(lo);
    forall i | 0 <= i < 16
      ensures s[i] == t[i]
    {
      XorBit(Widen(hi) << 8, Widen(lo), FromTrailer(hi, lo), i);
      ByteBit(hi, Widen(hi) << 8, i);
      if i < 8 {
        NoHighBit(lo, i);
      }
    }
  }

  /** WireBits are the bits of the bytes that travel. */
  lemma WireBitsAreBytes(data: seq<byte>, hi: byte, lo: byte)
    ensures WireBits(data, hi, lo) == BytesBits(data + [hi, lo])
  {
    TrailerBits(hi, lo);
    assert (data + [hi, lo])[..|data| + 1] == data + [hi];
    assert (data + [hi])[..|data|] == data;
    assert BytesBits(data + [hi]) == BytesBits(data) + ByteBits(hi);
  }

  /** A block followed by its CRC has CRC 0. */
  lemma CrcOfFramedBlock(data: seq<byte>)
    ensures Crc(data + Trailer(Crc(data))) == 0
  {
    var t := Trailer(Crc(data));
    TrailerRoundTrip(Crc(data));
    WireBitsAreBytes(data, t[0], t[1]);
    AppendRemainder(BytesBits(data), GENERATOR);
    assert Bits16(0) == Zeros(16);
    Bits16Injective(Crc(data + t), 0);
  }

  /** The CRC is the remainder of M(x)·x^16 by the generator, and nothing else is. */
  lemma CrcIsRemainder(bytes: seq<byte>, c: bv16)
    ensures c == Crc(bytes) <==> exists q :: IsDivision(BytesBits(bytes), q, Bits16(c), GENERATOR)
  {
    RemainderIff(BytesBits(bytes), Bits16(c), GENERATOR);
    if c == Crc(bytes) {
      assert Bits16(c) == Remainder(BytesBits(bytes), GENERATOR);
    } else if Bits16(c) == Remainder(BytesBits(bytes), GENERATOR) {
      Bits16Injective(c, Crc(bytes));
    }
  }

  lemma TrailerRoundTrip(c: bv16)
    ensures FromTrailer(Trailer(c)[0], Trailer(c)[1]) == c
  {
  }

  lemma BlockOkIff(data: seq<byte>, hi: byte, lo: byte)
    ensures BlockOk(data, hi, lo) <==> Accepts(WireBits(data, hi, lo), GENERATOR)
  {
    var w, n := WireBits(data, hi, lo), 8 * |data|;
    assert w[..n] == BytesBits(data) && w[n..] == Bits16(FromTrailer(hi, lo));
    if Bits16(FromTrailer(hi, lo)) == Bits16(Crc(data)) {
      Bits16Injective(FromTrailer(hi, lo), Crc(data));
    }
  }

  /** A block that left the sender with its CRC and arrives with some bits flipped is
      accepted exactly when the flipped bits form a multiple of the generator. In
      particular no burst of at most 16 bits and no odd number of flips gets through. */
  lemma FlippedBits(sent: seq<byte>, got: seq<byte>, hi: byte, lo: byte, e: Bits)
    requires |sent| == |got| && |e| == 8 * |sent| + 16
    requires WireBits(got, hi, lo) == Xor(WireBits(sent, Trailer(Crc(sent))[0], Trailer(Crc(sent))[1]), e)
    ensures BlockOk(got, hi, lo) <==> Remainder(e, GENERATOR) == Zeros(16)
    ensures IsBurst(e, 16) || Odd(e) ==> !BlockOk(got, hi, lo)
  {
    var t := Trailer(Crc(sent));
    TrailerRoundTrip(Crc(sent));
    BlockOkIff(sent, t[0], t[1]);
    BlockOkIff(got, hi, lo);
    GeneratorShape();
    ErrorUnnoticedIff(WireBits(sent, t[0], t[1]), e, GENERATOR);
    if IsBurst(e, 16) {
      BurstNoticed(e, GENERATOR);
    }
    if Odd(e) {
      GeneratorOdd();
      OddErrorNoticed(e, GENERATOR);
    }
  }

  /** x + 1 divides the generator. */
  lemma GeneratorOdd()
    ensures Odd(GENERATOR)
  {
    GeneratorShape();
    var g := GENERATOR;
    OddRun(g, 0, 3);
    OddRun(g, 4, 10);
    OddRun(g, 11, 15);
    assert g[..16] == g;
  }
}
