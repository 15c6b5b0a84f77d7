/** The 6-byte command frame and its CRC-7 (section 4.5 of the SD Physical Layer
    specification): generator x^7 + x^3 + 1. */
module CommandFrame {
  import opened MachineInts
  import opened Arithmetic
  import opened Commands
  import opened Gf2
  import opened Crc16

  // ----- Numbers as bit strings -----

  /** The k low bits of n, most significant first. */
  function NatBits(n: nat, k: nat): (b: Bits)
    ensures |b| == k
    decreases k
  {
    if k == 0 then [] else NatBits(n / 2, k - 1) + [n % 2 == 1]
  }

  function Value(b: Bits): nat
    decreases |b|
  {
    if b == [] then 0 else 2 * Value(b[..|b| - 1]) + (if b[|b| - 1] then 1 else 0)
  }

  lemma {:induction false} ValueOfBits(n: nat, k: nat)
    requires n < Pow2(k)
    ensures Value(NatBits(n, k)) == n
    decreases k
  {
    if k > 0 {
      ValueOfBits(n / 2, k - 1);
      assert NatBits(n, k)[..k - 1] == NatBits(n / 2, k - 1);
    }
  }

  /** A number written with low part b has the bits of b at the end. */
  lemma {:induction false} JoinBits(q: nat, k: nat, b: nat, j: nat)
    requires b < Pow2(j)
    ensures NatBits(q * Pow2(j) + b, k + j) == NatBits(q, k) + NatBits(b, j)
    decreases j
  {
    if j > 0 {
      var p, n := Pow2(j - 1), q * Pow2(j) + b;
      assert n == 2 * (q * p) + b;
      assert n / 2 == q * p + b / 2 && n % 2 == b % 2;
      JoinBits(q, k, b / 2, j - 1);
    } else {
      assert q * 1 + b == q;
    }
  }

  function Row(a: bool, b: bool, c: bool, d: bool, e: bool, f: bool, g: bool): (r: Bits)
    ensures |r| == 7
  {
    [a, b, c, d, e, f, g]
  }

  /** x^3 + 1, below the leading x^7. */
  const GENERATOR7: Bits := Row(false, false, false, true, false, false, true)

  lemma ClockRow(r: Bits, x: bool, s: Bits)
    requires |r| == |s| == 7
    requires s[0] == r[1] && s[1] == r[2] && s[2] == r[3] && s[3] == (r[4] != (r[0] != x))
    requires s[4] == r[5] && s[5] == r[6] && s[6] == (r[0] != x)
    ensures Clock(r, x, GENERATOR7) == s
  {
    forall i | 0 <= i < 7
      ensures Clock(r, x, GENERATOR7)[i] == s[i]
    {
      assert GENERATOR7[i] <==> i == 3 || i == 6;
    }
  }

  /** The seven low bits of the register; bit 7 is left out. */
  function Low7(c: bv8): (r: Bits)
    ensures |r| == 7
    ensures r[0] == (c & 0x40 != 0) && r[1] == (c & 0x20 != 0) && r[2] == (c & 0x10 != 0)
    ensures r[3] == (c & 0x08 != 0) && r[4] == (c & 0x04 != 0) && r[5] == (c & 0x02 != 0)
    ensures r[6] == (c & 0x01 != 0)
  {
    Row(c & 0x40 != 0, c & 0x20 != 0, c & 0x10 != 0, c & 0x08 != 0, c & 0x04 != 0, c & 0x02 != 0, c & 0x01 != 0)
  }

  /** One iteration of crc7_update. */
  function Step7(c: bv8, d: bv8): bv8 {
    if ((c << 1) ^ d) & 0x80 != 0 then (c << 1) ^ 0x89 else c << 1
  }

  lemma Step7Bits(c: bv8, d: bv8, s: bv8, x: bool)
    requires s == Step7(c, d) && x == (d & 0x80 != 0)
    ensures s & 0x40 != 0 <==> c & 0x20 != 0
    ensures s & 0x20 != 0 <==> c & 0x10 != 0
    ensures s & 0x10 != 0 <==> c & 0x08 != 0
    ensures s & 0x08 != 0 <==> ((c & 0x04 != 0) != ((c & 0x40 != 0) != x))
    ensures s & 0x04 != 0 <==> c & 0x02 != 0
    ensures s & 0x02 != 0 <==> c & 0x01 != 0
    ensures s & 0x01 != 0 <==> ((c & 0x40 != 0) != x)
  {
  }

  lemma Step7IsClock(c: bv8, d: bv8, s: bv8, x: bool)
    requires s == Step7(c, d) && x == (d & 0x80 != 0)
    ensures Low7(s) == Clock(Low7(c), x, GENERATOR7)
  {
    Step7Bits(c, d, s, x);
    ClockRow(Low7(c), x, Low7(s));
  }

  // ----- crc7_update -----

  function Double(d: bv8): bv8 { d << 1 }

  function Top(d: bv8): bool { d & 0x80 != 0 }

  /** The data byte after k iterations. */
  function Shifted(b: bv8, k: nat): bv8 {
    if k == 0 then b else Double(Shifted(b, k - 1))
  }

  lemma WidenHas(b: byte)
    ensures Has(Widen(b), 0x80) == (b & 0x80 != 0) && Has(Widen(b), 0x40) == (b & 0x40 != 0)
    ensures Has(Widen(b), 0x20) == (b & 0x20 != 0) && Has(Widen(b), 0x10) == (b & 0x10 != 0)
    ensures Has(Widen(b), 0x08) == (b & 0x08 != 0) && Has(Widen(b), 0x04) == (b & 0x04 != 0)
    ensures Has(Widen(b), 0x02) == (b & 0x02 != 0) && Has(Widen(b), 0x01) == (b & 0x01 != 0)
  {
  }

  predicate ByteIs(b: byte, s: Bits)
    requires |s| == 8
  {
    && s[0] == (b & 0x80 != 0) && s[1] == (b & 0x40 != 0) && s[2] == (b & 0x20 != 0) && s[3] == (b & 0x10 != 0)
    && s[4] == (b & 0x08 != 0) && s[5] == (b & 0x04 != 0) && s[6] == (b & 0x02 != 0) && s[7] == (b & 0x01 != 0)
  }

  lemma ByteBitsOf(b: byte)
    ensures ByteIs(b, ByteBits(b))
  {
    MaskValues();
    WidenHas(b);
  }

  lemma DoubledTops(b: bv8)
    ensures Top(b) == (b & 0x80 != 0)
    ensures Top(Double(b)) == (b & 0x40 != 0)
    ensures Top(Double(Double(b))) == (b & 0x20 != 0)
    ensures Top(Double(Double(Double(b)))) == (b & 0x10 != 0)
    ensures Top(Double(Double(Double(Double(b))))) == (b & 0x08 != 0)
    ensures Top(Double(Double(Double(Double(Double(b)))))) == (b & 0x04 != 0)
    ensures Top(Double(Double(Double(Double(Double(Double(b))))))) == (b & 0x02 != 0)
    ensures Top(Double(Double(Double(Double(Double(Double(Double(b)))))))) == (b & 0x01 != 0)
  {
  }

  lemma ShiftedValues(b: bv8)
    ensures Shifted(b, 1) == Double(b) && Shifted(b, 2) == Double(Shifted(b, 1)) && Shifted(b, 3) == Double(Shifted(b, 2))
    ensures Shifted(b, 4) == Double(Shifted(b, 3)) && Shifted(b, 5) == Double(Shifted(b, 4))
    ensures Shifted(b, 6) == Double(Shifted(b, 5)) && Shifted(b, 7) == Double(Shifted(b, 6))
  {
  }

  /** The bit tested in iteration k is bit k of the byte. */
  lemma {:induction false} BitTested(b: byte, k: nat)
    requires k < 8
    ensures Top(Shifted(b, k)) == ByteBits(b)[k]
  {
    ByteBitsOf(b);
    ShiftedValues(b);
    DoubledTops(b);
  }

  /** The loop body of crc7_update. */
  method Crc7Bit(crc0: bv8, data: bv8) returns (crc: bv8)
    ensures Low7(crc) == Clock(Low7(crc0), Top(data), GENERATOR7)
  {
    crc := crc0 << 1;
    if (crc ^ data) & 0x80 != 0 {
      crc := crc ^ 0x89;
    }
    Step7IsClock(crc0, data, crc, Top(data));
  }

  method Crc7Update(crc0: bv8, b: byte) returns (crc: bv8)
    ensures Low7(crc) == Feed(Low7(crc0), ByteBits(b), GENERATOR7)
  {
    crc := crc0;
    var data := b;
    ghost var bits, r := ByteBits(b), Low7(crc0);
    FeedEnds(r, bits, GENERATOR7);
    for k := 0 to 8
      invariant data == Shifted(b, k)
      invariant Low7(crc) == Feed(r, bits[..k], GENERATOR7)
    {
      BitTested(b, k);
      FeedNext(r, bits, k, GENERATOR7);
      crc := Crc7Bit(crc, data);
      data := Double(data);
    }
  }

  // ----- The frame -----

  function ToByte(n: u8): byte { n as bv8 }

  lemma ToByteMasks(n: u8)
    ensures (ToByte(n) & 0x80 != 0) == (n / 128 % 2 == 1) && (ToByte(n) & 0x40 != 0) == (n / 64 % 2 == 1)
    ensures (ToByte(n) & 0x20 != 0) == (n / 32 % 2 == 1) && (ToByte(n) & 0x10 != 0) == (n / 16 % 2 == 1)
    ensures (ToByte(n) & 0x08 != 0) == (n / 8 % 2 == 1) && (ToByte(n) & 0x04 != 0) == (n / 4 % 2 == 1)
    ensures (ToByte(n) & 0x02 != 0) == (n / 2 % 2 == 1) && (ToByte(n) & 0x01 != 0) == (n % 2 == 1)
  {
  }

  function Halved(n: nat, j: nat): nat {
    if j == 0 then n else Halved(n, j - 1) / 2
  }

  lemma {:induction false} HalvedFirst(n: nat, j: nat)
    ensures Halved(n / 2, j) == Halved(n, j + 1)
  {
    if j > 0 {
      HalvedFirst(n, j - 1);
    }
  }

  lemma {:induction false} NatBitAt(n: nat, k: nat, i: nat)
    requires i < k
    ensures NatBits(n, k)[i] == (Halved(n, k - 1 - i) % 2 == 1)
    decreases k
  {
    if i < k - 1 {
      NatBitAt(n / 2, k - 1, i);
      HalvedFirst(n, k - 2 - i);
    }
  }

  lemma {:induction false} HalvedValues(n: nat)
    ensures Halved(n, 0) == n && Halved(n, 1) == n / 2 && Halved(n, 2) == n / 4 && Halved(n, 3) == n / 8
    ensures Halved(n, 4) == n / 16 && Halved(n, 5) == n / 32 && Halved(n, 6) == n / 64 && Halved(n, 7) == n / 128
  {
    assert Halved(n, 1) == n / 2;
    assert Halved(n, 2) == n / 2 / 2 == n / 4;
    assert Halved(n, 3) == n / 4 / 2 == n / 8;
    assert Halved(n, 4) == n / 8 / 2 == n / 16;
    assert Halved(n, 5) == n / 16 / 2 == n / 32;
    assert Halved(n, 6) == n / 32 / 2 == n / 64;
    assert Halved(n, 7) == n / 64 / 2 == n / 128;
  }

  predicate NatIs(n: nat, s: Bits)
    requires |s| == 8
  {
    && s[0] == (Halved(n, 7) % 2 == 1) && s[1] == (Halved(n, 6) % 2 == 1) && s[2] == (Halved(n, 5) % 2 == 1)
    && s[3] == (Halved(n, 4) % 2 == 1) && s[4] == (Halved(n, 3) % 2 == 1) && s[5] == (Halved(n, 2) % 2 == 1)
    && s[6] == (Halved(n, 1) % 2 == 1) && s[7] == (Halved(n, 0) % 2 == 1)
  }

  lemma {:induction false} MasksAreHalves(n: u8, s: Bits)
    requires |s| == 8 && ByteIs(ToByte(n), s)
    ensures NatIs(n, s)
  {
    ToByteMasks(n);
    HalvedValues(n);
  }

  lemma {:induction false} NatBitsAre(n: nat)
    ensures NatIs(n, NatBits(n, 8))
  {
    NatBitAt(n, 8, 0);
    NatBitAt(n, 8, 1);
    NatBitAt(n, 8, 2);
    NatBitAt(n, 8, 3);
    NatBitAt(n, 8, 4);
    NatBitAt(n, 8, 5);
    NatBitAt(n, 8, 6);
    NatBitAt(n, 8, 7);
  }

  lemma {:induction false} SameNatBits(n: nat, s: Bits, t: Bits)
    requires |s| == |t| == 8 && NatIs(n, s) && NatIs(n, t)
    ensures s == t
  {
  }

  lemma {:induction false} ByteIsNat(n: u8)
    ensures ByteBits(ToByte(n)) == NatBits(n, 8)
  {
    ByteBitsOf(ToByte(n));
    MasksAreHalves(n, ByteBits(ToByte(n)));
    NatBitsAre(n);
    SameNatBits(n, ByteBits(ToByte(n)), NatBits(n, 8));
  }

  // ----- The frame on the wire -----

  /** The protected part: start bits 01, command index, argument. */
  function FrameMessage(c: Command): (m: Bits)
    ensures |m| == 40
  {
    NatBits(64 + c.cmd % 64, 8) + NatBits(c.arg, 32)
  }

  /** The five bytes before the CRC: token, then the argument most significant byte first. */
  function FrameHead(c: Command): (h: seq<byte>)
    ensures |h| == 5
  {
    [ToByte(64 + c.cmd % 64), ToByte(c.arg / 0x100_0000), ToByte(c.arg / 0x1_0000 % 256),
     ToByte(c.arg / 0x100 % 256), ToByte(c.arg % 256)]
  }

  lemma {:induction false} BytesOne(a: byte)
    ensures BytesBits([a]) == ByteBits(a)
  {
    assert [a][..0] == [];
    assert [] + ByteBits(a) == ByteBits(a);
  }

  lemma {:induction false} BytesSnoc(s: seq<byte>, a: byte)
    ensures BytesBits(s + [a]) == BytesBits(s) + ByteBits(a)
  {
    assert (s + [a])[..|s|] == s;
  }

  lemma {:induction false} JoinByte(q: nat, k: nat, b: u8, n: nat)
    requires n == q * 256 + b
    ensures NatBits(n, k + 8) == NatBits(q, k) + NatBits(b, 8)
  {
    assert Pow2(8) == 256;
    JoinBits(q, k, b, 8);
  }

  lemma {:induction false} ArgParts(arg: u32)
    ensures arg == arg / 0x100 * 256 + arg % 256
    ensures arg / 0x100 == arg / 0x1_0000 * 256 + arg / 0x100 % 256
    ensures arg / 0x1_0000 == arg / 0x100_0000 * 256 + arg / 0x1_0000 % 256
    ensures arg / 0x100_0000 < 256
  {
  }

  lemma {:induction false} ArgBits(arg: u32)
    ensures NatBits(arg, 32) ==
            NatBits(arg / 0x100_0000, 8) + NatBits(arg / 0x1_0000 % 256, 8)
            + NatBits(arg / 0x100 % 256, 8) + NatBits(arg % 256, 8)
  {
    ArgParts(arg);
    JoinByte(arg / 0x100_0000, 8, arg / 0x1_0000 % 256, arg / 0x1_0000);
    JoinByte(arg / 0x1_0000, 16, arg / 0x100 % 256, arg / 0x100);
    JoinByte(arg / 0x100, 24, arg % 256, arg);
  }

  lemma {:induction false} FiveBytes(a: byte, b: byte, c: byte, d: byte, e: byte)
    ensures BytesBits([a, b, c, d, e]) == ByteBits(a) + (ByteBits(b) + ByteBits(c) + ByteBits(d) + ByteBits(e))
  {
    BytesOne(a);
    BytesSnoc([a], b);
    BytesSnoc([a, b], c);
    BytesSnoc([a, b, c], d);
    BytesSnoc([a, b, c, d], e);
    assert [a] + [b] == [a, b] && [a, b] + [c] == [a, b, c];
    assert [a, b, c] + [d] == [a, b, c, d] && [a, b, c, d] + [e] == [a, b, c, d, e];
    Regroup(ByteBits(a), ByteBits(b), ByteBits(c), ByteBits(d), ByteBits(e));
  }

  lemma Regroup(a: Bits, b: Bits, c: Bits, d: Bits, e: Bits)
    ensures a + b + c + d + e == a + (b + c + d + e)
  {
  }

  lemma {:induction false} HeadIsMessage(c: Command)
    ensures BytesBits(FrameHead(c)) == FrameMessage(c)
  {
    var h := FrameHead(c);
    FiveBytes(h[0], h[1], h[2], h[3], h[4]);
    ByteIsNat(64 + c.cmd % 64);
    ByteIsNat(c.arg / 0x100_0000);
    ByteIsNat(c.arg / 0x1_0000 % 256);
    ByteIsNat(c.arg / 0x100 % 256);
    ByteIsNat(c.arg % 256);
    ArgBits(c.arg);
  }

  /** The register one bit at a time, message bit first. */
  function Register7(m: Bits): (c: bv8)
    ensures Low7(c) == Remainder(m, GENERATOR7)
    decreases |m|
  {
    if m == [] then
      assert Low7(0) == Zeros(7);
      0
    else
      var c, d := Register7(m[..|m| - 1]), if m[|m| - 1] then 0x80 else 0;
      Step7IsClock(c, d, Step7(c, d), m[|m| - 1]);
      Step7(c, d)
  }

  /** CRC in the upper seven bits, end bit 1. */
  function CrcByte(m: Bits): byte {
    Closed(Register7(m))
  }

  function Closed(c: bv8): bv8 { (c << 1) | 1 }

  /** Bit 7 of the register never reaches the frame. */
  lemma {:induction false} ClosedIgnoresTop(a: bv8, b: bv8)
    requires Low7(a) == Low7(b)
    ensures Closed(a) == Closed(b)
  {
    var r, s := Low7(a), Low7(b);
    SameLow(a, b);
  }

  lemma SameLow(a: bv8, b: bv8)
    requires (a & 0x40 != 0) == (b & 0x40 != 0) && (a & 0x20 != 0) == (b & 0x20 != 0) && (a & 0x10 != 0) == (b & 0x10 != 0)
    requires (a & 0x08 != 0) == (b & 0x08 != 0) && (a & 0x04 != 0) == (b & 0x04 != 0) && (a & 0x02 != 0) == (b & 0x02 != 0)
    requires (a & 0x01 != 0) == (b & 0x01 != 0)
    ensures Closed(a) == Closed(b)
  {
  }

  lemma {:induction false} AbsorbByte7(h: seq<byte>, k: nat)
    requires k < |h|
    ensures Remainder(BytesBits(h[..k + 1]), GENERATOR7)
         == Feed(Remainder(BytesBits(h[..k]), GENERATOR7), ByteBits(h[k]), GENERATOR7)
  {
    FeedConcat(Zeros(7), BytesBits(h[..k]), ByteBits(h[k]), GENERATOR7);
    BytesSnoc(h[..k], h[k]);
    assert h[..k + 1] == h[..k] + [h[k]];
  }

  /** Token and argument bytes through crc7_update, one after the other. */
  method Crc7Bytes(h: seq<byte>) returns (reg: bv8)
    ensures Low7(reg) == Remainder(BytesBits(h), GENERATOR7)
  {
    reg := 0;
    assert Low7(0) == Zeros(7);
    for k := 0 to |h|
      invariant Low7(reg) == Remainder(BytesBits(h[..k]), GENERATOR7)
    {
      AbsorbByte7(h, k);
      reg := Crc7Update(reg, h[k]);
    }
    assert h[..|h|] == h;
  }

  method Crc7(c: Command) returns (crc: byte)
    ensures crc == CrcByte(FrameMessage(c))
  {
    var reg := Crc7Bytes(FrameHead(c));
    HeadIsMessage(c);
    ClosedIgnoresTop(reg, Register7(FrameMessage(c)));
    crc := Closed(reg);
  }

  /** The six bytes of the frame. */
  function FrameBytes(c: Command): (f: seq<byte>)
    ensures |f| == 6
  {
    FrameHead(c) + [CrcByte(FrameMessage(c))]
  }

  method ToSpiBytes(c: Command) returns (f: seq<byte>)
    ensures f == FrameBytes(c)
  {
    var crc := Crc7(c);
    f := FrameHead(c) + [crc];
  }

  /** What goes over the wire: the message, its remainder modulo x^7 + x^3 + 1, the end bit. */
  lemma {:induction false} FrameOnWire(c: Command)
    ensures BytesBits(FrameBytes(c)) == FrameMessage(c) + Remainder(FrameMessage(c), GENERATOR7) + [true]
  {
    var m := FrameMessage(c);
    HeadIsMessage(c);
    BytesSnoc(FrameHead(c), CrcByte(m));
    CrcByteBits(m);
    assert m + (Remainder(m, GENERATOR7) + [true]) == m + Remainder(m, GENERATOR7) + [true];
  }

  lemma {:induction false} ClosedBits(c: bv8)
    ensures ByteBits(Closed(c)) == Low7(c) + [true]
  {
    ByteBitsOf(Closed(c));
    ClosedMasks(c);
  }

  lemma {:induction false} CrcByteBits(m: Bits)
    ensures ByteBits(CrcByte(m)) == Remainder(m, GENERATOR7) + [true]
  {
    ClosedBits(Register7(m));
  }

  lemma ClosedMasks(c: bv8)
    ensures (Closed(c) & 0x80 != 0) == (c & 0x40 != 0) && (Closed(c) & 0x40 != 0) == (c & 0x20 != 0)
    ensures (Closed(c) & 0x20 != 0) == (c & 0x10 != 0) && (Closed(c) & 0x10 != 0) == (c & 0x08 != 0)
    ensures (Closed(c) & 0x08 != 0) == (c & 0x04 != 0) && (Closed(c) & 0x04 != 0) == (c & 0x02 != 0)
    ensures (Closed(c) & 0x02 != 0) == (c & 0x01 != 0) && Closed(c) & 0x01 != 0
  {
  }
}
