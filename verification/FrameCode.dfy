/** What the command frame code achieves: a receiver recovers the command, accepts nothing
    but frames of the driver's form, and tells any two commands apart by three bits. */
module FrameCode {
  import opened Errors
  import opened MachineInts
  import opened Arithmetic
  import opened Commands
  import opened Gf2
  import opened Crc16
  import opened CommandFrame

  // ----- A receiver -----

  /** Start bit 0, host bit 1, correct CRC, end bit 1: command index and argument. */
  ghost function ParseFrame(f: seq<byte>): Option<(nat, nat)> {
    var b := BytesBits(f);
    if |f| == 6 && !b[0] && b[1] && b[47] && Remainder(b[..40], GENERATOR7) == b[40..47] then
      Some((Value(b[2..8]), Value(b[8..40])))
    else None
  }

  lemma {:induction false} TokenBits(i: nat)
    requires i < 64
    ensures NatBits(64 + i, 8) == [false, true] + NatBits(i, 6)
  {
    assert Pow2(6) == 64;
    JoinBits(1, 2, i, 6);
    assert NatBits(1, 2) == [false, true] by {
      assert NatBits(0, 1) == [false];
    }
  }

  lemma {:induction false} FrameParts(c: Command)
    ensures BytesBits(FrameBytes(c))[..2] == [false, true]
    ensures BytesBits(FrameBytes(c))[2..8] == NatBits(c.cmd % 64, 6)
    ensures BytesBits(FrameBytes(c))[8..40] == NatBits(c.arg, 32)
    ensures BytesBits(FrameBytes(c))[..40] == FrameMessage(c)
    ensures BytesBits(FrameBytes(c))[40..47] == Remainder(FrameMessage(c), GENERATOR7)
    ensures BytesBits(FrameBytes(c))[47]
  {
    FrameOnWire(c);
    TokenBits(c.cmd % 64);
    var t, i, a, r := [false, true], NatBits(c.cmd % 64, 6), NatBits(c.arg, 32), Remainder(FrameMessage(c), GENERATOR7);
    assert BytesBits(FrameBytes(c)) == t + i + a + r + [true];
    Slices(t, i, a, r);
  }

  lemma Slices(t: Bits, i: Bits, a: Bits, r: Bits)
    requires |t| == 2 && |i| == 6 && |a| == 32 && |r| == 7
    ensures var b := t + i + a + r + [true];
            b[..2] == t && b[2..8] == i && b[8..40] == a && b[..40] == t + i + a && b[40..47] == r && b[47]
  {
  }

  /** A frame is parsed back to the index (its low six bits) and the argument. */
  lemma {:induction false} ParseRoundTrip(c: Command)
    ensures ParseFrame(FrameBytes(c)) == Some((c.cmd % 64, c.arg))
  {
    FrameParts(c);
    var b := BytesBits(FrameBytes(c));
    assert b[0] == b[..2][0] && b[1] == b[..2][1];
    SmallPowers();
    ValueOfBits(c.cmd % 64, 6);
    ValueOfBits(c.arg, 32);
  }

  lemma SmallPowers()
    ensures Pow2(6) == 64 && Pow2(32) == 0x1_0000_0000
  {
    assert Pow2(8) == 256;
    assert Pow2(16) == 0x1_0000;
    assert Pow2(24) == 0x100_0000;
  }

  lemma {:induction false} BitsOfValue(b: Bits)
    ensures Value(b) < Pow2(|b|)
    ensures NatBits(Value(b), |b|) == b
    decreases |b|
  {
    if b != [] {
      var n := |b| - 1;
      var v, x := Value(b[..n]), if b[n] then 1 else 0;
      BitsOfValue(b[..n]);
      assert Value(b) == 2 * v + x;
      assert Value(b) / 2 == v && Value(b) % 2 == x;
      assert NatBits(Value(b), n + 1) == b[..n] + [b[n]];
      assert b[..n] + [b[n]] == b;
    }
  }

  lemma ByteBitsInjective(x: byte, y: byte)
    requires ByteBits(x) == ByteBits(y)
    ensures x == y
  {
    ByteBitsOf(x);
    ByteBitsOf(y);
    SameMasks(x, y, ByteBits(x));
  }

  lemma SameMasks(x: byte, y: byte, s: Bits)
    requires |s| == 8 && ByteIs(x, s) && ByteIs(y, s)
    ensures x == y
  {
  }

  lemma {:induction false} BytesBitsInjective(f: seq<byte>, g: seq<byte>)
    requires |f| == |g| && BytesBits(f) == BytesBits(g)
    ensures f == g
    decreases |f|
  {
    if f != [] {
      var n := |f| - 1;
      var p, q := BytesBits(f[..n]), BytesBits(g[..n]);
      assert BytesBits(f) == p + ByteBits(f[n]) && BytesBits(g) == q + ByteBits(g[n]);
      assert p == BytesBits(f)[..8 * n] && q == BytesBits(g)[..8 * n];
      assert ByteBits(f[n]) == BytesBits(f)[8 * n..] && ByteBits(g[n]) == BytesBits(g)[8 * n..];
      ByteBitsInjective(f[n], g[n]);
      BytesBitsInjective(f[..n], g[..n]);
      assert f == f[..n] + [f[n]] && g == g[..n] + [g[n]];
    }
  }

  datatype Fields = Fields(start: Bits, index: Bits, arg: Bits, crc: Bits, end: bool)

  function FieldsOf(d: Bits): Fields
    requires |d| == 48
  {
    Fields(d[..2], d[2..8], d[8..40], d[40..47], d[47])
  }

  /** The fields of the frame for index i and argument a. */
  function Expected(i: nat, a: nat): Fields {
    var m := [false, true] + NatBits(i, 6) + NatBits(a, 32);
    Fields([false, true], NatBits(i, 6), NatBits(a, 32), Remainder(m, GENERATOR7), true)
  }

  lemma Reassemble(b: Bits)
    requires |b| == 48
    ensures b == b[..2] + b[2..8] + b[8..40] + b[40..47] + [b[47]]
    ensures b[..40] == b[..2] + b[2..8] + b[8..40]
  {
  }

  lemma SameFields(b: Bits, d: Bits)
    requires |b| == |d| == 48 && FieldsOf(b) == FieldsOf(d)
    ensures b == d
  {
    Reassemble(b);
    Reassemble(d);
  }

  lemma {:induction false} SameBytes(f: seq<byte>, g: seq<byte>)
    requires |f| == |g| == 6 && FieldsOf(BytesBits(f)) == FieldsOf(BytesBits(g))
    ensures f == g
  {
    SameFields(BytesBits(f), BytesBits(g));
    BytesBitsInjective(f, g);
  }

  lemma {:induction false} ParsedFields(f: seq<byte>, i: nat, a: nat)
    requires ParseFrame(f) == Some((i, a))
    ensures |f| == 6 && i < 64 && a < U32_LIMIT && FieldsOf(BytesBits(f)) == Expected(i, a)
  {
    var b := BytesBits(f);
    SmallPowers();
    BitsOfValue(b[2..8]);
    BitsOfValue(b[8..40]);
    assert b[..2] == [false, true];
    Reassemble(b);
  }

  lemma {:induction false} FrameFields(c: Command)
    ensures FieldsOf(BytesBits(FrameBytes(c))) == Expected(c.cmd % 64, c.arg)
  {
    FrameParts(c);
    TokenBits(c.cmd % 64);
    assert FrameMessage(c) == [false, true] + NatBits(c.cmd % 64, 6) + NatBits(c.arg, 32);
  }

  /** Whatever the receiver accepts is the frame of the command it reads out. */
  lemma {:induction false} ParsedIsFrame(f: seq<byte>, c: Command)
    requires ParseFrame(f) == Some((c.cmd % 64, c.arg))
    ensures f == FrameBytes(c)
  {
    ParsedFields(f, c.cmd % 64, c.arg);
    FrameFields(c);
    SameBytes(f, FrameBytes(c));
  }

  // ----- Minimum distance -----

  /** Neither v nor any of the next n registers holds x^6. */
  predicate Avoids(v: bv8, n: nat)
    decreases n
  {
    v & 0x7F != 0x40 && (n == 0 || Avoids(Step7(v, 0), n - 1))
  }

  lemma OrbitAvoids()
    ensures Avoids(0x89, 45)
  {
    assert Avoids(0x3E, 0); assert Avoids(0x1F, 1); assert Avoids(0x4B, 2); assert Avoids(0x61, 3);
    assert Avoids(0x74, 4); assert Avoids(0x3A, 5); assert Avoids(0x1D, 6); assert Avoids(0x4A, 7);
    assert Avoids(0x25, 8); assert Avoids(0x56, 9); assert Avoids(0x2B, 10); assert Avoids(0x51, 11);
    assert Avoids(0x6C, 12); assert Avoids(0x36, 13); assert Avoids(0x1B, 14); assert Avoids(0x49, 15);
    assert Avoids(0x60, 16); assert Avoids(0x30, 17); assert Avoids(0x18, 18); assert Avoids(0x0C, 19);
    assert Avoids(0x06, 20); assert Avoids(0x03, 21); assert Avoids(0x45, 22); assert Avoids(0x66, 23);
    assert Avoids(0x33, 24); assert Avoids(0x5D, 25); assert Avoids(0x6A, 26); assert Avoids(0x35, 27);
    assert Avoids(0x5E, 28); assert Avoids(0x2F, 29); assert Avoids(0x53, 30); assert Avoids(0x6D, 31);
    assert Avoids(0x72, 32); assert Avoids(0x39, 33); assert Avoids(0x58, 34); assert Avoids(0x2C, 35);
    assert Avoids(0x16, 36); assert Avoids(0x0B, 37); assert Avoids(0x41, 38); assert Avoids(0x64, 39);
    assert Avoids(0x32, 40); assert Avoids(0x19, 41); assert Avoids(0x48, 42); assert Avoids(0x24, 43);
    assert Avoids(0x12, 44); assert Avoids(0x89, 45);
  }

  /** The register after a 1 and k zeros: x^(7+k) modulo the generator. */
  function Orbit(k: nat): (v: bv8)
    ensures Low7(v) == Remainder([true] + Zeros(k), GENERATOR7)
  {
    Register7([true] + Zeros(k))
  }

  lemma {:induction false} RegisterMore(m: Bits, n: Bits)
    requires |n| == |m| + 1 && n[..|m|] == m && !n[|m|]
    ensures Register7(n) == Step7(Register7(m), 0)
  {
  }

  lemma {:induction false} OrbitNext(k: nat)
    ensures Orbit(k + 1) == Step7(Orbit(k), 0)
  {
    RegisterMore([true] + Zeros(k), [true] + Zeros(k + 1));
  }

  lemma {:induction false} OrbitStart()
    ensures Orbit(0) == 0x89
  {
    assert [true] + Zeros(0) == [true];
    assert [true][..0] == [];
  }

  lemma {:induction false} AvoidsNext(v: bv8, w: bv8, n: nat)
    requires Avoids(v, n + 1) && w == Step7(v, 0)
    ensures Avoids(w, n)
  {
  }

  lemma {:induction false} OrbitAvoidsFrom(j: nat, n: nat)
    requires j + n == 45
    ensures Avoids(Orbit(j), n)
    decreases j
  {
    if j == 0 {
      OrbitStart();
      OrbitAvoids();
    } else {
      OrbitAvoidsFrom(j - 1, n + 1);
      OrbitNext(j - 1);
      AvoidsNext(Orbit(j - 1), Orbit(j), n);
    }
  }

  /** A register that a final 1 brings to zero holds x^6. */
  lemma ClosingOne(v: bv8)
    requires Clock(Low7(v), true, GENERATOR7) == Zeros(7)
    ensures v & 0x7F == 0x40
  {
    var r, c := Low7(v), Clock(Low7(v), true, GENERATOR7);
    assert !c[6];
    assert r[0];
    assert !c[0] && !c[1] && !c[2] && !c[3] && !c[4] && !c[5];
  }

  lemma {:induction false} NotClosed(v: bv8, n: nat)
    requires Avoids(v, n)
    ensures Clock(Low7(v), true, GENERATOR7) != Zeros(7)
  {
    if Clock(Low7(v), true, GENERATOR7) == Zeros(7) {
      ClosingOne(v);
    }
  }

  /** Two ones at a distance of at most 46 do not divide evenly. */
  lemma {:induction false} TwoOnes(k: nat)
    requires k <= 45
    ensures Remainder([true] + Zeros(k) + [true], GENERATOR7) != Zeros(7)
  {
    RemainderMore([true] + Zeros(k), true);
    OrbitNotClosed(k);
  }

  lemma {:induction false} OrbitNotClosed(k: nat)
    requires k <= 45
    ensures Clock(Remainder([true] + Zeros(k), GENERATOR7), true, GENERATOR7) != Zeros(7)
  {
    OrbitAvoidsFrom(k, 45 - k);
    NotClosed(Orbit(k), 45 - k);
  }

  lemma {:induction false} RemainderMore(m: Bits, b: bool)
    ensures Remainder(m + [b], GENERATOR7) == Clock(Remainder(m, GENERATOR7), b, GENERATOR7)
  {
    assert (m + [b])[..|m|] == m;
  }

  lemma {:induction false} OneBit(e: Bits)
    requires Weight(e) == 1
    ensures Remainder(e, GENERATOR7) != Zeros(7)
  {
    var i := FirstOne(e);
    var rest := e[i + 1..];
    NoOnes(rest);
    ShortNonzero([true], 0, GENERATOR7);
    Surrounded(i, [true], |rest|, GENERATOR7);
    assert e == Zeros(i) + [true] + Zeros(|rest|);
  }

  lemma {:induction false} TwoBits(e: Bits)
    requires |e| <= 47 && Weight(e) == 2
    ensures Remainder(e, GENERATOR7) != Zeros(7)
  {
    var i := FirstOne(e);
    var rest := e[i + 1..];
    var k := FirstOne(rest);
    var tail := rest[k + 1..];
    NoOnes(tail);
    TwoOnes(k);
    Surrounded(i, [true] + Zeros(k) + [true], |tail|, GENERATOR7);
    TwoBitShape(e, i, k);
  }

  /** No nonzero multiple of the generator of at most 47 bits has weight below 3. */
  lemma {:induction false} LightWords(e: Bits)
    requires |e| <= 47 && Remainder(e, GENERATOR7) == Zeros(7) && e != Zeros(|e|)
    ensures Weight(e) >= 3
  {
    if Weight(e) == 0 {
      NoOnes(e);
    } else if Weight(e) == 1 {
      OneBit(e);
    } else if Weight(e) == 2 {
      TwoBits(e);
    }
  }

  /** The bits of a frame that carry the command and its CRC. */
  ghost function Codeword(c: Command): (w: Bits)
    ensures |w| == 47
  {
    BytesBits(FrameBytes(c))[..47]
  }

  lemma {:induction false} CodewordDivides(c: Command)
    ensures Remainder(Codeword(c), GENERATOR7) == Zeros(7)
  {
    FrameOnWire(c);
    var m := FrameMessage(c);
    AppendRemainder(m, GENERATOR7);
    assert Codeword(c) == m + Remainder(m, GENERATOR7);
  }

  lemma {:induction false} DifferenceDivides(v: Bits, w: Bits)
    requires |v| == |w| && Remainder(v, GENERATOR7) == Zeros(7) && Remainder(w, GENERATOR7) == Zeros(7)
    ensures Remainder(Xor(v, w), GENERATOR7) == Zeros(7)
  {
    FeedLinear(Zeros(7), Zeros(7), v, w, GENERATOR7);
    assert Xor(Zeros(7), Zeros(7)) == Zeros(7);
  }

  lemma {:induction false} NoDifference(v: Bits, w: Bits)
    requires |v| == |w| && Xor(v, w) == Zeros(|v|)
    ensures v == w
  {
    assert forall i | 0 <= i < |v| :: !Xor(v, w)[i];
  }

  /** Frames of commands that differ in index modulo 64 or in argument differ in at least
      three of their first 47 bits. */
  lemma {:induction false} FrameDistance(c: Command, d: Command)
    requires c.cmd % 64 != d.cmd % 64 || c.arg != d.arg
    ensures Weight(Xor(Codeword(c), Codeword(d))) >= 3
  {
    CodewordDivides(c);
    CodewordDivides(d);
    CodewordFields(c);
    CodewordFields(d);
    DistinctWords(Codeword(c), Codeword(d));
  }

  lemma {:induction false} DistinctWords(v: Bits, w: Bits)
    requires |v| == |w| == 47 && v != w
    requires Remainder(v, GENERATOR7) == Zeros(7) && Remainder(w, GENERATOR7) == Zeros(7)
    ensures Weight(Xor(v, w)) >= 3
  {
    DifferenceDivides(v, w);
    if Xor(v, w) == Zeros(47) {
      NoDifference(v, w);
    }
    LightWords(Xor(v, w));
  }

  lemma {:induction false} CodewordFields(c: Command)
    ensures Value(Codeword(c)[2..8]) == c.cmd % 64 && Value(Codeword(c)[8..40]) == c.arg
  {
    FrameParts(c);
    FieldValues(BytesBits(FrameBytes(c)), c.cmd % 64, c.arg);
  }

  lemma {:induction false} FieldValues(b: Bits, i: nat, a: u32)
    requires |b| == 48 && i < 64 && b[2..8] == NatBits(i, 6) && b[8..40] == NatBits(a, 32)
    ensures Value(b[..47][2..8]) == i && Value(b[..47][8..40]) == a
  {
    SmallPowers();
    ValueOfBits(i, 6);
    ValueOfBits(a, 32);
    assert b[..47][2..8] == b[2..8] && b[..47][8..40] == b[8..40];
  }
}
