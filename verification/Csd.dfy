/** The CSD register over three transports, and the capacity read out of it. */
module Csd {
  import opened Errors
  import opened MachineInts
  import opened Arithmetic
  import opened Commands

  /** A 128-bit register, most significant byte first. */
  type Register = r: seq<u8> | |r| == 16 witness seq(16, _ => 0)

  // ----- Numbers -----

  function Number(bytes: seq<u8>): nat {
    if bytes == [] then 0 else Number(bytes[..|bytes| - 1]) * 256 + bytes[|bytes| - 1]
  }

  /** Shifting k bytes out of a number drops its last k bytes. */
  lemma {:induction false} ShiftBytes(bytes: seq<u8>, k: nat)
    requires k <= |bytes|
    ensures Number(bytes) / Pow256(k) == Number(bytes[..|bytes| - k])
  {
    if k == 0 {
      assert bytes[..|bytes|] == bytes;
    } else {
      var rest := bytes[..|bytes| - 1];
      ShiftBytes(rest, k - 1);
      assert rest[..|rest| - (k - 1)] == bytes[..|bytes| - k];
      DivDiv(Number(bytes), Pow256(k - 1));
    }
  }

  // ----- Transports -----

  /** Bits hi down to lo, as the specification numbers them. */
  function RegisterField(r: Register, hi: nat, lo: nat): nat
    requires lo <= hi < 128
  {
    Field(Number(r), hi, lo)
  }

  /** Response slot i of a controller that stores the whole register. */
  function DwSlot(r: Register, i: nat): u32
    requires i < 4
  {
    Number(r) / Pow256(4 * i) % U32_LIMIT
  }

  /** Response slot i of a controller that drops the register's last byte first. */
  function SdhciSlot(r: Register, i: nat): u32
    requires i < 4
  {
    Number(r) / 256 / Pow256(4 * i) % U32_LIMIT
  }

  /** to_be_bytes. */
  function BeBytes(w: u32): (s: seq<u8>)
    ensures |s| == 4
  {
    [w / 0x100_0000, w / 0x1_0000 % 256, w / 0x100 % 256, w % 256]
  }

  /** read_r2 of the DW_mshc driver. */
  function DwReadR2(slot: nat -> u32): Register {
    BeBytes(slot(3)) + BeBytes(slot(2)) + BeBytes(slot(1)) + BeBytes(slot(0))
  }

  /** One word of read_r2 of the SDHCI driver: `(hi << 8) | (lo >> 24)` on 32-bit words. */
  function Spliced(hi: u32, lo: u32): u32 {
    hi * 256 % U32_LIMIT + lo / 0x100_0000
  }

  /** The four slots, as a controller's register bank. */
  function DwSlots(r: Register): nat -> u32 {
    i => if i < 4 then DwSlot(r, i) else 0
  }

  function SdhciSlots(r: Register): nat -> u32 {
    i => if i < 4 then SdhciSlot(r, i) else 0
  }

  function SdhciReadR2(slot: nat -> u32): Register {
    BeBytes(Spliced(slot(3), slot(2))) + BeBytes(Spliced(slot(2), slot(1))) + BeBytes(Spliced(slot(1), slot(0)))
    + BeBytes(slot(0) * 256 % U32_LIMIT)
  }

  function Joined(b0: nat, b1: nat, b2: nat, b3: nat): nat {
    b0 * 0x100_0000 + b1 * 0x1_0000 + b2 * 0x100 + b3
  }

  /** The big-endian word at byte i. */
  function WordAt(bytes: seq<u8>, i: nat): u32
    requires i + 4 <= |bytes|
  {
    Joined(bytes[i], bytes[i + 1], bytes[i + 2], bytes[i + 3])
  }

  lemma NumberStep(s: seq<u8>, k: nat)
    requires 0 < k <= |s|
    ensures Number(s[..k]) == Number(s[..k - 1]) * 256 + s[k - 1]
  {
    assert s[..k][..k - 1] == s[..k - 1];
  }

  /** The low 32 bits of a number are its last four bytes. */
  lemma LowWord(s: seq<u8>, k: nat)
    requires 4 <= k <= |s|
    ensures Number(s[..k]) % U32_LIMIT == WordAt(s, k - 4)
  {
    NumberStep(s, k);
    NumberStep(s, k - 1);
    NumberStep(s, k - 2);
    NumberStep(s, k - 3);
    LowDigits(Number(s[..k - 4]), s[k - 4], s[k - 3], s[k - 2], s[k - 1]);
  }

  lemma LowDigits(top: nat, b0: u8, b1: u8, b2: u8, b3: u8)
    ensures ((((top * 256 + b0) * 256 + b1) * 256 + b2) * 256 + b3) % U32_LIMIT == Joined(b0, b1, b2, b3)
  {
    assert (((top * 256 + b0) * 256 + b1) * 256 + b2) * 256 + b3 == top * U32_LIMIT + Joined(b0, b1, b2, b3);
  }

  lemma BeBytesBack(s: seq<u8>, i: nat)
    requires i + 4 <= |s|
    ensures BeBytes(WordAt(s, i)) == s[i..i + 4]
  {
    Digits(s[i], s[i + 1], s[i + 2], s[i + 3]);
  }

  lemma Digits(b0: u8, b1: u8, b2: u8, b3: u8)
    ensures var w := Joined(b0, b1, b2, b3);
            w / 0x100_0000 == b0 && w / 0x1_0000 % 256 == b1 && w / 0x100 % 256 == b2 && w % 256 == b3
  {
    var w := Joined(b0, b1, b2, b3);
    assert w / 0x100 == b0 as int * 0x1_0000 + b1 as int * 0x100 + b2 as int;
    assert w / 0x1_0000 == b0 as int * 0x100 + b1 as int;
  }

  /** Sixteen bytes as four words. */
  lemma FourWords(s: seq<u8>, i: nat)
    requires i + 16 <= |s|
    ensures BeBytes(WordAt(s, i)) + BeBytes(WordAt(s, i + 4)) + BeBytes(WordAt(s, i + 8)) + BeBytes(WordAt(s, i + 12))
         == s[i..i + 16]
  {
    BeBytesBack(s, i);
    BeBytesBack(s, i + 4);
    BeBytesBack(s, i + 8);
    BeBytesBack(s, i + 12);
  }

  lemma DwSlotIs(r: Register, i: nat)
    requires i < 4
    ensures DwSlot(r, i) == WordAt(r, 12 - 4 * i)
  {
    ShiftBytes(r, 4 * i);
    LowWord(r, 16 - 4 * i);
  }

  /** DW_mshc: the driver's bytes are the register's. */
  lemma DwTransport(r: Register)
    ensures DwReadR2(DwSlots(r)) == r
  {
    DwSlotIs(r, 0);
    DwSlotIs(r, 1);
    DwSlotIs(r, 2);
    DwSlotIs(r, 3);
    FourWords(r, 0);
  }

  /** The register as SDHCI keeps it, shifted right one byte, and the zero byte that the
      driver shifts back in. */
  function Padded(r: Register): (s: seq<u8>)
    ensures |s| == 17
  {
    [0] + r[..15] + [0]
  }

  lemma SdhciSlotIs(r: Register, i: nat)
    requires i < 4
    ensures SdhciSlot(r, i) == WordAt(Padded(r), 12 - 4 * i)
  {
    var shifted := [0] + r[..15];
    NumberStep(r, 16);
    assert r[..16] == r;
    LeadingZero(r[..15]);
    ShiftBytes(shifted, 4 * i);
    LowWord(shifted, 16 - 4 * i);
  }

  lemma {:induction false} LeadingZero(s: seq<u8>)
    ensures Number([0] + s) == Number(s)
    decreases |s|
  {
    if s != [] {
      LeadingZero(s[..|s| - 1]);
      assert ([0] + s)[..|s|] == [0] + s[..|s| - 1];
    } else {
      assert [0] + s == [0] && [0][..0] == [];
    }
  }

  lemma SplicedIs(s: seq<u8>, i: nat, hi: u32, lo: u32)
    requires i + 8 <= |s| && hi == WordAt(s, i) && lo == WordAt(s, i + 4)
    ensures Spliced(hi, lo) == WordAt(s, i + 1)
  {
    Splice(s[i], s[i + 1], s[i + 2], s[i + 3], s[i + 4], lo);
    Digits(s[i + 4], s[i + 5], s[i + 6], s[i + 7]);
  }

  lemma Splice(b0: u8, b1: u8, b2: u8, b3: u8, b4: u8, lo: u32)
    requires lo / 0x100_0000 == b4
    ensures Spliced(Joined(b0, b1, b2, b3), lo) == Joined(b1, b2, b3, b4)
  {
    RemainderIs(Joined(b0, b1, b2, b3) * 256, U32_LIMIT, b0, Joined(b1, b2, b3, 0));
  }

  /** SDHCI: the same bytes, with 0 for the last one, which holds CRC and end bit. */
  lemma SdhciTransport(r: Register)
    ensures SdhciReadR2(SdhciSlots(r)) == r[..15] + [0]
  {
    SdhciSlotIs(r, 0);
    SdhciSlotIs(r, 1);
    SdhciSlotIs(r, 2);
    SdhciSlotIs(r, 3);
    ReadPadded(Padded(r), SdhciSlots(r));
    assert Padded(r)[1..17] == r[..15] + [0];
  }

  lemma ReadPadded(s: seq<u8>, slot: nat -> u32)
    requires |s| == 17 && s[16] == 0
    requires slot(3) == WordAt(s, 0) && slot(2) == WordAt(s, 4) && slot(1) == WordAt(s, 8) && slot(0) == WordAt(s, 12)
    ensures SdhciReadR2(slot) == s[1..17]
  {
    SplicedIs(s, 0, slot(3), slot(2));
    SplicedIs(s, 4, slot(2), slot(1));
    SplicedIs(s, 8, slot(1), slot(0));
    LastWord(s, 12);
    FourWords(s, 1);
  }

  lemma LastWord(s: seq<u8>, i: nat)
    requires i + 5 <= |s| && s[i + 4] == 0
    ensures WordAt(s, i) * 256 % U32_LIMIT == WordAt(s, i + 1)
  {
  }

  // ----- Capacity -----

  /** `(hi << k) | lo` for lo below 2^k. */
  function Above(hi: nat, scale: nat, lo: nat): nat { hi * scale + lo }

  function Version(raw: Register): nat { raw[0] / 64 }

  function ReadBlLen(raw: Register): nat { raw[5] % 16 }

  function CSize1(raw: Register): nat { Above(Above(raw[6] % 4, 256, raw[7]), 4, raw[8] / 64) }

  function CSizeMult(raw: Register): nat { Above(raw[9] % 4, 2, raw[10] / 128) }

  function CSize2(raw: Register): nat { Above(Above(raw[7] % 64, 256, raw[8]), 256, raw[9]) }

  /** Capacity of a version 1.0 card in blocks of 512 bytes (section 5.3.2). */
  function Blocks1(cSize: nat, cSizeMult: nat, readBlLen: nat): nat {
    var mult := Pow2(cSizeMult + 2);
    var blockLen := Pow2(readBlLen);
    (cSize + 1) * mult * blockLen / 512
  }

  function CapacityBlocks(raw: Register): Option<nat> {
    if Version(raw) == 0 then Some(Blocks1(CSize1(raw), CSizeMult(raw), ReadBlLen(raw)))
    else if Version(raw) == 1 then Some((CSize2(raw) + 1) * 1024)
    else None
  }

  // ----- Against the bit numbering of the specification -----

  lemma {:induction false} Pow2Bytes(k: nat)
    ensures Pow2(8 * k) == Pow256(k)
  {
    if k > 0 {
      Pow2Bytes(k - 1);
      Pow2Sum(8 * (k - 1), 8);
      assert Pow2(8) == 2 * Pow2(7) == 4 * Pow2(6) == 8 * Pow2(5) == 16 * Pow2(4) == 256;
    }
  }

  lemma {:induction false} Pow2Sum(a: nat, b: nat)
    ensures Pow2(a + b) == Pow2(a) * Pow2(b)
  {
    if b > 0 {
      Pow2Sum(a, b - 1);
    }
  }

  lemma {:induction false} DivSum(x: nat, a: nat, b: nat)
    ensures x / Pow2(a + b) == x / Pow2(a) / Pow2(b)
  {
    Pow2Sum(a, b);
    DivMul(x, Pow2(a), Pow2(b));
  }

  lemma {:induction false} DivMul(x: nat, p: nat, q: nat)
    requires p > 0 && q > 0
    ensures p * q > 0 && x / (p * q) == x / p / q
  {
    Product(q, p);
    var y := x / p;
    DivMod(x, p);
    DivMod(y, q);
    DivMulStep(x, p, q, y, x % p, y / q, y % q);
    QuotientIs(x, p * q, y / q, y % q * p + x % p);
  }

  lemma DivMulStep(x: nat, p: nat, q: nat, y: nat, s: nat, z: nat, r: nat)
    requires x == y * p + s && s < p && y == z * q + r && r < q
    ensures x == z * (p * q) + (r * p + s) && r * p + s < p * q
  {
    Spread(z, q, r, p);
    Fits(r, q, p);
  }

  lemma Product(q: nat, p: nat)
    requires p > 0 && q > 0
    ensures p * q > 0
  {
  }

  lemma Spread(z: nat, q: nat, r: nat, p: nat)
    ensures (z * q + r) * p == z * (p * q) + r * p
  {
  }

  lemma Fits(r: nat, q: nat, p: nat)
    requires r < q
    ensures r * p + p <= p * q
  {
    assert (r + 1) * p <= q * p;
  }

  /** A field that starts s bits into byte 15 - k. */
  lemma FieldAt(r: Register, hi: nat, lo: nat, k: nat, s: nat, p: nat, q: nat)
    requires lo <= hi < 128 && lo == 8 * k + s && p == Pow2(s) && q == Pow2(hi - lo + 1)
    ensures RegisterField(r, hi, lo) == Number(r[..16 - k]) / p % q
  {
    Pow2Bytes(k);
    DivSum(Number(r), 8 * k, s);
    ShiftBytes(r, k);
  }

  lemma VersionField(r: Register)
    ensures Version(r) == RegisterField(r, 127, 126)
  {
    Pow2Values();
    FieldAt(r, 127, 126, 15, 6, 64, 4);
    NumberStep(r, 1);
    assert Number(r[..1]) == r[0] as nat;
    TopBits(r[0]);
  }

  lemma TopBits(b: u8)
    ensures b as nat / 64 % 4 == b as nat / 64
  {
  }

  lemma ReadBlLenField(r: Register)
    ensures ReadBlLen(r) == RegisterField(r, 83, 80)
  {
    Pow2Values();
    FieldAt(r, 83, 80, 10, 0, 1, 16);
    NumberStep(r, 6);
    LowNibble(Number(r[..5]), r[5], Number(r[..6]));
    Undivided(Number(r[..6]));
  }

  lemma Undivided(x: nat)
    ensures x / 1 == x
  {
  }

  lemma LowNibble(top: nat, b: u8, x: nat)
    requires x == top * 256 + b as nat
    ensures x % 16 == b as nat % 16
  {
    DivMod(b, 16);
    RemainderIs(x, 16, top * 16 + b as nat / 16, b as nat % 16);
  }

  lemma CSize1Field(r: Register)
    ensures CSize1(r) == RegisterField(r, 73, 62)
  {
    Pow2Values();
    FieldAt(r, 73, 62, 7, 6, 64, 4096);
    NumberStep(r, 9);
    NumberStep(r, 8);
    NumberStep(r, 7);
    LowBits1(Number(r[..6]), Number(r[..7]), Number(r[..8]), Number(r[..9]), r[6], r[7], r[8]);
  }

  lemma CSizeMultField(r: Register)
    ensures CSizeMult(r) == RegisterField(r, 49, 47)
  {
    Pow2Values();
    FieldAt(r, 49, 47, 5, 7, 128, 8);
    NumberStep(r, 11);
    NumberStep(r, 10);
    LowBitsMult(Number(r[..9]), Number(r[..10]), Number(r[..11]), r[9], r[10]);
  }

  lemma CSize2Field(r: Register)
    ensures CSize2(r) == RegisterField(r, 69, 48)
  {
    Pow2Values();
    FieldAt(r, 69, 48, 6, 0, 1, 0x40_0000);
    NumberStep(r, 10);
    NumberStep(r, 9);
    NumberStep(r, 8);
    LowBits2(Number(r[..7]), Number(r[..8]), Number(r[..9]), Number(r[..10]), r[7], r[8], r[9]);
    Undivided(Number(r[..10]));
  }

  /** The driver's byte extractions are the specification's fields: CSD_STRUCTURE 127..126,
      READ_BL_LEN 83..80, C_SIZE 73..62 or 69..48, C_SIZE_MULT 49..47. */
  lemma CapacityMeaning(r: Register)
    ensures RegisterField(r, 127, 126) == 0 ==>
              CapacityBlocks(r) == Some((RegisterField(r, 73, 62) + 1) * Pow2(RegisterField(r, 49, 47) + 2) * Pow2(RegisterField(r, 83, 80)) / 512)
    ensures RegisterField(r, 127, 126) == 1 ==> CapacityBlocks(r) == Some((RegisterField(r, 69, 48) + 1) * 1024)
    ensures RegisterField(r, 127, 126) > 1 ==> CapacityBlocks(r) == None
  {
    VersionField(r);
    ReadBlLenField(r);
    CSize1Field(r);
    CSizeMultField(r);
    CSize2Field(r);
  }

  lemma LowBits1(n6: nat, n7: nat, n8: nat, n9: nat, b6: u8, b7: u8, b8: u8)
    requires n7 == n6 * 256 + b6 as nat && n8 == n7 * 256 + b7 as nat && n9 == n8 * 256 + b8 as nat
    ensures n9 / 64 % 4096 == Above(Above(b6 % 4, 256, b7), 4, b8 / 64)
  {
    assert n9 / 64 == n8 * 4 + b8 as int / 64;
    var low := b6 as nat % 4 * 1024 + b7 as nat * 4 + b8 as nat / 64;
    assert n8 * 4 + b8 as int / 64 == (n6 * 64 + b6 as int / 4) * 4096 + low;
    RemainderIs(n9 / 64, 4096, n6 * 64 + b6 as nat / 4, low);
  }

  lemma LowBitsMult(n9: nat, n10: nat, n11: nat, b9: u8, b10: u8)
    requires n10 == n9 * 256 + b9 as nat && n11 == n10 * 256 + b10 as nat
    ensures n11 / 128 % 8 == Above(b9 % 4, 2, b10 / 128)
  {
    assert n11 / 128 == n10 * 2 + b10 as int / 128;
    var low := b9 as nat % 4 * 2 + b10 as nat / 128;
    assert n10 * 2 + b10 as int / 128 == (n9 * 64 + b9 as int / 4) * 8 + low;
    RemainderIs(n11 / 128, 8, n9 * 64 + b9 as nat / 4, low);
  }

  lemma LowBits2(n7: nat, n8: nat, n9: nat, n10: nat, b7: u8, b8: u8, b9: u8)
    requires n8 == n7 * 256 + b7 as nat && n9 == n8 * 256 + b8 as nat && n10 == n9 * 256 + b9 as nat
    ensures n10 % 0x40_0000 == Above(Above(b7 % 64, 256, b8), 256, b9)
  {
    var low := b7 as nat % 64 * 0x1_0000 + b8 as nat * 256 + b9 as nat;
    assert n10 == (n7 * 4 + b7 as nat / 64) * 0x40_0000 + low;
    RemainderIs(n10, 0x40_0000, n7 * 4 + b7 as nat / 64, low);
  }

  lemma Pow2Values()
    ensures Pow2(1) == 2 && Pow2(2) == 4 && Pow2(3) == 8 && Pow2(4) == 16 && Pow2(12) == 4096
    ensures Pow2(22) == 0x40_0000
    ensures Pow2(0) == 1 && Pow2(6) == 64 && Pow2(7) == 128
  {
    assert Pow2(4) == 2 * Pow2(3) == 4 * Pow2(2) == 8 * Pow2(1) == 16;
    assert Pow2(8) == 2 * Pow2(7) == 4 * Pow2(6) == 8 * Pow2(5) == 256;
    assert Pow2(12) == 2 * Pow2(11) == 4 * Pow2(10) == 8 * Pow2(9) == 16 * Pow2(8);
    assert Pow2(16) == 2 * Pow2(15) == 4 * Pow2(14) == 8 * Pow2(13) == 16 * Pow2(12);
    assert Pow2(20) == 2 * Pow2(19) == 4 * Pow2(18) == 8 * Pow2(17) == 16 * Pow2(16);
    assert Pow2(22) == 2 * Pow2(21) == 4 * Pow2(20);
  }

  /** The same card reports the same capacity over SPI, SDHCI and DW_mshc. */
  lemma SameCapacity(r: Register)
    ensures CapacityBlocks(SdhciReadR2(SdhciSlots(r))) == CapacityBlocks(r)
    ensures CapacityBlocks(DwReadR2(DwSlots(r))) == CapacityBlocks(r)
  {
    SdhciTransport(r);
    DwTransport(r);
  }

  // ----- Addresses of the blocks -----

  /** The command argument of a block on a card that is not high-capacity, in 32 bits. */
  function ByteAddress(block: u32): u32 { TruncU32(block * 512) }

  /** Every block of the card has an address of its own that does not wrap, exactly up to 2^23
      blocks, the bound up to which block_addr_of is defined. */
  lemma AddressableIff(capacity: nat)
    requires capacity < U32_LIMIT
    ensures (forall b: u32 | b < capacity :: ByteAddress(b) == b * 512) <==> capacity <= 0x80_0000
    ensures capacity <= 0x80_0000 ==>
              forall b: u32, c: u32 | b < capacity && c < capacity && b != c :: BlockAddrOf(b, false) != BlockAddrOf(c, false)
  {
    if capacity > 0x80_0000 {
      assert ByteAddress(0x80_0000) == 0;
    }
  }

  lemma {:induction false} Pow2Mono(a: nat, b: nat)
    requires a <= b
    ensures Pow2(a) <= Pow2(b)
    decreases b
  {
    if a < b {
      Pow2Mono(a, b - 1);
    }
  }

  /** A version 1.0 card with a block length the specification allows is addressable. */
  lemma Version1Addressable(r: Register)
    requires Version(r) == 0 && 9 <= ReadBlLen(r) <= 11
    ensures CapacityBlocks(r).Some? && CapacityBlocks(r).value <= 0x80_0000
  {
    CSize1Bound(r);
    Blocks1Bound(CSize1(r), CSizeMult(r), ReadBlLen(r));
  }

  lemma Blocks1Bound(c: nat, m: nat, l: nat)
    requires c < 4096 && m <= 7 && l <= 11
    ensures Blocks1(c, m, l) <= 0x80_0000
  {
    Pow2Mono(m + 2, 9);
    Pow2Mono(l, 11);
    Pow2To11();
    Product3(c + 1, 4096, Pow2(m + 2), 512, Pow2(l), 2048);
  }

  lemma Pow2To11()
    ensures Pow2(9) == 512 && Pow2(11) == 2048
  {
    assert Pow2(9) == 2 * Pow2(8) == 4 * Pow2(7) == 8 * Pow2(6) == 16 * Pow2(5);
    assert Pow2(5) == 2 * Pow2(4) == 4 * Pow2(3) == 8 * Pow2(2) == 16 * Pow2(1);
    assert Pow2(11) == 2 * Pow2(10) == 4 * Pow2(9);
  }

  lemma CSize1Bound(r: Register)
    ensures CSize1(r) < 4096
  {
  }

  lemma Product3(a: nat, a': nat, b: nat, b': nat, c: nat, c': nat)
    requires a <= a' && b <= b' && c <= c'
    ensures a * b * c <= a' * b' * c'
  {
    assert a * b <= a' * b';
    Scaled(a * b, a' * b', c, c');
  }

  lemma Scaled(x: nat, y: nat, c: nat, d: nat)
    requires x <= y && c <= d
    ensures x * c <= y * d
  {
  }

  /** A version 1.0 register with C_SIZE 4095, C_SIZE_MULT 7 and READ_BL_LEN 12. */
  const WIDE_BLOCKS: Register := [0, 0, 0, 0, 0, 12, 3, 255, 192, 3, 128, 0, 0, 0, 0, 0]

  /** It reports 2^24 blocks, and two blocks of that card share an address. */
  lemma WideBlockLengthCollides()
    ensures CapacityBlocks(WIDE_BLOCKS) == Some(0x100_0000)
    ensures ByteAddress(0x80_0000) == ByteAddress(0)
  {
    Pow2Values();
    Pow2To11();
    assert CSize1(WIDE_BLOCKS) == 4095 && CSizeMult(WIDE_BLOCKS) == 7 && ReadBlLen(WIDE_BLOCKS) == 12;
  }
}
