/** The words a card answers with, put together from their fields by bit number (sections 4.9,
    4.10 and 5.1 of the SD Physical Layer Specification, sections 6.13 and 7 of JESD84-B51);
    the drivers read the fields back. */
module CardWords {
  import opened Errors
  import opened MachineInts
  import opened Arithmetic
  import opened Commands
  import opened CardSide
  import opened SdioEvents
  import opened SdioProtocol
  import opened SdLadder
  import opened MmcOutcome

  /** A field from bit n on. */
  function At(v: nat, n: nat): nat {
    v * Pow2(n)
  }

  /** Operating conditions: power-up finished, capacity status, bit 29, bits 28..25, S18A,
      nine voltage bits, the rest. */
  function OcrWord(up: bool, ccs: bool, bit29: bool, mid: nat, s18a: bool, volts: nat, low: nat): nat {
    Flag(up, 31) + Flag(ccs, 30) + Flag(bit29, 29) + At(mid, 25) + Flag(s18a, 24) + At(volts, 15) + low
  }

  /** Card status: bits 31..13, CURRENT_STATE, READY_FOR_DATA, SWITCH_ERROR, bits 6..0. */
  function StatusWord(high: nat, state: nat, ready: bool, switchError: bool, low: nat): nat {
    At(high, 13) + At(state, 9) + Flag(ready, 8) + Flag(switchError, 7) + low
  }

  const TRAN: nat := 4

  lemma BitIs(x: nat, n: nat, top: nat, up: bool, low: nat)
    requires low < Pow2(n) && x == (2 * top + (if up then 1 else 0)) * Pow2(n) + low
    ensures Bit(x, Pow2(n)) <==> up
  {
    QuotientIs(x, Pow2(n), 2 * top + (if up then 1 else 0), low);
  }

  lemma OcrReads(up: bool, ccs: bool, bit29: bool, mid: nat, s18a: bool, volts: nat, low: nat)
    requires mid < 16 && volts < 0x200 && low < 0x8000
    ensures var w := OcrWord(up, ccs, bit29, mid, s18a, volts, low);
            && w < U32_LIMIT
            && (PoweredUp(w) <==> up) && (HighCapacity(w) <==> ccs) && (Accepts18(w) <==> s18a)
  {
    Powers();
    LargePowers();
    var w := OcrWord(up, ccs, bit29, mid, s18a, volts, low);
    var u, c, b, s := if up then 1 else 0, if ccs then 1 else 0, if bit29 then 1 else 0, if s18a then 1 else 0;
    var tail := volts * 0x8000 + low;
    assert w == u * 0x8000_0000 + c * 0x4000_0000 + b * 0x2000_0000 + mid * 0x200_0000 + s * 0x100_0000 + tail;
    BitIs(w, 31, 0, up, c * 0x4000_0000 + b * 0x2000_0000 + mid * 0x200_0000 + s * 0x100_0000 + tail);
    BitIs(w, 30, u, ccs, b * 0x2000_0000 + mid * 0x200_0000 + s * 0x100_0000 + tail);
    BitIs(w, 24, u * 0x40 + c * 0x20 + b * 0x10 + mid, s18a, tail);
  }

  /** CMD1 asks for sector mode, repeats bit 29 and the voltages the card offered, or all of
      2.7 to 3.6 V if it offered none. */
  lemma MmcConditionArrives(up: bool, ccs: bool, bit29: bool, mid: nat, s18a: bool, volts: nat, low: nat)
    requires mid < 16 && volts < 0x200 && low < 0x8000
    ensures var w := OcrWord(up, ccs, bit29, mid, s18a, volts, low);
            w < U32_LIMIT &&
            Arrives(Cmd1(MmcOpCondArg(w)), true, false,
                    MmcOperatingCondition(if bit29 then 3 else 2, if volts == 0 then 0x1FF else volts))
  {
    Powers();
    LargePowers();
    var w := OcrWord(up, ccs, bit29, mid, s18a, volts, low);
    var u, c, b, s := if up then 1 else 0, if ccs then 1 else 0, if bit29 then 1 else 0, if s18a then 1 else 0;
    OcrReads(up, ccs, bit29, mid, s18a, volts, low);
    BitIs(w, 29, 2 * u + c, bit29, mid * 0x200_0000 + s * 0x100_0000 + volts * 0x8000 + low);
    FieldIs(w, 23, 15, u * 0x80 + c * 0x40 + b * 0x20 + mid * 2 + s, volts, low);
    var window := if volts == 0 then 0x1FF else volts;
    var a := MmcOpCondArg(w);
    assert a == 0x4000_0000 + b * 0x2000_0000 + window * 0x8000;
    FieldIs(a, 30, 29, 0, 2 + b, window * 0x8000);
    FieldIs(a, 23, 15, 0x40 + b * 0x20, window, 0);
  }

  /** EXT_CSD bytes 183 and 185 are BUS_WIDTH and HS_TIMING; they are written whole. */
  lemma SwitchesArrive(value: u8)
    ensures Arrives(Cmd6MmcSwitch(WRITE_BYTE, BUS_WIDTH, value), true, false, SwitchByte(3, 183, value))
    ensures Arrives(Cmd6MmcSwitch(WRITE_BYTE, HS_TIMING, value), true, false, SwitchByte(3, 185, value))
  {
    SwitchByteArrives(WRITE_BYTE, BUS_WIDTH, value);
    SwitchByteArrives(WRITE_BYTE, HS_TIMING, value);
  }

  /** The voltages ACMD41 asks for: all of 2.7 to 3.6 V and no other bit. */
  lemma WindowIsFull()
    ensures OCR_WINDOW == 0x1FF * Pow2(15)
  {
    Powers();
  }

  lemma StatusReads(high: nat, state: nat, ready: bool, switchError: bool, low: nat)
    requires high < 0x8_0000 && state < 16 && low < 0x80
    ensures var w := StatusWord(high, state, ready, switchError, low);
            && w < U32_LIMIT
            && (ReadyForData(w) <==> ready) && (SwitchError(w) <==> switchError) && (InTransfer(w) <==> state == TRAN)
            && (Settled(Ok(R1(w))) <==> ready && state == TRAN)
            && (Confirms(Ok(R1(w))) <==> ready && state == TRAN && !switchError)
  {
    Powers();
    var w := StatusWord(high, state, ready, switchError, low);
    var r, e := if ready then 1 else 0, if switchError then 1 else 0;
    assert w == high * 0x2000 + state * 0x200 + r * 0x100 + e * 0x80 + low;
    BitIs(w, 8, high * 16 + state, ready, e * 0x80 + low);
    BitIs(w, 7, high * 32 + state * 2 + r, switchError, low);
    FieldIs(w, 12, 9, high, state, r * 0x100 + e * 0x80 + low);
  }

  /** R6: the address in bits 31..16. */
  lemma RcaReads(rca: u16, status: u16)
    ensures PublishedRca(rca * 0x1_0000 + status) == rca
  {
    QuotientIs(rca * 0x1_0000 + status, 0x1_0000, rca, status);
  }

  /** R7: voltage accepted in bits 11..8, check pattern in bits 7..0. */
  lemma EchoReads(high: nat, voltage: nat, pattern: nat, v: u8, p: u8)
    requires high < 0x10_0000 && voltage < 16 && pattern < 0x100
    ensures var w := At(high, 12) + At(voltage, 8) + pattern;
            w < U32_LIMIT && (Echoes(w, v, p) <==> voltage == v && pattern == p)
  {
    Powers();
    var w := At(high, 12) + At(voltage, 8) + pattern;
    FieldIs(w, 11, 8, high, voltage, pattern);
    FieldIs(w, 7, 0, high * 16 + voltage, pattern, 0);
  }

  // ----- Widths and clocks -----

  function Lines(w: BusWidth): nat {
    match w
    case Bit1 => 1
    case Bit4 => 4
    case Bit8 => 8
  }

  /** ACMD6 codes a width as the logarithm of its lines; EXT_CSD as 0, or as one less. */
  lemma WidthCodes(w: BusWidth)
    ensures w != Bit8 ==> exists code | code == 0 || code == 2 :: Lines(w) == Pow2(code) && Acmd6Width(code) == Some(w)
    ensures var code := WidthByte(w); Lines(w) == (if code == 0 then 1 else Pow2(code + 1)) && ByteWidth(code) == Some(w)
  {
    Powers();
    assert Acmd6Width(0) == Some(Bit1) && Acmd6Width(2) == Some(Bit4);
  }

  /** What the speed modes of the standards permit. */
  function PermittedHz(s: ClockSpeed): nat {
    match s
    case Identification => 400_000
    case DefaultSpeed => 25_000_000
    case HighSpeed => 50_000_000
    case Sdr12 => 25_000_000
    case Sdr25 => 50_000_000
    case Sdr50 => 100_000_000
    case Sdr104 => 208_000_000
    case Ddr50 => 50_000_000
    case Hs200 => 200_000_000
  }

  /** Every target is what its mode permits, but for SDR50 and SDR104 at half of it. */
  lemma TargetsPermitted(s: ClockSpeed)
    ensures TargetHz(s) == if s == Sdr50 || s == Sdr104 then PermittedHz(s) / 2 else PermittedHz(s)
  {
  }

  // ----- Advertised modes -----

  /** DEVICE_TYPE: bit 1 is 52 MHz, bits 4 and 5 are HS200 at 1.8 V and 1.2 V. */
  lemma DeviceTypeReads(ext: seq<u8>, top: nat, hs12: bool, hs18: bool, mid: nat, hs52: bool, hs26: bool)
    requires |ext| == 512 && top < 4 && mid < 4
    requires ext[196] == At(top, 6) + Flag(hs12, 5) + Flag(hs18, 4) + At(mid, 2) + Flag(hs52, 1) + Flag(hs26, 0)
    ensures SupportsHs52(ext) <==> hs52
    ensures SupportsHs200(ext) <==> hs18 || hs12
  {
    Powers();
    var x := ext[196];
    var a, b, c, d := if hs12 then 1 else 0, if hs18 then 1 else 0, if hs52 then 1 else 0, if hs26 then 1 else 0;
    assert Pow2(6) == 2 * Pow2(5);
    assert x == top * 64 + a * 32 + b * 16 + mid * 4 + c * 2 + d;
    BitIs(x, 5, top, hs12, b * 16 + mid * 4 + c * 2 + d);
    BitIs(x, 4, top * 2 + a, hs18, mid * 4 + c * 2 + d);
    BitIs(x, 1, top * 16 + a * 8 + b * 4 + mid, hs52, d);
  }
}
