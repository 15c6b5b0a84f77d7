/** The command registers of both controllers, and what the hardware reads out of them: the CMD
    register of the DW_mshc, and section 2.2.6 of the SD Host Controller specification. */
module CommandRegister {
  import opened Errors
  import opened Arithmetic
  import opened Commands
  import opened CardSide

  /** A response whose CRC the card computes; R3 and R4 carry none. */
  predicate HasCrc(resp: ResponseType) {
    resp != RespNone && resp != RespR3 && resp != RespR4
  }

  // ----- DW_mshc -----

  function DwResponseBits(resp: ResponseType): nat {
    match resp
    case RespNone => 0
    case RespR2 => 0x1C0
    case RespR3 => 0x40
    case RespR4 => 0x40
    case _ => 0x140
  }

  /** encode_command: start, hold register, wait for previous data, and what the command and its
      data phase ask for. */
  function DwCommand(c: Command, data: Option<DataDirection>): nat {
    0x8000_0000 + 0x2000_0000
    + (if c.cmd == 0 then 0x8000 else 0)
    + 0x2000
    + (if data.None? then 0 else if data.value == WriteData then 0x600 else 0x200)
    + DwResponseBits(c.resp) + c.cmd % 64
  }

  /** What the card interface unit makes of the register. */
  datatype Latched = Latched(start: bool, init: bool, autoStop: bool, write: bool, data: bool, crc: bool, long: bool, answered: bool, index: nat)

  function DwLatched(reg: nat): Latched {
    Latched(Field(reg, 31, 31) == 1, Field(reg, 15, 15) == 1, Field(reg, 12, 12) == 1, Field(reg, 10, 10) == 1, Field(reg, 9, 9) == 1,
            Field(reg, 8, 8) == 1, Field(reg, 7, 7) == 1, Field(reg, 6, 6) == 1, Field(reg, 5, 0))
  }

  /** The unit is told what the command is, whether it is answered and how, and which way its
      data go; it sends no stop of its own. */
  lemma DwCommandLatched(c: Command, data: Option<DataDirection>)
    ensures DwLatched(DwCommand(c, data))
         == Latched(true, c.cmd == 0, false, data == Some(WriteData), data.Some?, HasCrc(c.resp), c.resp == RespR2, c.resp != RespNone, c.cmd % 64)
  {
    var i, w, d := if c.cmd == 0 then 1 else 0, if data == Some(WriteData) then 1 else 0, if data.Some? then 1 else 0;
    var x, l, e := if HasCrc(c.resp) then 1 else 0, if c.resp == RespR2 then 1 else 0, if c.resp != RespNone then 1 else 0;
    assert DwResponseBits(c.resp) == x * 0x100 + l * 0x80 + e * 0x40;
    DwFields(DwCommand(c, data), i, w, d, x, l, e, c.cmd % 64);
  }

  lemma DwFields(reg: nat, i: nat, w: nat, d: nat, x: nat, l: nat, e: nat, index: nat)
    requires i < 2 && w < 2 && d < 2 && x < 2 && l < 2 && e < 2 && index < 64
    requires reg == 0xA000_0000 + i * 0x8000 + 0x2000 + w * 0x400 + d * 0x200 + x * 0x100 + l * 0x80 + e * 0x40 + index
    ensures DwLatched(reg) == Latched(true, i == 1, false, w == 1, d == 1, x == 1, l == 1, e == 1, index)
  {
    Powers();
    LargePowers();
    assert Pow2(10) == 2 * Pow2(9) && Pow2(6) == 2 * Pow2(5);
    var low := w * 0x400 + d * 0x200 + x * 0x100 + l * 0x80 + e * 0x40 + index;
    FieldIs(reg, 31, 31, 0, 1, 0x2000_0000 + i * 0x8000 + 0x2000 + low);
    FieldIs(reg, 15, 15, 0xA000, i, 0x2000 + low);
    FieldIs(reg, 12, 12, 0x5_0000 + i * 4 + 1, 0, low);
    FieldIs(reg, 10, 10, 0x14_0000 + i * 0x10 + 4, w, d * 0x200 + x * 0x100 + l * 0x80 + e * 0x40 + index);
    FieldIs(reg, 9, 9, 0x28_0000 + i * 0x20 + 8 + w, d, x * 0x100 + l * 0x80 + e * 0x40 + index);
    FieldIs(reg, 8, 8, 0x50_0000 + i * 0x40 + 0x10 + 2 * w + d, x, l * 0x80 + e * 0x40 + index);
    FieldIs(reg, 7, 7, 0xA0_0000 + i * 0x80 + 0x20 + 4 * w + 2 * d + x, l, e * 0x40 + index);
    FieldIs(reg, 6, 6, 0x140_0000 + i * 0x100 + 0x40 + 8 * w + 4 * d + 2 * x + l, e, index);
    FieldIs(reg, 5, 0, 0x280_0000 + i * 0x200 + 0x80 + 16 * w + 8 * d + 4 * x + 2 * l + e, index, 0);
  }

  // ----- SDHCI -----

  function SdhciResponseBits(resp: ResponseType): nat {
    match resp
    case RespNone => 0
    case RespR1b => 0x1B
    case RespR2 => 0x09
    case RespR3 => 0x02
    case RespR4 => 0x02
    case _ => 0x1A
  }

  /** encode_command. */
  function SdhciCommand(c: Command, hasData: bool): nat {
    c.cmd * 0x100 + (if hasData then 0x20 else 0) + SdhciResponseBits(c.resp)
  }

  /** Bits 1..0: no response, 136 bits, 48 bits, 48 bits with busy. */
  datatype Selected = Selected(index: nat, data: bool, indexCheck: bool, crcCheck: bool, response: nat)

  function SdhciSelected(reg: nat): Selected {
    Selected(Field(reg, 13, 8), Field(reg, 5, 5) == 1, Field(reg, 4, 4) == 1, Field(reg, 3, 3) == 1, Field(reg, 1, 0))
  }

  function ResponseSelect(resp: ResponseType): nat {
    if resp == RespNone then 0 else if resp == RespR2 then 1 else if resp == RespR1b then 3 else 2
  }

  /** The index is checked in every response that repeats it: not in R2, R3 and R4. */
  lemma SdhciCommandSelected(c: Command, hasData: bool)
    requires c.cmd < 64
    ensures SdhciSelected(SdhciCommand(c, hasData))
         == Selected(c.cmd, hasData, HasCrc(c.resp) && c.resp != RespR2, HasCrc(c.resp), ResponseSelect(c.resp))
  {
    Powers();
    assert Pow2(6) == 2 * Pow2(5);
    var reg, k := SdhciCommand(c, hasData), ResponseSelect(c.resp);
    var d, x, n := if hasData then 1 else 0, if HasCrc(c.resp) then 1 else 0, if HasCrc(c.resp) && c.resp != RespR2 then 1 else 0;
    assert reg == c.cmd * 0x100 + d * 0x20 + n * 0x10 + x * 8 + k;
    FieldIs(reg, 13, 8, 0, c.cmd, d * 0x20 + n * 0x10 + x * 8 + k);
    FieldIs(reg, 5, 5, c.cmd * 4, d, n * 0x10 + x * 8 + k);
    FieldIs(reg, 4, 4, c.cmd * 8 + d, n, x * 8 + k);
    FieldIs(reg, 3, 3, c.cmd * 16 + 2 * d + n, x, k);
    FieldIs(reg, 1, 0, c.cmd * 64 + 8 * d + 4 * n + 2 * x, k, 0);
  }
}
