/** The other end of the wire: what a card makes of a command, by the command indices and bit
    numbers of the SD Physical Layer Specification (section 4.7.4) and JESD84-B51 (section
    6.10.4). */
module CardSide {
  import opened MachineInts
  import opened Arithmetic
  import opened Commands

  function Flag(up: bool, n: nat): nat {
    if up then Pow2(n) else 0
  }

  // ----- Commands -----

  datatype Request =
    | GoIdle
    | AllSendCid
    | SendRelativeAddress
    | SetRelativeAddress(rca: nat)
    | SelectCard(rca: nat)
    | SendCsd(rca: nat)
    | SendStatus(rca: nat)
    | ApplicationCommand(rca: nat)
    | InterfaceCondition(voltage: nat, pattern: nat)
    | SendExtCsd
    | SwitchVoltage
    | Stop
    | ReadBlocks(open: bool, address: nat)
    | WriteBlocks(open: bool, address: nat)
    | SwitchFunction(change: bool, groups: seq<nat>)
    | SetLines(lines: nat)
    | SwitchByte(access: nat, index: nat, value: nat)
    | SdOperatingCondition(sdhc: bool, to18: bool, window: nat)
    | MmcOperatingCondition(mode: nat, window: nat)
    | Unknown

  /** What an SD card, or an eMMC, understands; `app` after an application command prefix. */
  function Understood(c: Command, mmc: bool, app: bool): Request {
    var a := c.arg;
    if app then
      if c.cmd == 6 then SetLines(Pow2(Field(a, 1, 0)))
      else if c.cmd == 41 then SdOperatingCondition(Field(a, 30, 30) == 1, Field(a, 24, 24) == 1, Field(a, 23, 11))
      else Unknown
    else if mmc && c.cmd == 1 then MmcOperatingCondition(Field(a, 30, 29), Field(a, 23, 15))
    else if mmc && c.cmd == 3 then SetRelativeAddress(Field(a, 31, 16))
    else if mmc && c.cmd == 6 then SwitchByte(Field(a, 25, 24), Field(a, 23, 16), Field(a, 15, 8))
    else if mmc && c.cmd == 8 then SendExtCsd
    else if c.cmd == 3 then SendRelativeAddress
    else if c.cmd == 6 then
      SwitchFunction(Field(a, 31, 31) == 1, seq(6, g requires 0 <= g < 6 => Field(a, 4 * g + 3, 4 * g)))
    else if c.cmd == 8 then InterfaceCondition(Field(a, 11, 8), Field(a, 7, 0))
    else if c.cmd == 11 then SwitchVoltage
    else match c.cmd
         case 0 => GoIdle
         case 2 => AllSendCid
         case 7 => SelectCard(Field(a, 31, 16))
         case 9 => SendCsd(Field(a, 31, 16))
         case 12 => Stop
         case 13 => SendStatus(Field(a, 31, 16))
         case 17 => ReadBlocks(false, a)
         case 18 => ReadBlocks(true, a)
         case 24 => WriteBlocks(false, a)
         case 25 => WriteBlocks(true, a)
         case 55 => ApplicationCommand(Field(a, 31, 16))
         case _ => Unknown
  }

  /** The kind of response a request is answered with. */
  function AnswerTo(r: Request): ResponseType {
    match r
    case GoIdle => RespNone
    case AllSendCid => RespR2
    case SendCsd(_) => RespR2
    case SdOperatingCondition(_, _, _) => RespR3
    case MmcOperatingCondition(_, _) => RespR3
    case SendRelativeAddress => RespR6
    case InterfaceCondition(_, _) => RespR7
    case SelectCard(_) => RespR1b
    case Stop => RespR1b
    case SwitchByte(_, _, _) => RespR1b
    case _ => RespR1
  }

  /** The request arrives as meant, and its answer is expected in the form it comes in. */
  predicate Arrives(c: Command, mmc: bool, app: bool, r: Request) {
    Understood(c, mmc, app) == r && c.resp == AnswerTo(r)
  }

  lemma Powers()
    ensures Pow2(1) == 2 && Pow2(2) == 4 && Pow2(3) == 8 && Pow2(4) == 0x10
    ensures Pow2(5) == 0x20 && Pow2(7) == 0x80 && Pow2(8) == 0x100 && Pow2(9) == 0x200
    ensures Pow2(11) == 0x800 && Pow2(12) == 0x1000 && Pow2(13) == 0x2000 && Pow2(15) == 0x8000 && Pow2(16) == 0x1_0000
  {
    assert Pow2(4) == 2 * Pow2(3) == 4 * Pow2(2) == 8 * Pow2(1);
    assert Pow2(8) == 2 * Pow2(7) == 4 * Pow2(6) == 8 * Pow2(5) == 0x10 * Pow2(4);
    assert Pow2(12) == 2 * Pow2(11) == 4 * Pow2(10) == 8 * Pow2(9) == 0x10 * Pow2(8);
    assert Pow2(16) == 2 * Pow2(15) == 4 * Pow2(14) == 8 * Pow2(13) == 0x10 * Pow2(12);
  }

  lemma LargePowers()
    ensures Pow2(20) == 0x10_0000 && Pow2(24) == 0x100_0000 && Pow2(25) == 0x200_0000
    ensures Pow2(29) == 0x2000_0000 && Pow2(30) == 0x4000_0000 && Pow2(31) == 0x8000_0000
  {
    Powers();
    assert Pow2(20) == 2 * Pow2(19) == 4 * Pow2(18) == 8 * Pow2(17) == 0x10 * Pow2(16);
    assert Pow2(24) == 2 * Pow2(23) == 4 * Pow2(22) == 8 * Pow2(21) == 0x10 * Pow2(20);
    assert Pow2(28) == 2 * Pow2(27) == 4 * Pow2(26) == 8 * Pow2(25) == 0x10 * Pow2(24);
    assert Pow2(31) == 2 * Pow2(30) == 4 * Pow2(29) == 8 * Pow2(28);
  }

  /** The commands without an argument. */
  lemma PlainArrive(mmc: bool)
    ensures Arrives(Cmd0, mmc, false, GoIdle) && Arrives(Cmd2, mmc, false, AllSendCid)
    ensures Arrives(Cmd12, mmc, false, Stop) && Arrives(Cmd11, false, false, SwitchVoltage)
    ensures Arrives(Cmd3Sd, false, false, SendRelativeAddress) && Arrives(Cmd8Mmc, true, false, SendExtCsd)
  {
  }

  lemma ProbeArrives(voltage: u8, pattern: u8)
    requires voltage < 16
    ensures Arrives(Cmd8(voltage, pattern), false, false, InterfaceCondition(voltage, pattern))
  {
    Powers();
    FieldIs(Cmd8(voltage, pattern).arg, 11, 8, 0, voltage, pattern);
    FieldIs(Cmd8(voltage, pattern).arg, 7, 0, voltage, pattern, 0);
  }

  /** ACMD6 with 0 is one line, with 2 four. */
  lemma WidthArrives(arg: u32)
    requires arg == 0 || arg == 2
    ensures Arrives(Acmd6(arg), false, true, SetLines(if arg == 0 then 1 else 4))
  {
    Powers();
    FieldIs(arg, 1, 0, 0, arg, 0);
  }

  /** The commands that address a card. */
  lemma AddressedArrive(rca: u16, mmc: bool)
    ensures Arrives(Cmd7(rca), mmc, false, SelectCard(rca)) && Arrives(Cmd9(rca), mmc, false, SendCsd(rca))
    ensures Arrives(Cmd13(rca), mmc, false, SendStatus(rca)) && Arrives(Cmd55(rca), mmc, false, ApplicationCommand(rca))
    ensures Arrives(Cmd3Mmc(rca), true, false, SetRelativeAddress(rca))
  {
    Powers();
  }

  lemma DataArrive(address: u32, mmc: bool)
    ensures Arrives(Cmd17(address), mmc, false, ReadBlocks(false, address))
    ensures Arrives(Cmd18(address), mmc, false, ReadBlocks(true, address))
    ensures Arrives(Cmd24(address), mmc, false, WriteBlocks(false, address))
    ensures Arrives(Cmd25(address), mmc, false, WriteBlocks(true, address))
  {
  }

  /** The data command of a transfer of n blocks: open-ended exactly for more than one. */
  lemma TransferArrives(write: bool, start: u32, n: nat)
    ensures Arrives(TransferCommand(write, start, n), false, false,
                    if write then WriteBlocks(n > 1, start) else ReadBlocks(n > 1, start))
  {
    DataArrive(start, false);
  }

  /** The index every controller path must choose. */
  function TransferCommand(write: bool, start: u32, n: nat): Command {
    Command(if n > 1 then (if write then 25 else 18) else if write then 24 else 17, start, RespR1)
  }

  /** Whether a card is in an open-ended transfer after some commands: until a stop. */
  predicate Streaming(cmds: seq<Command>) {
    cmds != [] &&
    match Understood(cmds[|cmds| - 1], false, false)
    case ReadBlocks(open, _) => open
    case WriteBlocks(open, _) => open
    case Stop => false
    case _ => Streaming(cmds[..|cmds| - 1])
  }

  /** With its stop a transfer is over; without one, exactly if it had one block. */
  lemma TransferEnds(write: bool, start: u32, n: nat)
    ensures !Streaming([TransferCommand(write, start, n)] + (if n > 1 then [Cmd12] else []))
    ensures Streaming([TransferCommand(write, start, n)]) <==> n > 1
  {
    TransferArrives(write, start, n);
    PlainArrive(false);
  }

  /** SWITCH_FUNC sets group 1 and leaves the other five as they are. */
  lemma SwitchArrives(change: bool, f: u8)
    requires f < 16
    ensures Arrives(Cmd6AccessMode(change, f), false, false, SwitchFunction(change, [f, 15, 15, 15, 15, 15]))
  {
    Powers();
    LargePowers();
    var top := if change then 1 else 0;
    var a := Cmd6AccessMode(change, f).arg;
    FieldIs(a, 31, 31, 0, top, 0x00FF_FFF0 + f);
    FieldIs(a, 3, 0, top * 0x800_0000 + 0x0F_FFFF, f, 0);
    FieldIs(a, 7, 4, top * 0x80_0000 + 0xFFFF, 15, f);
    FieldIs(a, 11, 8, top * 0x8_0000 + 0xFFF, 15, 0xF0 + f);
    FieldIs(a, 15, 12, top * 0x8000 + 0xFF, 15, 0xFF0 + f);
    FieldIs(a, 19, 16, top * 0x800 + 0xF, 15, 0xFFF0 + f);
    FieldIs(a, 23, 20, top * 0x80, 15, 0xF_FFF0 + f);
    assert Understood(Cmd6AccessMode(change, f), false, false).groups == [f, 15, 15, 15, 15, 15];
  }

  lemma SwitchByteArrives(access: u8, index: u8, value: u8)
    requires access < 4
    ensures Arrives(Cmd6MmcSwitch(access, index, value), true, false, SwitchByte(access, index, value))
  {
    Powers();
    LargePowers();
    var a := Cmd6MmcSwitch(access, index, value).arg;
    FieldIs(a, 25, 24, 0, access, index * 0x1_0000 + value * 0x100);
    FieldIs(a, 23, 16, access, index, value * 0x100);
    FieldIs(a, 15, 8, access * 0x100 + index, value, 0);
  }

  lemma SdConditionArrives(sdhc: bool, window: u32, to18: bool)
    ensures Arrives(Cmd41(sdhc, window, to18), false, true, SdOperatingCondition(sdhc, to18, Field(window, 23, 11)))
  {
    Powers();
    LargePowers();
    var a := Cmd41(sdhc, window, to18).arg;
    var field := window % 0x100_0000 / 0x800;
    var h, t := if sdhc then 1 else 0, if to18 then 1 else 0;
    assert a == h * 0x4000_0000 + t * 0x100_0000 + field * 0x800;
    FieldIs(a, 30, 30, 0, h, t * 0x100_0000 + field * 0x800);
    FieldIs(a, 24, 24, h * 0x20, t, field * 0x800);
    FieldIs(a, 23, 11, h * 0x40 + t, field, 0);
    FieldIs(window, 23, 11, window / 0x100_0000, field, window % 0x800);
  }
}
