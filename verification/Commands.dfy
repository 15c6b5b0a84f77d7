/** SD/MMC commands and the encoding of their arguments. */
module Commands {
  import opened MachineInts

  datatype ResponseType = RespNone | RespR1 | RespR1b | RespR2 | RespR3 | RespR4 | RespR5 | RespR6 | RespR7

  datatype DataDirection = NoData | ReadData | WriteData

  /** The data phase the next command carries, as both controller drivers hold it. */
  datatype PendingData = PendingData(direction: DataDirection, blockSize: u32, blockCount: u32)

  datatype Command = Command(cmd: u8, arg: u32, resp: ResponseType) {
    function DataDirection(): DataDirection {
      if cmd == 17 || cmd == 18 then ReadData
      else if cmd == 24 || cmd == 25 then WriteData
      else NoData
    }
  }

  const Cmd0 := Command(0, 0, RespNone)
  const Cmd2 := Command(2, 0, RespR2)
  const Cmd3Sd := Command(3, 0, RespR6)
  const Cmd8Mmc := Command(8, 0, RespR1)
  const Cmd11 := Command(11, 0, RespR1)
  const Cmd12 := Command(12, 0, RespR1b)

  function Cmd1(window: u32): Command { Command(1, window, RespR3) }

  /** The RCA travels in the upper half of the argument. */
  function RcaArg(rca: u16): u32 { rca * 0x1_0000 }

  function Cmd3Mmc(rca: u16): Command { Command(3, RcaArg(rca), RespR1) }
  function Cmd7(rca: u16): Command { Command(7, RcaArg(rca), RespR1b) }
  function Cmd9(rca: u16): Command { Command(9, RcaArg(rca), RespR2) }
  function Cmd13(rca: u16): Command { Command(13, RcaArg(rca), RespR1) }
  function Cmd55(rca: u16): Command { Command(55, RcaArg(rca), RespR1) }

  function Cmd8(voltage: u8, pattern: u8): Command {
    Command(8, voltage * 0x100 + pattern, RespR7)
  }

  function Cmd17(addr: u32): Command { Command(17, addr, RespR1) }
  function Cmd18(addr: u32): Command { Command(18, addr, RespR1) }
  function Cmd24(addr: u32): Command { Command(24, addr, RespR1) }
  function Cmd25(addr: u32): Command { Command(25, addr, RespR1) }

  /** CMD6 SWITCH_FUNC on group 1; the other groups are left unchanged (0xF). */
  function Cmd6AccessMode(switch: bool, fn: u8): Command {
    Command(6, (if switch then 0x8000_0000 else 0) + 0x00FF_FFF0 + fn % 16, RespR1)
  }

  /** ACMD6: bus width. */
  function Acmd6(arg: u32): Command { Command(6, arg, RespR1) }

  /** CMD6 SWITCH of MMC: access mode, EXT_CSD index, value. */
  function Cmd6MmcSwitch(access: u8, index: u8, value: u8): Command {
    Command(6, access * 0x100_0000 + index * 0x1_0000 + value * 0x100, RespR1b)
  }

  function Cmd41(hcs: bool, window: u32, s18r: bool): Command {
    Command(41,
            (if hcs then 0x4000_0000 else 0) + (if s18r then 0x100_0000 else 0)
            + window % 0x100_0000 / 0x800 * 0x800,
            RespR3)
  }

  /** block_addr_of: SDSC cards take byte addresses. */
  function BlockAddrOf(addr: u32, highCapacity: bool): u32
    requires highCapacity || addr < 0x80_0000
  {
    if highCapacity then addr else addr * 512
  }
}
