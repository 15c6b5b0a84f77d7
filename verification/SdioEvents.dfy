/** What the protocol layer asks of an SDIO host and what comes back. */
module SdioEvents {
  import opened Errors
  import opened MachineInts
  import opened Commands

  datatype BusWidth = Bit1 | Bit4 | Bit8

  datatype ClockSpeed = Identification | DefaultSpeed | HighSpeed | Sdr12 | Sdr25 | Sdr50 | Sdr104 | Ddr50 | Hs200

  /** The bus frequency of a speed; both controllers have this table. */
  function TargetHz(speed: ClockSpeed): u32 {
    match speed
    case Identification => 400_000
    case DefaultSpeed => 25_000_000
    case Sdr12 => 25_000_000
    case HighSpeed => 50_000_000
    case Sdr25 => 50_000_000
    case Sdr50 => 50_000_000
    case Ddr50 => 50_000_000
    case Sdr104 => 104_000_000
    case Hs200 => 200_000_000
  }

  datatype Voltage = V330 | V180 | V120

  datatype Response =
    | NoResponse
    | R1(raw: u32) | R1b(raw: u32)
    | R2(register: seq<u8>)
    | R3(raw: u32) | R4(raw: u32) | R5(raw: u32) | R6(raw: u32) | R7(raw: u32)

  datatype Event =
    | Cmd(c: Command, reply: Result<Response>)
    | DataIn(c: Command, data: Result<seq<u8>>)
    | SetWidth(width: BusWidth, ok: bool)
    | SetClock(speed: ClockSpeed, ok: bool)
    | SetVoltage(voltage: Voltage, answer: Result<()>)
    | Tune(index: u8, ok: bool)
    | Delay(ms: nat)

  // ----- Fields of the responses -----

  /** The bit of a given weight. */
  predicate Bit(x: nat, weight: nat)
    requires weight > 0
  {
    x / weight % 2 == 1
  }

  predicate PoweredUp(ocr: u32) { Bit(ocr, 0x8000_0000) }

  predicate HighCapacity(ocr: u32) { Bit(ocr, 0x4000_0000) }

  /** S18A: the card accepted 1.8 V signalling. */
  predicate Accepts18(ocr: u32) { Bit(ocr, 0x100_0000) }

  predicate SwitchError(status: u32) { Bit(status, 0x80) }

  predicate ReadyForData(status: u32) { Bit(status, 0x100) }

  /** CURRENT_STATE is tran. */
  predicate InTransfer(status: u32) { status / 0x200 % 16 == 4 }

  function PublishedRca(raw: u32): u16 { raw / 0x1_0000 }

  predicate Echoes(raw: u32, voltage: u8, pattern: u8) {
    raw / 0x100 % 16 == voltage && raw % 0x100 == pattern
  }
}
