/** The card's side of an SPI data transfer, by the tokens of section 7.3.3 of the SD Physical
    Layer Specification. */
module SpiCard {
  import opened Crc16

  /** What a card does with a data packet. */
  datatype Verdict = Took | BadCrc | WriteFault

  function Status(v: Verdict): byte {
    match v
    case Took => 2
    case BadCrc => 5
    case WriteFault => 6
  }

  /** A data response token is xxx0sss1. */
  function DataResponse(x: byte, v: Verdict): byte {
    (x << 5) | (Status(v) << 1) | 1
  }

  predicate Says(token: byte, v: Verdict) {
    token & 1 == 1 && (token >> 1) & 7 == Status(v) && (token >> 4) & 1 == 0
  }

  /** Whatever the three open bits, a token says one thing. */
  lemma TokenSays(x: byte, v: Verdict, w: Verdict)
    ensures Says(DataResponse(x, v), w) <==> v == w
  {
    match v
    case Took =>
    case BadCrc =>
    case WriteFault =>
  }

  /** Bits 4..0 of a token of a card that took the block are 00101, and of no other. */
  lemma TookIff(token: byte)
    ensures Says(token, Took) <==> token & 0x1F == 0x05
  {
  }

  /** An R1 byte, by its seven bits from bit 6 on; bit 7 is 0. */
  function R1Byte(parameter: bool, address: bool, erase: bool, crc: bool, illegal: bool, reset: bool, idle: bool): byte {
    (if parameter then 0x40 else 0) | (if address then 0x20 else 0) | (if erase then 0x10 else 0) | (if crc then 0x08 else 0)
    | (if illegal then 0x04 else 0) | (if reset then 0x02 else 0) | (if idle then 0x01 else 0)
  }

  /** A card judges a packet by its CRC, then by its memory. */
  function Judge(data: seq<byte>, hi: byte, lo: byte, stored: bool): Verdict {
    if !BlockOk(data, hi, lo) then BadCrc else if stored then Took else WriteFault
  }
}
