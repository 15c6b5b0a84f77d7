# Verified model of the SD/MMC driver stack

A Dafny model of the protocol crate `sdmmc-protocol` (SPI and SDIO transports) and of its two
controller back ends, `sdhci-host` and `dwmmc-host`, with proofs of what the drivers promise
about the wire, the DMA engines, the card and the clock.

Every outside party is adversarial: the SPI bus, the SDIO host, controller registers, the card
behind a FIFO and the moment at which hardware latches a register are nondeterministic, and what
happened is kept in ghost traces. A driver method says how its result follows from the trace it
left; theorems about all runs are lemmas about such traces.

Where driver and specification could share a mistake, a second party decides: cards, engines and
controllers are written down from their own specifications, in bit numbers, and do not use the
drivers' constants or functions.

Check it with `dafny verify dfyconfig.toml`.

| part | modules | main results |
|---|---|---|
| GF(2) division | `Gf2` | the one-bit-at-a-time register computes the unique polynomial remainder; bursts, parity |
| Block CRC | `Crc16`, `Crc16Distance` | the table-free loop is that remainder; no 1, 2 or 3 flipped bits pass in blocks up to 4093 bytes (x has order 32767), 4 can |
| Command frames | `Commands`, `CommandFrame`, `FrameCode` | CRC-7 with its stray bit 7, frames parse back, any two commands differ in 3 bits |
| The card | `CardSide`, `CardWords`, `SpiCard` | what a card makes of every command and packet, and the words it answers with, by the bit numbers of its specification; the drivers mean and read the same |
| SPI transport | `SpiBus`, `SpiDriver`, `SpiTheorems` | exact poll budgets, read outcome as a function of the bytes received, transmit and receive invert each other, a write succeeds only if the card took every block |
| ADMA2 | `Adma2`, `SdhciTransfer`, `DmaMemory`, `CommandRegister` | a controller that goes by its registers moves exactly the buffer, in the right direction |
| IDMAC | `Idmac`, `IdmacDriver` | the same for the DW_mshc chain, from guards to command register, and for the command the card sees |
| Card bring-up | `SdioEvents`, `SdioProtocol`, `SdioHost`, `SdLadder`, `LadderTrace`, `Hs200Entry`, `MmcOutcome`, `SdioDriver`, `SdioGrammar` | every run of `init` follows the protocol within 420 commands and 3 s; speed ladders; when host, card and driver agree afterwards |
| Block I/O | `BlockIo` | write then read over an abstract card memory |
| Clocks | `DwClock`, `SdhciClock` | no divider change on a running clock; least divider, exact bound |
| Data ports | `LittleEndian`, `DwFifo`, `FifoLoss`, `SdhciPio` | byte conservation through the FIFO, and exactly when it can lose a word; pack and unpack invert each other |
| CSD | `Csd` | three transports, one capacity; block addresses |

`Errors`, `MachineInts`, `Arithmetic` and `CommandLog` (what a controller driver does around its
command register) hold what these share.

## Where the code falls short of its description

- The SDHCI divider search compares a truncated quotient, so for an arbitrary base clock the bus
  may run above its target (`SdhciClock.TruncationOvershoots`). `SdhciClock.ExactIff` says from
  base and target alone when it does not, and for every clock a capability register can state it
  does not (`SdhciClock.CapabilityExact`). From 2046 (target + 1) Hz on the search falls through
  and the clock is not divided at all (`SdhciClock.OutOfReachUndivided`; 1 GHz for a 400 kHz
  target, `SdhciClock.UndividedGigahertz`).
- `build_descriptors` checks only the buffer's first address. The engine covers the buffer
  exactly when the buffer also ends at or below 4 GiB (`Adma2.EngineCoversBuffer`); 1 KiB at
  0xFFFF_FE00 does not (`Adma2.BufferAcross4GiB`).
- DW_mshc `pio_write` stores 64 bits whenever one 32-bit word is free, and a store into a single
  free word loses its upper half. No timing of the bus makes it lose a word exactly if the buffer
  fits into the free words, or the bus takes pairs and the number of free words is even
  (`FifoLoss.NeverLosesIff`); otherwise `FifoLoss.LosingSchedule` gives a timing that does, and
  `FifoLoss.OneWordLost` one in numbers.
- `block_addr_of` wraps for a standard-capacity card of more than 2^23 blocks
  (`Csd.AddressableIff`), which a CSD with READ_BL_LEN 12 can describe
  (`Csd.WideBlockLengthCollides`).
- The documentation of `try_hs200` says that any failing step rolls the clock back. A failed
  entry does so exactly unless its CMD13 got no answer (`Hs200Entry.RollbackIff`); then the host
  stays at 200 MHz (`Hs200Entry.MissedRollback`). The comments also say that a host without
  voltage switching ends the attempt; the code goes on, and so does the model.
- An eMMC run can succeed with host, card and driver in disagreement, since `init` drops the
  errors of widening and speed selection. On a fresh driver the recorded width is the host's
  exactly if the card confirmed a width or the host took none after the first; an HS200 clock has
  its HS_TIMING exactly if HS200 was entered or the card has no 52 MHz timing to fall back to
  (`SdioDriver.MmcRunAgreesIff`). `MmcOutcome.WidthLeftBehind` and `MmcOutcome.ClockLeftBehind`
  are runs that end otherwise.
- SDHCI multi-block transfers set Auto CMD12, and the protocol layer sends CMD12 as well: the card
  sees two stops (`BlockIo.StopsIn`).
- The clock tables run SDR50 and SDR104 at half of what these modes permit
  (`CardWords.TargetsPermitted`).

## Model

| member | source | states |
|---|---|---|
| Gf2.RemainderIff | src/common.rs:20-33 | a shift register holds the remainder of m·x^w by the generator, and that remainder is unique |
| Gf2.ErrorUnnoticedIff | src/spi.rs:416-424 | a sent codeword plus an error passes exactly when the error is a multiple of the generator |
| Gf2.BurstNoticed | src/spi.rs:416-424 | no error confined to a window of the generator's degree passes, for messages of every length |
| Gf2.OddErrorNoticed | src/spi.rs:416-424 | a generator divisible by x + 1 catches every odd number of flipped bits |
| Crc16.Crc16Ccitt | src/common.rs:20-33 | xor-byte-at-the-top equals feeding the register bit by bit, for every byte sequence |
| Crc16.CrcIsRemainder | src/common.rs:20-33 | the CRC, and no other 16-bit value, is the remainder of M(x)·x^16 by x^16 + x^12 + x^5 + 1 |
| Crc16.CrcOfFramedBlock | src/common.rs:15-33 | any message followed by its big-endian CRC has CRC 0 |
| Crc16.BlockOkIff | src/spi.rs:416-424 | the receiver's comparison accepts exactly the codewords |
| Crc16.FlippedBits | src/spi.rs:416-424 | a corrupted block is accepted iff the flips are a multiple of the generator; bursts up to 16 bits and odd flips never |
| Crc16Distance.OrderIs | src/common.rs:20-33 | x has order exactly 32767 modulo the generator |
| Crc16Distance.TwoBits | src/common.rs:20-33 | two flipped bits cancel exactly when they are a multiple of 32767 places apart |
| Crc16Distance.ThreeFlipsNoticed | src/spi.rs:416-424 | one, two or three flipped bits in a frame of up to 32767 bits are never accepted |
| Crc16Distance.FourFlipsUnnoticed | src/spi.rs:416-424 | the distance is not larger than four |
| CommandFrame.Step7IsClock | src/cmd.rs:107-120 | one loop step, stray top bit included, is one clock of division by x^7 + x^3 + 1 in the low seven bits |
| CommandFrame.Crc7Update | src/cmd.rs:107-120 | a byte fed through the loop advances the remainder by its eight bits |
| CommandFrame.Crc7 | src/cmd.rs:87-97 | the shifted register with the end bit is the frame's CRC byte |
| CommandFrame.ToSpiBytes | src/cmd.rs:99-105 | the six bytes are the frame of the command |
| CommandFrame.FrameOnWire | src/cmd.rs:99-105 | on the wire a frame is its 40 message bits, their remainder, and a 1 |
| FrameCode.ParseRoundTrip | src/cmd.rs:87-105 | a receiver that checks start, CRC and end bit recovers index and argument |
| FrameCode.ParsedIsFrame | src/cmd.rs:87-105 | and accepts nothing but the driver's frames |
| FrameCode.LightWords | src/cmd.rs:107-120 | no nonzero multiple of the CRC-7 generator within 47 bits has fewer than three ones |
| FrameCode.FrameDistance | src/cmd.rs:87-120 | frames of different commands differ in at least three of their first 47 bits |
| CardSide.PlainArrive | src/cmd.rs:124-198 | CMD0, CMD2, CMD3, CMD8 (MMC), CMD11 and CMD12 are understood as what they are sent for, and answered in the form expected |
| CardSide.AddressedArrive | src/cmd.rs:133-203 | CMD3 (MMC), CMD7, CMD9, CMD13 and CMD55 reach the card with that address and no other |
| CardSide.ProbeArrives | src/cmd.rs:174-177 | CMD8 carries voltage and pattern |
| CardSide.DataArrive | src/cmd.rs:211-228 | CMD17, CMD18, CMD24 and CMD25: read or write, one block or open-ended, at that address |
| CardSide.SwitchArrives | src/cmd.rs:161-166 | SWITCH_FUNC names function f for group 1 and no change for the other five |
| CardSide.SwitchByteArrives | src/cmd.rs:301-304 | the MMC SWITCH carries access, index and value |
| CardSide.SdConditionArrives | src/cmd.rs:272-277 | ACMD41 carries capacity, 1.8 V request and voltages |
| CardSide.WidthArrives | src/sdio.rs:720-725 | ACMD6 with 0 is one line, with 2 four |
| CardSide.TransferEnds | src/sdio.rs:846-897 | a transfer leaves the card streaming exactly if it has several blocks and no stop |
| CardWords.OcrReads | src/response.rs:195-236 | power-up, capacity and S18A are read from bits 31, 30 and 24 of every OCR |
| CardWords.StatusReads | src/response.rs:133-168 | ready, switch error and state from bits 8, 7 and 12..9 of every status; a switch is confirmed exactly by ready, tran and no error |
| CardWords.RcaReads | src/response.rs:259-262 | the address is the upper half of R6 |
| CardWords.EchoReads | src/response.rs:281-294 | the echo of CMD8 is judged by bits 11..8 and 7..0 |
| CardWords.MmcConditionArrives | src/sdio.rs:476-523 | CMD1 repeats bit 29 and the voltages offered, or all if none, in sector mode |
| CardWords.WindowIsFull | src/sdio.rs:439-468 | ACMD41 asks for 2.7-3.6 V, bits 23..15 |
| CardWords.SwitchesArrive | src/cmd.rs:315-336 | BUS_WIDTH and HS_TIMING writes reach bytes 183 and 185 |
| CardWords.WidthCodes | src/sdio.rs:607-612 | both width codings stand for the lines the host drives |
| CardWords.DeviceTypeReads | src/ext_csd.rs:114-128 | 52 MHz and HS200 are read from bits 1, 4 and 5 of byte 196 |
| CardWords.TargetsPermitted | crates/sdhci-host/src/lib.rs:160-168 | every target is its mode's frequency, or half of it for SDR50 and SDR104 |
| SpiDriver.SpiSdmmc.WaitForResponse | src/spi.rs:375-389 | exact poll trace; first non-0xFF byte, or Timeout after exactly ceil(t/50) + 1 transfers |
| SpiTheorems.ResponseIsFirst | src/spi.rs:375-389 | the answers to such a trace: at most ceil(t/50) + 1, all 0xFF but the reported one |
| SpiDriver.SpiSdmmc.WaitNotBusy | src/spi.rs:457-469 | Ok exactly when the last answer is 0xFF, within the write budget |
| SpiDriver.SpiSdmmc.ReadDataInto | src/spi.rs:391-426 | the result, error included, is a function of the bytes received; buffer and trailer as read |
| SpiDriver.SpiSdmmc.SendPacket | src/spi.rs:267-284 | token, data, CRC, data response, busy; what the card says of the block in its response bits is what the caller is told (taken: Ok, or a busy time-out or failing bus; refused: WriteError) |
| SpiDriver.SpiSdmmc.WriteDataBlock | src/spi.rs:438-455 | the same for a single block, chip select released at its end |
| SpiDriver.SpiSdmmc.SendCommandRaw | src/spi.rs:306-367 | on success the trace is select, frame, polls, the reply's own bytes, and a deselect unless data follow; a failure is explained by the last bus event |
| SpiDriver.SpiSdmmc.ReadBlock | src/spi.rs:225-231 | CMD17 and a whole checked block, in that order, then deselect |
| SpiDriver.SpiSdmmc.WriteBlock | src/spi.rs:233-239 | CMD24 and one packet of the given bytes; Ok only if the card says it took it, WriteError if it says it did not |
| SpiDriver.SpiSdmmc.WriteBlocks | src/spi.rs:262-291 | every block taken in order with the multi-block token, then one stop sequence; a block the card refuses ends in WriteError |
| SpiDriver.SpiSdmmc.WaitReady | src/spi.rs:174-199 | CMD55 and ACMD41 alternate, a millisecond apart, all answered: Ok at the first R1 to ACMD41 without the idle bit, Timeout after exactly 1001 with it |
| SpiTheorems.CorruptedBlockRefused | src/spi.rs:391-426 | with verification on, bursts up to 16 bits and odd flips end in a CRC error; acceptance iff multiple of the generator |
| SpiTheorems.FewFlipsRefused | src/spi.rs:391-426 | up to 4093 bytes, so do one, two or three flips |
| SpiTheorems.ReadAnswers | src/spi.rs:391-426 | the bytes the card must have sent for each outcome of a read |
| SpiTheorems.BlockRoundTrip | src/spi.rs:391-455 | what the writer emits, after up to 2000 fill bytes, makes the reader return Ok with the same payload |
| SpiTheorems.OtherEndsDeviate | src/spi.rs:391-426 | on that stream no other outcome of the reader is possible |
| SpiTheorems.WrittenBlockTx | src/spi.rs:438-455 | bytes clocked out for a block: token, data, CRC, fill |
| SpiTheorems.CardSeesBlocks | src/spi.rs:262-291 | a card parser skipping fill recovers exactly the blocks with valid CRCs, one stop token, then fill |
| SpiTheorems.CardSeesBlock | src/spi.rs:233-239 | a card after CMD24 takes exactly the given block |
| SpiTheorems.AllKept | src/spi.rs:262-291 | whatever a card made of each packet and then said, after a successful write_blocks it has kept exactly the given blocks |
| SpiTheorems.PacketJudged | src/spi.rs:267-284 | a card that judges by CRC and memory: Ok only if the block is stored, WriteError if not |
| SpiCard.TookIff | src/spi.rs:277-277 | the mask test accepts exactly the tokens that say "taken" |
| SpiTheorems.R1Reads | src/response.rs:72-122 | every R1 is taken for one, with its idle and illegal-command bits |
| SpiTheorems.SpiConditionArrives | src/spi.rs:174-199 | ACMD41 in SPI mode: all of 2.7-3.6 V, high capacity for version 2, no 1.8 V |
| SpiTheorems.SelectedThroughout | src/spi.rs:262-291 | chip select stays asserted from CMD25 through the stop sequence |
| SpiTheorems.SelectedForBlock | src/spi.rs:225-239 | and from CMD17 to the last byte of its block, from CMD24 to ready |
| SpiTheorems.PayloadIfSent | src/spi.rs:320-356 | the bytes after R7 and R2 are read exactly if the card sends them |
| SpiTheorems.FirstByte | src/cmd.rs:99-105 | after chip select a command begins with its index, which tells CMD55 from CMD41 in a poll |
| SpiTheorems.OneAsked | src/spi.rs:174-199 | a poll for power-up is the prefix, then the command |
| SpiTheorems.PollLimits | src/spi.rs:375-469 | 2000, 2000 and 5000 delays for a response, a token and the end of busy |
| Adma2.BuildDescriptors | crates/sdhci-host/src/dma.rs:78-119 | Ok exactly for 0 < len ≤ 16·65528 below 4 GiB, each error by its cause; the chunks of the buffer, rest of the table untouched |
| Adma2.EngineCoversBuffer | crates/sdhci-host/src/dma.rs:78-119 | the engine touches each address of [base, base+len) once, in order, and stops, iff base + len ≤ 2^32 |
| Adma2.BufferAcross4GiB | crates/sdhci-host/src/dma.rs:78-119 | a buffer that is accepted and not covered |
| Adma2.TableShape | crates/sdhci-host/src/dma.rs:94-116 | End on the last entry only, lengths in 1..65528, all valid transfers |
| Adma2.LengthsAddUp | crates/sdhci-host/src/dma.rs:94-116 | the length fields sum to the buffer length |
| Adma2.EntriesAligned | crates/sdhci-host/src/dma.rs:56-60 | an aligned buffer has aligned entries, as long as they can be |
| Adma2.UnusedFaults | crates/sdhci-host/src/dma.rs:33-48 | the engine cannot run on into an unused entry |
| SdhciTransfer.Sdhci.ConfigureDataPhase | crates/sdhci-host/src/command.rs:222-248 | block registers with the register truncations; the mode's bits say the direction, DMA, and several blocks with Auto CMD12 or not, and nothing else |
| SdhciTransfer.Sdhci.IssueCommand | crates/sdhci-host/src/command.rs:24-71 | a wait; only if it went well one write of the command register, with the registers the pending data calls for; then another wait |
| SdhciTransfer.Sdhci.BuildDescriptorsIntoDma | crates/sdhci-host/src/dma.rs:396-411 | the table with unused entries cleared; on failure the caller's table is untouched |
| SdhciTransfer.Sdhci.DmaDataTransferMapped | crates/sdhci-host/src/dma.rs:342-368 | a refusal leaves driver and registers alone, and the table too unless only its own place is to blame; otherwise BLOCK_COUNT ≤ 2047 is lossless and SIZE·COUNT is the sum of the descriptors |
| SdhciTransfer.Sdhci.DmaDataTransferPrepared | crates/sdhci-host/src/dma.rs:370-393 | one issue with the DMA bit, which is off again afterwards |
| SdhciTransfer.Sdhci.TryAdma2Transfer | crates/sdhci-host/src/dma.rs:122-198 | Ok only if a command was issued; its SIZE·COUNT is the buffer length; an error without a fault leaves driver and registers alone |
| SdhciTransfer.DmaBlockCount | crates/sdhci-host/src/dma.rs:413-420 | whole blocks only, in 32 bits |
| SdhciTransfer.IssuedTransferMovesBuffer | crates/sdhci-host/src/dma.rs:342-393 | every issued ADMA2 transfer makes the engine move SIZE·COUNT bytes of the buffer, in order |
| SdhciTransfer.IssuedReadFillsBuffer | crates/sdhci-host/src/command.rs:222-248 | by its registers the controller stores the card's bytes in the buffer and nothing elsewhere |
| SdhciTransfer.IssuedWriteSendsBuffer | crates/sdhci-host/src/command.rs:222-248 | and for a write sends the buffer's bytes and leaves memory alone |
| SdhciTransfer.RefusedIff | crates/sdhci-host/src/dma.rs:342-368 | a mapped transfer is refused exactly for 0 or more than 2047 blocks, fewer than 16 entries, or a buffer or table beyond 4 GiB |
| CommandRegister.SdhciCommandSelected | crates/sdhci-host/src/command.rs:274-288 | the register selects index, data phase, checks and response length of the command |
| SdhciTransfer.RegistersLosslessIff | crates/sdhci-host/src/command.rs:222-248 | the two block registers keep their values exactly within 12 and 16 bits |
| Idmac.EngineFollowsChain | crates/dwmmc-host/src/dma.rs:48-63 | from the first descriptor, each of n is fetched once in order, exactly [buffer, buffer+512n) is moved, LD stops |
| Idmac.LinkBits | crates/dwmmc-host/src/dma.rs:48-63 | FS on the first descriptor only, LD on the last only |
| IdmacDriver.Written | crates/dwmmc-host/src/dma.rs:219-235 | under the guards neither cast nor 32-bit sum changes a value |
| IdmacDriver.WriteChain | crates/dwmmc-host/src/dma.rs:217-237 | the raw builder writes the chain and nothing else |
| IdmacDriver.WriteMappedChain | crates/dwmmc-host/src/dma.rs:403-419 | the mapped builder writes the same chain |
| IdmacDriver.DwMmc.IssueCommand | crates/dwmmc-host/src/command.rs:31-83 | pending data taken once; registers programmed before the command register, which is never written after a refused wait |
| IdmacDriver.DwMmc.DmaReadBlocks | crates/dwmmc-host/src/dma.rs:188-281 | InvalidArgument and nothing touched, registers included, unless the guards hold; BYTCNT = 512n; CMD12 attempted iff Ok and n > 1; IDMAC off afterwards |
| IdmacDriver.DwMmc.RunRead | crates/dwmmc-host/src/dma.rs:237-281 | CMD18 for several blocks and CMD17 for one; Ok unless a reset, the command or the transfer failed, a failing stop being ignored; IDMAC off after any attempt |
| IdmacDriver.DwMmc.IdmacTransferMapped | crates/dwmmc-host/src/dma.rs:367-457 | the same for one command over a mapped table, in either direction |
| IdmacDriver.DwMmc.DmaBlocksMapped | crates/dwmmc-host/src/dma.rs:283-365 | CMD25, CMD24, CMD18 or CMD17 by direction and count; stop iff Ok and n > 1 |
| IdmacDriver.IssuedChainMovesBuffer | crates/dwmmc-host/src/dma.rs:188-281 | whatever path issued it, the engine started at DBADDR moves BYTCNT bytes of the buffer |
| IdmacDriver.DwMmc.Begin | crates/dwmmc-host/src/dma.rs:239-269 | both paths from the reset to the command register, cleaned up after a failure |
| IdmacDriver.IssuedIsUnderstood | crates/dwmmc-host/src/dma.rs:259-263 | the card understands an issued command as a read or write of n blocks at the start, open-ended iff n > 1 |
| IdmacDriver.IssuedTransferEnds | crates/dwmmc-host/src/dma.rs:271-274 | the card is left streaming exactly if several blocks were asked for and no stop followed |
| IdmacDriver.IssuedTransferIsDone | crates/dwmmc-host/src/dma.rs:188-365 | by the registers, the engine moves n blocks between card and buffer in the right direction, in order |
| CommandRegister.DwCommandLatched | crates/dwmmc-host/src/command.rs:146-192 | the register tells the unit index, response, CRC check, data phase and its direction, and no automatic stop |
| SdioProtocol.SwitchDecodes | src/cmd.rs:301-304 | the CMD6 argument carries index and value |
| SdioGrammar.RunIsPrefix | src/sdio.rs:273-415 | the commands of any legal run are a prefix of a word of the bring-up grammar |
| SdioGrammar.RcaEverywhere | src/sdio.rs:301-330 | every CMD7, CMD9, CMD13 and later CMD55 carries the RCA that CMD3 gave in this run |
| SdioGrammar.RcaOnTheWire | src/response.rs:259-262 | after CMD3 was answered with R6 rca·2^16 + status, every CMD7, CMD9, CMD13 and CMD55 has the argument rca·2^16 |
| SdioGrammar.AssignedOnTheWire | src/sdio.rs:534-541 | an eMMC is addressed by the argument of its CMD3, 2^16 |
| SdioGrammar.AddressIsGiven | src/sdio.rs:306-330 | the address an observer notes is what the last CMD3 gave |
| SdioGrammar.DetectionArguments | src/sdio.rs:423-468 | CMD8 is 0x1AA; ACMD41 asks for 1.8 V, 2.7-3.6 V, and high capacity exactly if CMD8 was echoed |
| SdioDriver.SdioSdmmc.CheckCmd8 | src/sdio.rs:423-436 | v2 exactly on a correct echo |
| SdioDriver.SdioSdmmc.WaitReadySd | src/sdio.rs:439-468 | Ok only with the OCR of a powered-up ACMD41; at most 202 commands and 1000 ms |
| SdioDriver.SdioSdmmc.WaitReadyMmc | src/sdio.rs:476-523 | Ok only powered up, retrying with the argument made of the first OCR; at most 102 commands and 1000 ms |
| SdioDriver.SdioSdmmc.MmcSwitchWriteByte | src/sdio.rs:568-603 | Ok exactly when CMD13 confirmed the write, else the last answer or the full 250 ms are to blame; at most 27 commands |
| SdioDriver.SdioSdmmc.SetBusWidthMmc | src/sdio.rs:607-617 | the width is recorded exactly when the host took it and the card confirmed it; otherwise host and card are left as far as they got |
| SdioDriver.SdioSdmmc.TryHs200 | src/sdio.rs:642-698 | 1.8 V asked, only its lack tolerated, then HS_TIMING 2; Ok exactly with an entry that ends ready and in tran, nothing after it; the clocks asked for are those of the entry |
| SdioDriver.SdioSdmmc.FollowToHs200 | src/sdio.rs:668-698 | exactly the events of one of five endings, roll-backs included, with its result |
| Hs200Entry.EntryFolds | src/sdio.rs:668-698 | the clocks an ending leaves are what an observer of its events computes |
| Hs200Entry.RollbackIff | src/sdio.rs:640-698 | a failed entry asks for the default clock last exactly unless its CMD13 got no answer, and leaves the HS200 clock exactly if reached and not rolled back |
| Hs200Entry.MissedRollback | src/sdio.rs:688-688 | a legal failing run that ends at the HS200 clock without a roll-back |
| SdioDriver.SdioSdmmc.SetBusWidthSd | src/sdio.rs:712-731 | Ok: card (by the ACMD6 argument), host and driver have the width |
| SdioDriver.SdioSdmmc.TrySdAccessMode | src/sdio.rs:794-807 | the events follow the access script and pass or fail with the result |
| SdioDriver.SdioSdmmc.TrySdUhsMode | src/sdio.rs:784-792 | the same for the UHS-I script with CMD11, voltage and tuning |
| SdioDriver.SdioSdmmc.ClimbUhs | src/sdio.rs:753-769 | advertised UHS-I modes are tried in order until one passes |
| SdioDriver.SdioSdmmc.TrySdBestSpeedInner | src/sdio.rs:741-782 | the whole selection, over exactly the advertised and permitted modes |
| SdLadder.CandidateIff | src/sdio.rs:753-782 | a mode is tried only, and is due, if advertised and, for UHS-I, S18A was granted |
| SdLadder.CandidatesOrdered | src/sdio.rs:753-782 | fastest first |
| SdLadder.PassedIsComplete | src/sdio.rs:784-807 | a passed attempt has every step, each with effect |
| SdLadder.SelectedSpeed | src/sdio.rs:741-807 | a selected speed is the last accepted clock, the last switch reported its function, and every faster mode due was tried and failed |
| LadderTrace.OnlyPermittedSwitched | src/sdio.rs:741-782 | every switching CMD6 of a selection names a function whose bit of byte 13 is set and whose voltage is granted |
| LadderTrace.FasterTried | src/sdio.rs:741-807 | a selected speed is that of a permitted function, switched to, reported, clocked and tuned; every permitted one before it in the order 3, 2, 4, 1 was tried |
| LadderTrace.AllTried | src/sdio.rs:741-782 | without a selected speed every permitted function was tried |
| SdioDriver.SdioSdmmc.Detect | src/sdio.rs:273-303 | SD by ACMD41, else eMMC by CMD1; the OCR is the last the card reported and powered up, v2 whether it echoed CMD8; at most 306 commands |
| SdioDriver.SdioSdmmc.Address | src/sdio.rs:306-323 | CMD2 and CMD3; the RCA published or, for eMMC, 1 |
| SdioDriver.SdioSdmmc.Identify | src/sdio.rs:306-338 | CMD2, CMD3, CMD9, CMD7 with that RCA |
| SdioDriver.SdioSdmmc.ConfigureSd | src/sdio.rs:355-365 | host, card and driver at four bits, and the ladder carried out, or the default clock |
| SdioDriver.SdioSdmmc.ConfigureMmc | src/sdio.rs:366-412 | what is left is a function of the answers: 8 then 4 bits, HS200 if offered on a wide bus, otherwise HS_TIMING 1 and then the HighSpeed clock if offered |
| SdioDriver.SdioSdmmc.WidenMmc | src/sdio.rs:367-374 | 8 bits, only if that fails 4; the recorded width is the confirmed one |
| SdioDriver.SdioSdmmc.SpeedUpMmc | src/sdio.rs:386-397 | HS200 tried if offered on a wide bus; HS_TIMING 1 exactly if that did not succeed and 52 MHz is offered; the HighSpeed clock exactly after its confirmation |
| MmcOutcome.WidestFirst | src/sdio.rs:367-374 | the widths asked of the host: 8, and 4 exactly if 8 did not work out |
| MmcOutcome.SpeedSteps | src/sdio.rs:386-397 | the voltages and HS_TIMING values written, by the bits of EXT_CSD byte 196 |
| SdioDriver.MmcRunAgreesIff | src/sdio.rs:357-397 | on a fresh driver: recorded and host width agree iff the card confirmed one or the host took none after the first; an HS200 clock has HS_TIMING 2 confirmed iff HS200 was entered or 52 MHz is not offered; a HighSpeed clock always has HS_TIMING 1 confirmed |
| MmcOutcome.WidthsAgreeIff | src/sdio.rs:607-617 | the width part, from any link with a one-bit host; a width the card confirmed is the recorded one |
| MmcOutcome.WidthLeftBehind | src/sdio.rs:367-374 | a run that leaves the host at 8 bits and the record at 1 |
| MmcOutcome.ClockLeftBehind | src/sdio.rs:386-397 | a run that leaves the host at the HS200 clock and the card at HS_TIMING 1 |
| SdioDriver.SdioSdmmc.Init | src/sdio.rs:273-415 | every run is legal, at most 420 commands and 3000 ms, and fails only on a refusal, a bad answer or a time limit; on Ok OCR, v2 and RCA are the card's answers, an SD run has host, card and driver at four bits, and an eMMC run leaves what its path says |
| BlockIo.RoundTrip | src/sdio.rs:828-896 | what was written is what is stored, and every other block is as before |
| BlockIo.LoopEqualsTransfer | src/sdio.rs:828-860 | the CMD17 loop hands over what one CMD18 transfer delivers |
| BlockIo.BlockCountFromLen | src/sdio.rs:955-960 | whole blocks in 32 bits, Misaligned otherwise |
| BlockIo.AddressedBack | src/common.rs:10-12 | the card recovers the block from the argument |
| BlockIo.SdioSdmmc.ReadBlock | src/sdio.rs:812-817 | the addressed block; it fails only if the host fails or the card is in an open-ended transfer |
| BlockIo.SdioSdmmc.WriteBlock | src/sdio.rs:820-825 | the addressed block changes, no other, even on failure; it fails only if the host fails or the card is in an open-ended transfer |
| BlockIo.SdioSdmmc.ReadBlocks | src/sdio.rs:828-838 | the handler gets the blocks in order, on failure a prefix; one CMD17 each |
| BlockIo.SdioSdmmc.ReadBlocksInto | src/sdio.rs:846-860 | the buffer is the stored bytes; CMD12 once exactly for more than one block, a second stop under Auto CMD12 |
| BlockIo.SdioSdmmc.WriteBlocks | src/sdio.rs:862-879 | the blocks end to end, no other block touched; CMD24 for one, CMD25 and CMD12 for more |
| BlockIo.SdioSdmmc.WriteBlocksFrom | src/sdio.rs:883-897 | the memory is the old one with the buffer written in; CMD12 once exactly for more than one block, a second stop under Auto CMD12 |
| DwClock.DwMmc.SendUpdateClock | crates/dwmmc-host/src/host.rs:253-269 | Ok exactly when the CIU has taken the registers over; after a timeout it may still do so at any time |
| DwClock.DwMmc.ProgramClock | crates/dwmmc-host/src/host.rs:221-247 | whatever earlier calls left pending, no divider change on a running clock; Ok leaves the best divider enabled |
| DwClock.LeastDivider | crates/dwmmc-host/src/host.rs:226-236 | that divider is the least with ref ≤ 2·d·target, which exists iff ref ≤ 510·target |
| DwClock.CeilingIsBest | crates/dwmmc-host/src/host.rs:231-233 | the saturated ceiling is the best divider |
| DwClock.DwMmc.SetClock | crates/dwmmc-host/src/lib.rs:147-151 | the same for every clock of the table |
| SdhciClock.Sdhci.PickDivider | crates/sdhci-host/src/host.rs:144-154 | the least divider passing the truncating test, 0 if none is needed or found |
| SdhciClock.InReachIff | crates/sdhci-host/src/host.rs:144-154 | one passes exactly below 2046·(target + 1) Hz |
| SdhciClock.OutOfReachUndivided | crates/sdhci-host/src/host.rs:144-154 | 0 exactly when no division is needed or none helps |
| SdhciClock.UndividedGigahertz | crates/sdhci-host/src/host.rs:144-154 | a base far above the target that is not divided |
| SdhciClock.TruncationOvershoots | crates/sdhci-host/src/host.rs:149-149 | a base and target whose divided clock exceeds the target |
| SdhciClock.ExactIff | crates/sdhci-host/src/host.rs:144-154 | with d = 2(target + 1): base ≤ 2n·target exactly if 2·(base / d) + base % d ≤ 2·target |
| SdhciClock.ChosenIs | crates/sdhci-host/src/host.rs:144-154 | the divider found is base / 2(target + 1) + 1 |
| SdhciClock.CapabilityExact | crates/sdhci-host/src/lib.rs:160-197 | for every nonzero capability clock and every speed a divider exists, the bound holds and it is the least |
| SdhciClock.FieldDecodes | crates/sdhci-host/src/host.rs:156-159 | the v3 field decodes back to every 10-bit divider |
| SdhciClock.Sdhci.Start | crates/sdhci-host/src/host.rs:156-170 | the SD clock is enabled only once the internal clock is stable, divider unchanged; Timeout only after 1000 looks |
| SdhciClock.Sdhci.EnableClock | crates/sdhci-host/src/host.rs:136-171 | the register divides by the chosen divider; running iff Ok |
| SdhciClock.Sdhci.SetClock | crates/sdhci-host/src/lib.rs:160-197 | an accepted clock never exceeds its target and no smaller divider would do |
| SdhciClock.CapabilityClock | crates/sdhci-host/src/host.rs:228-235 | the base clock is the capability's MHz byte, whatever surrounds it in the register |
| LittleEndian.BytesBack | crates/sdhci-host/src/data.rs:28-32 | to_le_bytes inverts from_le_bytes |
| LittleEndian.ByteAt | crates/sdhci-host/src/data.rs:28-32 | byte k of a word is its bits from 8k on |
| LittleEndian.Halves | crates/dwmmc-host/src/data.rs:57-60 | a 64-bit access is its low word's bytes, then its high word's |
| DwFifo.DwMmc.DrainInto | crates/dwmmc-host/src/data.rs:56-65 | pairs of words into the buffer, in order, never from a FIFO holding fewer than two |
| DwFifo.DwMmc.PioRead | crates/dwmmc-host/src/data.rs:27-90 | conservation of the card's words on every path; Ok: the buffer is the first bytes of the stream, and data_transfer_over was seen twice if waited for; it fails only on a reported error or after 8,000,000 or 1,000,000 looks, and terminates |
| FifoLoss.NeverLosesIff | crates/dwmmc-host/src/data.rs:119-127 | no schedule of bus drains loses a word iff the stores fit the free words, or the bus takes pairs and the free words are even |
| FifoLoss.LosingSchedule | crates/dwmmc-host/src/data.rs:119-127 | in every other case a schedule that loses one |
| FifoLoss.OneWordLost | crates/dwmmc-host/src/data.rs:119-127 | the same in numbers |
| DwFifo.DwMmc.Fill | crates/dwmmc-host/src/data.rs:119-127 | the buffer's next words, never into a full FIFO |
| DwFifo.DwMmc.PioWrite | crates/dwmmc-host/src/data.rs:99-150 | exactly the buffer's little-endian words are stored; as many are lost as the bus's schedule of drains makes it, none if the FIFO is roomy, and then bus and FIFO hold just them; Ok at a look that shows data_transfer_over; terminates |
| SdhciPio.UnpackPack | crates/sdhci-host/src/data.rs:26-58 | one block through the port and back, for every size, multiples of 4 or not |
| SdhciPio.PortRoundTrip | crates/sdhci-host/src/data.rs:14-63 | a whole buffer through the port and back |
| SdhciPio.Sdhci.PioWrite | crates/sdhci-host/src/data.rs:39-63 | the port receives the packed blocks, on failure a prefix of whole blocks |
| SdhciPio.Sdhci.PioRead | crates/sdhci-host/src/data.rs:14-37 | the buffer is the unpacked supply and exactly those words are taken |
| Csd.DwTransport | crates/dwmmc-host/src/command.rs:230-237 | the four slots give back the register's bytes |
| Csd.SdhciTransport | crates/sdhci-host/src/command.rs:317-335 | so do the shifted slots, but for the last byte |
| Csd.SameCapacity | src/response.rs:318-352 | SPI, SDHCI and DW_mshc agree on the capacity of every CSD |
| Csd.CapacityMeaning | src/response.rs:318-352 | it is the formula of sections 5.3.2 and 5.3.3 over the numbered bit fields |
| Csd.AddressableIff | src/common.rs:10-12 | every block has its own address without wrap-around exactly up to 2^23 blocks |
| Csd.Version1Addressable | src/response.rs:326-341 | READ_BL_LEN 9 to 11 stays within that |
| Csd.WideBlockLengthCollides | src/common.rs:10-12 | a register with READ_BL_LEN 12 that describes 2^24 blocks, two of which share an address |

## Left out

- `SpiSdmmc::init`, `read_blocks`, `switch_function` and the CSD, CID and OCR reads of SPI mode: compositions of the commands and data reads modelled here.
- SpiDriver.SpiSdmmc.SendCommandRaw: says nothing about chip select after an error or an early return, since the code does not release it there.
- SpiDriver.SpiSdmmc.SendPacket: after a bus error the trace is only known up to the bytes that got an answer.
- SdioDriver.SdioSdmmc.Init: the card information's capacity, CID and EXT_CSD fields are copies and are not modelled; the CSD arithmetic is in `Csd`.
- SdioDriver.SdioSdmmc.MmcSwitchWriteByte: only WRITE_BYTE, the one access mode the driver uses.
- SdioDriver.SdioSdmmc.ConfigureSd: nothing is said about the clock when speed selection ends without a mode.
- BlockIo.SdioSdmmc.ReadBlocks: the handler is the list of blocks it was given.
- IdmacDriver.DwMmc.DmaReadBlocks: descriptor flushing, cache maintenance and the values of the wait loops' status registers are the environment's choice.
- SdhciClock.Sdhci.SetClock: the high-speed enable bit and the external clock callback.
- DwClock.DwMmc.ProgramClock: requires 2·target to fit 32 bits where it is computed, as the code does; the UHS timing register is not modelled.
- DwFifo.DwMmc.PioRead: the card's stream is finite; words taken past the end of the buffer count as taken.
- SdhciPio.Sdhci.PioRead: what an empty data port reads as is unspecified.
- Errors: the card error variants other than an illegal command or switch, and the interrupt-to-error translation tables.
- CommandRegister.DwCommandLatched: the clock-update, boot and CE-ATA bits are never set and not modelled.
- `scripts/`, `examples/`, allocation and mapping of DMA buffers (a mapped bus address is given), MMIO mechanics, logging, and plain field getters.
