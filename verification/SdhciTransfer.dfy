/** The SDHCI data path from a mapped buffer to the command register. */
module SdhciTransfer {
  import opened Errors
  import opened MachineInts
  import opened Arithmetic
  import opened Commands
  import opened CommandLog
  import opened Adma2
  import opened DmaMemory
  import opened CommandRegister

  const BLOCK_SIZE: nat := 512

  const MODE_DMA_ENABLE: bv16 := 0x01
  const MODE_BLOCK_COUNT_ENABLE: bv16 := 0x02
  const MODE_AUTO_CMD12: bv16 := 0x04
  const MODE_READ: bv16 := 0x10
  const MODE_MULTI_BLOCK: bv16 := 0x20

  /** What the controller sees when the command register is written. */
  datatype Issue = Issue(command: Command, register: nat, hasData: bool, blockSize: u16, blockCount: u16, mode: bv16, admaAddr: u32)

  /** What the bits of a transfer mode say (section 2.2.5 of the SD Host Controller
      specification): direction in bit 4, DMA in bit 0, block count always enabled, multi-block
      with Auto CMD12 or neither, and nothing else. */
  predicate ModeSays(mode: bv16, direction: DataDirection, dma: bool, count: nat) {
    && (mode & 0x10 != 0 <==> direction == ReadData)
    && (mode & 0x01 != 0 <==> dma)
    && mode & 0x02 != 0
    && mode & 0x24 == (if count > 1 then 0x24 else 0)
    && mode & 0xFFC8 == 0
  }

  /** Why a mapped transfer is refused before any register is touched. */
  function Refusal(blockCount: u32, bufferDma: u64, descBus: u64, descLen: nat, phase: Phase): Option<Error> {
    var bytes := blockCount * BLOCK_SIZE;
    if blockCount == 0 then Some(InvalidArgument)
    else if bytes >= U32_LIMIT then Some(InvalidArgument)
    else if descLen < DESC_COUNT then Some(InvalidArgument)
    else if bufferDma >= U32_LIMIT then Some(BadResponse(At(phase)))
    else if bytes > DESC_COUNT * MAX_PER_DESC then Some(Misaligned)
    else if descBus + descLen * DESC_SIZE >= U64_LIMIT then Some(InvalidArgument)
    else if descBus + descLen * DESC_SIZE > U32_LIMIT then Some(BadResponse(At(phase)))
    else None
  }

  /** What is refused, in bytes: no block or more than 2047, fewer than 16 entries, a buffer that
      begins or a table of 8-byte entries that ends beyond 4 GiB. */
  lemma RefusedIff(blockCount: u32, bufferDma: u64, descBus: u64, descLen: nat, phase: Phase)
    ensures Refusal(blockCount, bufferDma, descBus, descLen, phase) == None <==>
              1 <= blockCount <= 2047 && bufferDma < 0x1_0000_0000 && descLen >= 16 && descBus + 8 * descLen <= 0x1_0000_0000
  {
  }

  /** The part of a mapped transfer the table depends on is in order. */
  predicate Buildable(blockCount: u32, bufferDma: u64, descLen: nat) {
    && 0 < blockCount * BLOCK_SIZE <= DESC_COUNT * MAX_PER_DESC
    && bufferDma < U32_LIMIT && descLen >= DESC_COUNT
  }

  /** An ADMA2 transfer as it must reach the command register. */
  ghost predicate WellIssued(i: Issue, c: Command, blockCount: nat, direction: DataDirection, bufferDma: nat, descBus: nat, desc: seq<Desc>) {
    var bytes := blockCount * BLOCK_SIZE;
    && i.command == c && i.hasData && i.register == SdhciCommand(c, true)
    && i.admaAddr == descBus && descBus + |desc| * DESC_SIZE <= U32_LIMIT
    && 0 < blockCount <= 2047
    && i.blockCount == blockCount
    && i.blockSize * i.blockCount == bytes
    && ModeSays(i.mode, direction, true, blockCount)
    && Chunked(desc, bufferDma, bytes, Count(bytes))
    && TotalLength(desc[..Count(bytes)]) == bytes
  }

  class Sdhci {
    var pendingData: Option<PendingData>
    var useDma: bool
    var activeDataCmd: u8
    // registers
    var blockSize: u16
    var blockCount: u16
    var transferMode: bv16
    var argument: u32
    var admaAddr: u32
    ghost var issued: seq<Issue>
    /** Waits and command register writes, in order, and what the waits complained about. */
    ghost var log: seq<Step<Issue>>
    ghost var faults: seq<Error>

    /** Everything a call leaves alone that touches nothing. */
    ghost function Untouched(): (Option<PendingData>, bool, u8, (u16, u16, bv16, u32, u32), seq<Issue>, seq<Step<Issue>>, seq<Error>)
      reads this
    {
      (pendingData, useDma, activeDataCmd, (blockSize, blockCount, transferMode, argument, admaAddr), issued, log, faults)
    }

    /** Any of the bounded waits on status registers. */
    method Wait() returns (r: Result<()>)
      modifies this`faults, this`log
      ensures faults == if r.Ok? then old(faults) else old(faults) + [r.error]
      ensures log == old(log) + [Waited(FaultOf(r))]
    {
      var ok: bool := *;
      var e: Error := *;
      r := if ok then Ok(()) else Err(e);
      log := log + [Waited(FaultOf(r))];
      if !ok {
        faults := faults + [e];
      }
    }

    method ConfigureDataPhase(d: PendingData)
      modifies this`blockSize, this`blockCount, this`transferMode
      ensures blockSize == TruncU16(d.blockSize) % 0x1000 && blockCount == TruncU16(d.blockCount)
      ensures ModeSays(transferMode, d.direction, useDma, d.blockCount)
    {
      blockSize := TruncU16(d.blockSize) % 0x1000;
      blockCount := TruncU16(d.blockCount);
      var mode: bv16 := 0;
      if d.blockCount > 1 {
        mode := mode | MODE_BLOCK_COUNT_ENABLE | MODE_MULTI_BLOCK | MODE_AUTO_CMD12;
      } else {
        mode := mode | MODE_BLOCK_COUNT_ENABLE;
      }
      if d.direction == ReadData {
        mode := mode | MODE_READ;
      }
      if useDma {
        mode := mode | MODE_DMA_ENABLE;
      }
      transferMode := mode;
    }

    /** The command is issued at most once, with the registers the pending data calls for. */
    method IssueCommand(c: Command) returns (r: Result<()>)
      modifies this
      ensures pendingData == None && useDma == old(useDma) && admaAddr == old(admaAddr)
      ensures issued == old(issued) || issued == old(issued) + [Issue(c, SdhciCommand(c, old(pendingData).Some?), old(pendingData).Some?, blockSize, blockCount, transferMode, admaAddr)]
      ensures issued == old(issued) ==> r.Err?
      ensures issued != old(issued) && old(pendingData).Some? ==>
                var d := old(pendingData).value;
                && blockSize == TruncU16(d.blockSize) % 0x1000 && blockCount == TruncU16(d.blockCount)
                && ModeSays(transferMode, d.direction, useDma, d.blockCount)
      ensures issued != old(issued) && old(pendingData).None? ==> transferMode == 0
      ensures old(log) <= log && old(issued) <= issued && OneCommand(log[|old(log)|..], issued[|old(issued)|..], r)
      ensures faults == if r.Ok? then old(faults) else old(faults) + [r.error]
    {
      var data := pendingData;
      pendingData := None;
      r := Wait();
      if r.Err? {
        Refused(old(log), issued, r);
        return;
      }
      if data.Some? {
        ConfigureDataPhase(data.value);
      } else {
        transferMode := 0;
      }
      argument := c.arg;
      issued := issued + [Issue(c, SdhciCommand(c, data.Some?), data.Some?, blockSize, blockCount, transferMode, admaAddr)];
      log := log + [Wrote(issued[|issued| - 1])];
      if data.Some? {
        activeDataCmd := c.cmd;
      }
      r := Wait();
      Issued(old(log), old(issued), issued[|issued| - 1], r);
    }

    method BuildDescriptorsIntoDma(desc: array<Desc>, base: u64, totalLen: nat, phase: Phase) returns (r: Result<nat>)
      modifies desc
      ensures desc.Length < DESC_COUNT ==> r == Err(InvalidArgument)
      ensures desc.Length >= DESC_COUNT ==> (r.Ok? <==> 0 < totalLen <= DESC_COUNT * MAX_PER_DESC && base < U32_LIMIT)
      ensures desc.Length >= DESC_COUNT && r.Err? && totalLen > 0 ==>
                r == Err(if base >= U32_LIMIT then BadResponse(At(phase)) else Misaligned)
      ensures r.Ok? ==> r.value == Count(totalLen) && Chunked(desc[..], base, totalLen, r.value)
      ensures r.Ok? ==> forall i | r.value <= i < DESC_COUNT :: desc[i] == EMPTY
      ensures r.Err? ==> desc[..] == old(desc[..])
    {
      if desc.Length < DESC_COUNT {
        return Err(InvalidArgument);
      }
      var table := new Desc[DESC_COUNT](_ => EMPTY);
      ghost var blank := table[..];
      r := BuildDescriptors(table, base, totalLen, phase);
      if r.Err? {
        return;
      }
      forall i | 0 <= i < DESC_COUNT {
        desc[i] := table[i];
      }
      assert forall i | r.value <= i < DESC_COUNT :: table[i] == table[r.value..][i - r.value] == blank[r.value..][i - r.value];
      assert forall i | 0 <= i < r.value :: desc[..][i] == table[..][i];
    }

    method DmaDataTransferPrepared(c: Command, blockCount: u32, descBus: u32, direction: DataDirection) returns (r: Result<()>)
      modifies this
      ensures !useDma && pendingData == None
      ensures issued == old(issued) ==> r.Err?
      ensures faults == if r.Ok? then old(faults) else old(faults) + [r.error]
      ensures issued == old(issued) || issued == old(issued) + [Issue(c, SdhciCommand(c, true), true, BLOCK_SIZE, TruncU16(blockCount), transferMode, descBus)]
      ensures issued != old(issued) ==> ModeSays(transferMode, direction, true, blockCount)
    {
      pendingData := Some(PendingData(direction, BLOCK_SIZE, blockCount));
      useDma := true;
      admaAddr := descBus;
      r := IssueCommand(c);
      if r.Ok? {
        r := Wait();
      }
      useDma := false;
    }

    /** A refused transfer touches nothing but, if only the table's own place is to blame, the
        table; any other writes the command register at most once, and then with the exact
        block count, for a table that adds up to the buffer. */
    method DmaDataTransferMapped(c: Command, blockCount: u32, bufferDma: u64, descBus: u64, desc: array<Desc>,
                                 direction: DataDirection, phase: Phase) returns (r: Result<()>)
      modifies this, desc
      ensures var no := Refusal(blockCount, bufferDma, descBus, desc.Length, phase);
              && (no.Some? ==> r == Err(no.value) && Untouched() == old(Untouched()))
              && (if Buildable(blockCount, bufferDma, desc.Length)
                  then Chunked(desc[..], bufferDma, blockCount * BLOCK_SIZE, Count(blockCount * BLOCK_SIZE))
                  else no.Some? && desc[..] == old(desc[..]))
              && (no.None? ==> !useDma && pendingData == None)
              && (no.None? ==> faults == if r.Ok? then old(faults) else old(faults) + [r.error])
      ensures issued == old(issued) || (|issued| == |old(issued)| + 1 && old(issued) < issued)
      ensures issued != old(issued) ==>
                WellIssued(issued[|issued| - 1], c, blockCount, direction, bufferDma, descBus, desc[..])
      ensures r.Ok? ==> issued != old(issued)
    {
      if blockCount == 0 {
        return Err(InvalidArgument);
      }
      if blockCount * BLOCK_SIZE >= U32_LIMIT {
        return Err(InvalidArgument);
      }
      var byteCount := blockCount * BLOCK_SIZE;
      var built := BuildDescriptorsIntoDma(desc, bufferDma, byteCount, phase);
      if built.Err? {
        return Err(built.error);
      }
      if descBus + desc.Length * DESC_SIZE >= U64_LIMIT {
        return Err(InvalidArgument);
      }
      var descEnd := descBus + desc.Length * DESC_SIZE;
      if descEnd > U32_LIMIT {
        return Err(BadResponse(At(phase)));
      }
      r := StartMapped(c, blockCount, bufferDma, descBus, desc[..], direction);
    }

    /** The table is in place and within reach. */
    method StartMapped(c: Command, blockCount: u32, ghost bufferDma: u64, descBus: u64, ghost desc: seq<Desc>, direction: DataDirection)
      returns (r: Result<()>)
      requires 0 < blockCount <= 2047 && descBus + |desc| * DESC_SIZE <= U32_LIMIT && desc != []
      requires Chunked(desc, bufferDma, blockCount * BLOCK_SIZE, Count(blockCount * BLOCK_SIZE))
      modifies this
      ensures !useDma && pendingData == None
      ensures faults == if r.Ok? then old(faults) else old(faults) + [r.error]
      ensures issued == old(issued) || (|issued| == |old(issued)| + 1 && old(issued) < issued)
      ensures issued != old(issued) ==> WellIssued(issued[|issued| - 1], c, blockCount, direction, bufferDma, descBus, desc)
      ensures r.Ok? ==> issued != old(issued)
    {
      r := DmaDataTransferPrepared(c, blockCount, TruncU32(descBus), direction);
      LengthsAddUp(desc, bufferDma, blockCount * BLOCK_SIZE, Count(blockCount * BLOCK_SIZE));
    }

    /** try_adma2_read_transfer and try_adma2_write_transfer, the buffer mapped at bufferDma
        and a table of 16 entries allocated at descBus. */
    method TryAdma2Transfer(c: Command, bufLen: nat, blockSize: u32, expectedCount: u32, supported: bool,
                            bufferDma: u64, descBus: u64, direction: DataDirection, phase: Phase)
      returns (r: Result<()>, ghost table: seq<Desc>)
      modifies this
      ensures issued == old(issued) || (|issued| == |old(issued)| + 1 && old(issued) < issued)
      ensures issued != old(issued) ==>
                var i := issued[|issued| - 1];
                && WellIssued(i, c, expectedCount, direction, bufferDma, descBus, table)
                && i.blockSize * i.blockCount == bufLen
      ensures r.Ok? ==> issued != old(issued) && faults == old(faults)
      ensures r.Err? && faults == old(faults) ==> Untouched() == old(Untouched())
      ensures !supported || blockSize != BLOCK_SIZE || bufLen == 0 ==> r == Err(UnsupportedCommand)
    {
      table := [];
      if !supported || blockSize != BLOCK_SIZE || bufLen == 0 {
        return Err(UnsupportedCommand), table;
      }
      var count := DmaBlockCount(bufLen);
      if count.Err? {
        return Err(count.error), table;
      }
      if count.value != expectedCount {
        return Err(InvalidArgument), table;
      }
      var desc := new Desc[DESC_COUNT](_ => EMPTY);
      r := DmaDataTransferMapped(c, count.value, bufferDma, descBus, desc, direction, phase);
      table := desc[..];
    }
  }

  /** dma_read_block_count. */
  function DmaBlockCount(size: nat): (r: Result<u32>)
    ensures size % BLOCK_SIZE != 0 <==> r == Err(Misaligned)
    ensures r.Ok? <==> size % BLOCK_SIZE == 0 && size < U32_LIMIT * BLOCK_SIZE
    ensures r.Ok? ==> size == r.value * BLOCK_SIZE
  {
    if size % BLOCK_SIZE != 0 then Err(Misaligned)
    else if size / BLOCK_SIZE < U32_LIMIT then Ok(size / BLOCK_SIZE)
    else Err(InvalidArgument)
  }

  /** What the engine then does, given a buffer below 4 GiB: it moves the whole buffer, in
      order, and BLOCK_SIZE times BLOCK_COUNT is the number of bytes it moves. */
  lemma {:induction false} IssuedTransferMovesBuffer(i: Issue, c: Command, n: nat, dir: DataDirection, base: u32, bus: nat, desc: seq<Desc>)
    requires WellIssued(i, c, n, dir, base, bus, desc)
    requires base + n * BLOCK_SIZE <= U32_LIMIT
    ensures Walk(desc, 0) == Stopped(Addresses(base, i.blockSize * i.blockCount))
  {
    EngineCoversBuffer(desc, base, n * BLOCK_SIZE);
  }

  // ----- The controller -----

  /** The controller goes by its registers alone: with the DMA bit it walks the table, and the
      direction bit says whether it stores what the card delivers or sends what it finds. */
  function Execute(mode: bv16, table: seq<Desc>, memory: Memory, delivered: seq<u8>): Option<Transferred> {
    if mode & 0x01 == 0 then None
    else match Walk(table, 0)
      case Fault => None
      case Stopped(at) => Moved(mode & 0x10 == 0, at, memory, delivered)
  }

  /** An issued read stores the card's bytes in the buffer, in order, and nothing elsewhere. */
  lemma IssuedReadFillsBuffer(i: Issue, c: Command, n: nat, base: u32, bus: nat, desc: seq<Desc>, memory: Memory, delivered: seq<u8>)
    requires WellIssued(i, c, n, ReadData, base, bus, desc)
    requires base + n * BLOCK_SIZE <= U32_LIMIT && |delivered| == i.blockSize * i.blockCount
    ensures Filled(Execute(i.mode, desc, memory, delivered), memory, base, delivered)
  {
    IssuedTransferMovesBuffer(i, c, n, ReadData, base, bus, desc);
    MovedRun(memory, base, |delivered|, delivered);
  }

  /** An issued write sends the buffer's bytes, in order, and leaves memory alone. */
  lemma IssuedWriteSendsBuffer(i: Issue, c: Command, n: nat, base: u32, bus: nat, desc: seq<Desc>, memory: Memory, delivered: seq<u8>)
    requires WellIssued(i, c, n, WriteData, base, bus, desc)
    requires base + n * BLOCK_SIZE <= U32_LIMIT
    ensures Emptied(Execute(i.mode, desc, memory, delivered), memory, base, i.blockSize * i.blockCount)
  {
    IssuedTransferMovesBuffer(i, c, n, WriteData, base, bus, desc);
    MovedRun(memory, base, i.blockSize * i.blockCount, delivered);
  }

  /** The two block registers hold the requested shape exactly when it fits their 12 and 16
      bits; ADMA2 never gets near, programmed I/O has no such guard. */
  lemma RegistersLosslessIff(size: u32, count: u32)
    ensures TruncU16(size) % 0x1000 == size && TruncU16(count) == count <==> size < 0x1000 && count < U16_LIMIT
  {
  }
}
