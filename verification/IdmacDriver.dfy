/** The two IDMAC transfer paths of the DW_mshc driver, from guards to command register. */
module IdmacDriver {
  import opened Errors
  import opened MachineInts
  import opened Arithmetic
  import opened Commands
  import opened CommandLog
  import opened Idmac
  import opened CardSide
  import opened CommandRegister
  import opened DmaMemory

  /** What the controller sees when the command register is written. */
  datatype Issue = Issue(command: Command, register: nat, data: Option<PendingData>, blksiz: u16, bytcnt: u32, dbaddr: u32, idmac: bool)

  /** The guards of both paths, as one condition: the transfer has blocks, its byte count fits
      32 bits, and buffer and table end at or below 4 GiB. */
  predicate Admissible(n: u32, buffer: nat, table: nat, count: nat) {
    n > 0 && n * BLOCK_SIZE < U32_LIMIT && Fits(buffer, table, n) && n <= count
  }

  /** The command register writes of a transfer: nothing, or the data command with IDMAC on
      and exact counts, then nothing but a stop command. */
  predicate Transfer(log: seq<Issue>, c: Command, direction: DataDirection, n: u32, table: nat) {
    |log| > 0 ==>
      (&& log[0].command == c && log[0].register == DwCommand(c, Some(direction))
       && log[0].data == Some(PendingData(direction, BLOCK_SIZE, n))
       && log[0].blksiz == BLOCK_SIZE && log[0].bytcnt == n * BLOCK_SIZE
       && log[0].dbaddr == table && log[0].idmac
       && (|log| > 1 ==> |log| == 2 && log[1].command == Cmd12 && log[1].data == None))
  }

  class DwMmc {
    var pendingData: Option<PendingData>
    var blocksRemaining: u32
    var dataCmdIndex: u8
    // registers
    var blksiz: u16
    var bytcnt: u32
    var dbaddr: u32
    var useIdmac: bool
    ghost var attempted: seq<Command>
    ghost var issued: seq<Issue>
    /** Waits and command register writes, in order, and what the waits complained about. */
    ghost var log: seq<Step<Issue>>
    ghost var faults: seq<Error>

    /** Everything a call leaves alone that touches nothing. */
    ghost function Untouched(): (Option<PendingData>, u32, u8, (u16, u32, u32, bool), seq<Command>, seq<Issue>, seq<Step<Issue>>, seq<Error>)
      reads this
    {
      (pendingData, blocksRemaining, dataCmdIndex, (blksiz, bytcnt, dbaddr, useIdmac), attempted, issued, log, faults)
    }

    /** Any bounded wait, reset or status check. */
    method Wait() returns (r: Result<()>)
      modifies this`faults, this`log
      ensures faults == if r.Ok? then old(faults) else old(faults) + [r.error]
      ensures log == old(log) + [Waited(FaultOf(r))]
    {
      var ok: bool := *;
      var e: Error := *;
      r := if ok then Ok(()) else Err(e);
      log := log + [Waited(FaultOf(r))];
      if !ok {
        faults := faults + [e];
      }
    }

    method ProgramDataPhase(size: u32, count: u32)
      modifies this`blksiz, this`bytcnt
      ensures blksiz == TruncU16(size) && bytcnt == TruncU32(size * count)
    {
      blksiz := TruncU16(size);
      bytcnt := TruncU32(size * count);
    }

    method IssueCommand(c: Command) returns (r: Result<()>)
      modifies this`pendingData, this`dataCmdIndex, this`blksiz, this`bytcnt, this`attempted, this`issued, this`faults, this`log
      ensures old(log) <= log && old(issued) <= issued && OneCommand(log[|old(log)|..], issued[|old(issued)|..], r)
      ensures faults == if r.Ok? then old(faults) else old(faults) + [r.error]
      ensures pendingData == None
      ensures attempted == old(attempted) + [c]
      ensures issued == old(issued) || issued == old(issued) + [Issue(c, DwCommand(c, DirectionOf(old(pendingData))), old(pendingData), blksiz, bytcnt, dbaddr, useIdmac)]
      ensures issued == old(issued) ==> r.Err?
      ensures issued != old(issued) && old(pendingData).Some? ==>
                (var d := old(pendingData).value; blksiz == TruncU16(d.blockSize) && bytcnt == TruncU32(d.blockSize * d.blockCount))
    {
      var data := pendingData;
      pendingData := None;
      attempted := attempted + [c];
      if data.Some? {
        dataCmdIndex := c.cmd;
      }
      r := Wait();
      if r.Err? {
        Refused(old(log), issued, r);
        return;
      }
      if data.Some? {
        ProgramDataPhase(data.value.blockSize, data.value.blockCount);
      }
      issued := issued + [Issue(c, DwCommand(c, DirectionOf(data)), data, blksiz, bytcnt, dbaddr, useIdmac)];
      log := log + [Wrote(issued[|issued| - 1])];
      r := Wait();
      Issued(old(log), old(issued), issued[|issued| - 1], r);
    }

    method DisableIdmac()
      modifies this`useIdmac
      ensures !useIdmac
    {
      useIdmac := false;
    }

    method Recover()
      modifies this`pendingData, this`blocksRemaining, this`dataCmdIndex
      ensures pendingData == None && blocksRemaining == 0
    {
      pendingData := None;
      blocksRemaining := 0;
      dataCmdIndex := 0;
    }

    /** What both paths do once the table is in place: reset the DMA, start the IDMAC at the
        table, arm the data phase, issue the command; a failed command is cleaned up after. */
    method Begin(c: Command, direction: DataDirection, n: u32, table: u32) returns (r: Result<()>)
      requires 0 < n && n * BLOCK_SIZE < U32_LIMIT
      modifies this
      ensures faults == if r.Ok? then old(faults) else old(faults) + [r.error]
      ensures attempted == old(attempted) || (attempted == old(attempted) + [c] && pendingData == None)
      ensures attempted == old(attempted) ==> r.Err? && useIdmac == old(useIdmac) && issued == old(issued)
      ensures attempted != old(attempted) && r.Err? ==> !useIdmac
      ensures old(issued) <= issued && |issued| <= |old(issued)| + 1 && (r.Ok? ==> |issued| == |old(issued)| + 1)
      ensures Transfer(issued[|old(issued)|..], c, direction, n, table)
    {
      ProgramDataPhase(BLOCK_SIZE, n);
      r := Wait();
      if r.Err? {
        return;
      }
      dbaddr := table;
      useIdmac := true;
      pendingData := Some(PendingData(direction, BLOCK_SIZE, n));
      blocksRemaining := n;
      r := IssueCommand(c);
      if r.Err? {
        DisableIdmac();
        Recover();
      }
    }

    /** dma_read_blocks: a raw read of n blocks over a caller's descriptor area. */
    method DmaReadBlocks(start: u32, n: u32, bufferDma: u64, descDma: u64, descCount: nat, descs: array?<Desc>)
      returns (r: Result<()>)
      requires descs != null ==> descCount <= descs.Length
      modifies this, descs
      ensures !Admissible(n, bufferDma, descDma, descCount) || descs == null ==>
                && r == Err(InvalidArgument) && Untouched() == old(Untouched())
                && (descs != null ==> descs[..] == old(descs[..]))
      ensures Admissible(n, bufferDma, descDma, descCount) && descs != null ==>
                && IsChain(descs[..], bufferDma, descDma, n)
                && descs[n..] == old(descs[n..])
                && (attempted != old(attempted) ==> !useIdmac)
                && (if r.Ok? then Tolerated(old(faults), faults, n) else faults == old(faults) + [r.error])
      ensures attempted == old(attempted) || attempted == old(attempted) + [TransferCommand(false, start, n)] + (if r.Ok? && n > 1 then [Cmd12] else [])
      ensures attempted == old(attempted) ==> r.Err? && useIdmac == old(useIdmac) && issued == old(issued)
      ensures old(issued) <= issued && Transfer(issued[|old(issued)|..], TransferCommand(false, start, n), ReadData, n, descDma)
      ensures r.Ok? ==> |issued| > |old(issued)|
      ensures r.Err? ==> |issued| <= |old(issued)| + 1
    {
      if n == 0 {
        return Err(InvalidArgument);
      }
      if n * BLOCK_SIZE >= U32_LIMIT {
        return Err(InvalidArgument);
      }
      var byteCount := n * BLOCK_SIZE;
      if bufferDma + byteCount >= U64_LIMIT {
        return Err(InvalidArgument);
      }
      var transferEnd := bufferDma + byteCount;
      var descBytes := n * DESC_SIZE;
      if descDma + descBytes >= U64_LIMIT {
        return Err(InvalidArgument);
      }
      var descEnd := descDma + descBytes;
      if transferEnd > U32_LIMIT || descEnd > U32_LIMIT || descCount < n || descs == null {
        return Err(InvalidArgument);
      }
      WriteChain(descs, bufferDma, descDma, n);
      r := RunRead(start, n, TruncU32(descDma));
    }

    /** dma_read_blocks from the reset on: the table is in place. */
    method RunRead(start: u32, n: u32, table: u32) returns (r: Result<()>)
      requires 0 < n && n * BLOCK_SIZE < U32_LIMIT
      modifies this
      ensures attempted != old(attempted) ==> !useIdmac
      ensures if r.Ok? then Tolerated(old(faults), faults, n) else faults == old(faults) + [r.error]
      ensures attempted == old(attempted) || attempted == old(attempted) + [TransferCommand(false, start, n)] + (if r.Ok? && n > 1 then [Cmd12] else [])
      ensures attempted == old(attempted) ==> r.Err? && useIdmac == old(useIdmac) && issued == old(issued)
      ensures old(issued) <= issued && Transfer(issued[|old(issued)|..], TransferCommand(false, start, n), ReadData, n, table)
      ensures r.Ok? ==> |issued| > |old(issued)|
      ensures r.Err? ==> |issued| <= |old(issued)| + 1
    {
      var cmd := if n == 1 then Cmd17(start) else Cmd18(start);
      r := Begin(cmd, ReadData, n, table);
      if r.Err? {
        return;
      }
      r := Wait();
      if r.Ok? && n > 1 {
        var stop := IssueCommand(Cmd12);
      }
      DisableIdmac();
      if r.Err? {
        Recover();
      }
    }

    /** idmac_transfer_mapped: one command and its data phase over a mapped table. */
    method IdmacTransferMapped(c: Command, n: u32, bufferDma: u64, descDma: u64, desc: array<Desc>) returns (r: Result<()>)
      modifies this, desc
      ensures c.DataDirection() == NoData || !Admissible(n, bufferDma, descDma, desc.Length) ==>
                r == Err(InvalidArgument) && Untouched() == old(Untouched()) && desc[..] == old(desc[..])
      ensures c.DataDirection() != NoData && Admissible(n, bufferDma, descDma, desc.Length) ==>
                && IsChain(desc[..], bufferDma, descDma, n)
                && desc[n..] == old(desc[n..])
                && (attempted != old(attempted) ==> !useIdmac && pendingData == None)
                && faults == (if r.Ok? then old(faults) else old(faults) + [r.error])
      ensures attempted == old(attempted) || attempted == old(attempted) + [c]
      ensures attempted == old(attempted) ==> r.Err? && useIdmac == old(useIdmac) && issued == old(issued)
      ensures old(issued) <= issued && |issued| <= |old(issued)| + 1
      ensures Transfer(issued[|old(issued)|..], c, c.DataDirection(), n, descDma)
      ensures r.Ok? ==> |issued| == |old(issued)| + 1
    {
      if n == 0 {
        return Err(InvalidArgument);
      }
      var direction := c.DataDirection();
      if direction == NoData {
        return Err(InvalidArgument);
      }
      if n * BLOCK_SIZE >= U32_LIMIT {
        return Err(InvalidArgument);
      }
      var byteCount := n * BLOCK_SIZE;
      if bufferDma + byteCount >= U64_LIMIT {
        return Err(InvalidArgument);
      }
      var transferEnd := bufferDma + byteCount;
      var descBytes := n * DESC_SIZE;
      if descDma + descBytes >= U64_LIMIT {
        return Err(InvalidArgument);
      }
      var descEnd := descDma + descBytes;
      if transferEnd > U32_LIMIT || descEnd > U32_LIMIT || desc.Length < n {
        return Err(InvalidArgument);
      }
      WriteMappedChain(desc, bufferDma, descDma, n);
      r := Begin(c, direction, n, TruncU32(descDma));
      if r.Err? {
        return;
      }
      r := Wait();
      DisableIdmac();
      if r.Err? {
        Recover();
      }
    }

    /** dma_read_blocks_mapped and dma_write_blocks_mapped. */
    method DmaBlocksMapped(write: bool, start: u32, n: u32, bufferDma: u64, descDma: u64, desc: array<Desc>) returns (r: Result<()>)
      modifies this, desc
      ensures !Admissible(n, bufferDma, descDma, desc.Length) ==>
                r == Err(InvalidArgument) && Untouched() == old(Untouched()) && desc[..] == old(desc[..])
      ensures Admissible(n, bufferDma, descDma, desc.Length) ==>
                && IsChain(desc[..], bufferDma, descDma, n) && desc[n..] == old(desc[n..])
                && (if r.Ok? then Tolerated(old(faults), faults, n) else faults == old(faults) + [r.error])
      ensures var c := TransferCommand(write, start, n);
              && (attempted == old(attempted) || attempted == old(attempted) + [c] + (if r.Ok? && n > 1 then [Cmd12] else []))
              && old(issued) <= issued
              && Transfer(issued[|old(issued)|..], c, if write then WriteData else ReadData, n, descDma)
      ensures attempted == old(attempted) ==> r.Err? && useIdmac == old(useIdmac)
      ensures attempted != old(attempted) ==> !useIdmac
      ensures r.Ok? ==> |issued| > |old(issued)|
    {
      if n == 0 || n * BLOCK_SIZE >= U32_LIMIT {
        return Err(InvalidArgument);
      }
      if bufferDma + n * BLOCK_SIZE >= U64_LIMIT || descDma + n * DESC_SIZE >= U64_LIMIT {
        return Err(InvalidArgument);
      }
      if bufferDma + n * BLOCK_SIZE > U32_LIMIT || descDma + n * DESC_SIZE > U32_LIMIT || desc.Length < n {
        return Err(InvalidArgument);
      }
      var cmd;
      if write {
        cmd := if n == 1 then Cmd24(start) else Cmd25(start);
      } else {
        cmd := if n == 1 then Cmd17(start) else Cmd18(start);
      }
      r := IdmacTransferMapped(cmd, n, bufferDma, descDma, desc);
      if r.Err? {
        return;
      }
      if n > 1 {
        var stop := IssueCommand(Cmd12);
      }
    }
  }

  /** A failing stop command is ignored, and only that. */
  predicate Tolerated(before: seq<Error>, after: seq<Error>, n: nat) {
    after == before || (n > 1 && |after| == |before| + 1 && before <= after)
  }

  function DirectionOf(data: Option<PendingData>): Option<DataDirection> {
    if data.Some? then Some(data.value.direction) else None
  }

  /** Descriptor `index` as both builders compute it, in 32-bit arithmetic on truncated
      addresses. Under the guards the casts lose nothing and the sums do not wrap, which
      AddU32 demands of its callers. */
  function Written(bufferDma: u64, descDma: u64, n: u32, index: nat): (d: Desc)
    requires Fits(bufferDma, descDma, n) && index < n
    ensures d == Link(bufferDma, descDma, n, index)
  {
    var last := index + 1 == n;
    Below(bufferDma, descDma, n, index);
    var next := if last then 0 else AddU32(TruncU32(descDma), TruncU32((index + 1) * DESC_SIZE));
    Chained(AddU32(TruncU32(bufferDma), TruncU32(index * BLOCK_SIZE)), BLOCK_SIZE, next, index == 0, last)
  }

  /** The raw builder. */
  method WriteChain(descs: array<Desc>, bufferDma: u64, descDma: u64, n: u32)
    requires Admissible(n, bufferDma, descDma, descs.Length)
    modifies descs
    ensures IsChain(descs[..], bufferDma, descDma, n)
    ensures descs[n..] == old(descs[n..])
  {
    var index := 0;
    while index < n
      invariant 0 <= index <= n
      invariant forall i | 0 <= i < index :: descs[i] == Link(bufferDma, descDma, n, i)
      invariant descs[n..] == old(descs[n..])
    {
      descs[index] := Written(bufferDma, descDma, n, index);
      index := index + 1;
    }
  }

  /** The builder over a mapped descriptor slice. */
  method WriteMappedChain(desc: array<Desc>, bufferDma: u64, descDma: u64, n: u32)
    requires Admissible(n, bufferDma, descDma, desc.Length)
    modifies desc
    ensures IsChain(desc[..], bufferDma, descDma, n)
    ensures desc[n..] == old(desc[n..])
  {
    for index := 0 to n
      invariant forall i | 0 <= i < index :: desc[i] == Link(bufferDma, descDma, n, i)
      invariant desc[n..] == old(desc[n..])
    {
      desc[index] := Written(bufferDma, descDma, n, index);
    }
  }

  /** Whichever path issued it: the engine, started at DBADDR, moves BYTCNT bytes from the
      buffer's first address on, in order, and stops having used the first n descriptors. */
  lemma {:induction false} IssuedChainMovesBuffer(t: seq<Desc>, log: seq<Issue>, c: Command, dir: DataDirection, n: u32, buffer: nat, table: nat)
    requires Admissible(n, buffer, table, |t|) && IsChain(t, buffer, table, n)
    requires |log| > 0 && Transfer(log, c, dir, n, table)
    ensures Walk(t, table, log[0].dbaddr, n) == Stopped(Stations(table, n, 0), Addresses(buffer, log[0].bytcnt))
  {
    EngineFollowsChain(t, buffer, table, n, n);
  }

  /** The engine goes by the registers: started at DBADDR, in the direction the command
      register's write bit says, if a data phase is expected at all. */
  function Execute(i: Issue, t: seq<Desc>, table: nat, fuel: nat, memory: Memory, delivered: seq<u8>): Option<Transferred> {
    if !i.idmac || !DwLatched(i.register).data then None
    else match Walk(t, table, i.dbaddr, fuel)
      case Stopped(_, at) => Moved(DwLatched(i.register).write, at, memory, delivered)
      case _ => None
  }

  /** The card understands an issued transfer of n blocks as a read or write of n blocks at its
      start; the command register says so too, and asks for no automatic stop. */
  lemma IssuedIsUnderstood(log: seq<Issue>, write: bool, start: u32, n: u32, table: nat)
    requires |log| > 0 && Transfer(log, TransferCommand(write, start, n), if write then WriteData else ReadData, n, table)
    ensures Understood(log[0].command, false, false) == if write then WriteBlocks(n > 1, start) else ReadBlocks(n > 1, start)
    ensures var l := DwLatched(log[0].register);
            l.index == log[0].command.cmd && !l.autoStop && l.data && l.write == write && l.answered && l.crc && !l.long
  {
    TransferArrives(write, start, n);
    DwCommandLatched(TransferCommand(write, start, n), Some(if write then WriteData else ReadData));
  }

  /** An issued transfer moves n blocks between card and buffer the right way, in order. */
  lemma IssuedTransferIsDone(t: seq<Desc>, log: seq<Issue>, write: bool, start: u32, n: u32, buffer: nat, table: nat,
                             memory: Memory, delivered: seq<u8>)
    requires Admissible(n, buffer, table, |t|) && IsChain(t, buffer, table, n)
    requires |log| > 0 && Transfer(log, TransferCommand(write, start, n), if write then WriteData else ReadData, n, table)
    requires |delivered| == n * 512
    ensures var r := Execute(log[0], t, table, n, memory, delivered);
            if write then Emptied(r, memory, buffer, n * 512) else Filled(r, memory, buffer, delivered)
  {
    IssuedIsUnderstood(log, write, start, n, table);
    IssuedChainMovesBuffer(t, log, TransferCommand(write, start, n), if write then WriteData else ReadData, n, buffer, table);
    MovedRun(memory, buffer, n * 512, delivered);
  }

  /** The card is left streaming exactly if several blocks were asked for and no stop followed. */
  lemma IssuedTransferEnds(log: seq<Issue>, write: bool, start: u32, n: u32, table: nat)
    requires |log| > 0 && Transfer(log, TransferCommand(write, start, n), if write then WriteData else ReadData, n, table)
    ensures Streaming(seq(|log|, k requires 0 <= k < |log| => log[k].command)) <==> n > 1 && |log| == 1
  {
    TransferArrives(write, start, n);
    PlainArrive(false);
    var cmds := seq(|log|, k requires 0 <= k < |log| => log[k].command);
    assert |log| == 1 || |log| == 2;
  }
}
