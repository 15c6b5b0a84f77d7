/** The SPI-mode driver: polling, data blocks, commands, block reads and writes. */
module SpiDriver {
  import opened Errors
  import opened MachineInts
  import opened Commands
  import opened Crc16
  import opened CommandFrame
  import opened SpiBus
  import opened SpiCard

  const TOKEN_START_BLOCK: byte := 0xFE
  const TOKEN_START_MULTI_BLOCK: byte := 0xFC
  const TOKEN_STOP_TRAN: byte := 0xFD

  const RESPONSE_TIMEOUT_US: u32 := 100_000
  const READ_TIMEOUT_US: u32 := 100_000
  const WRITE_BUSY_TIMEOUT_US: u32 := 250_000
  const INIT_TIMEOUT_US: u32 := 1_000_000

  const BLOCK_LEN: nat := 512

  /** Delays a poll loop makes before it gives up. */
  function Budget(timeoutUs: u32): (n: nat)
    ensures POLL_INTERVAL_US * n >= timeoutUs
    ensures n > 0 ==> POLL_INTERVAL_US * (n - 1) < timeoutUs
  {
    CeilDiv(timeoutUs, POLL_INTERVAL_US)
  }

  /** Elapsed time after n polls, as the saturating counter holds it. */
  function Elapsed(n: nat): u32 {
    if POLL_INTERVAL_US * n < U32_LIMIT then POLL_INTERVAL_US * n else U32_LIMIT - 1
  }

  lemma GivesUp(n: nat, timeoutUs: u32)
    requires n > 0 ==> POLL_INTERVAL_US * (n - 1) < timeoutUs
    ensures n <= Budget(timeoutUs)
    ensures Elapsed(n) >= timeoutUs <==> n == Budget(timeoutUs)
  {
  }

  lemma {:induction false} PollMore(answers: seq<byte>, b: byte)
    ensures PollRun(answers + [b]) == PollRun(answers) + [Xfer(IDLE, Ok(b)), Delay(POLL_INTERVAL_US)]
  {
    assert (answers + [b])[..|answers|] == answers;
  }

  lemma PolledAgain(t: seq<Event>, polls: seq<Event>, x: Event, d: Event)
    ensures t + polls + [x] + [d] == t + (polls + [x, d])
  {
  }

  /** No answer signals "not busy". */
  predicate Busy(answers: seq<byte>) {
    forall b | b in answers :: b != IDLE
  }

  // ----- Outcomes of a data read -----

  datatype ReadEnd =
    | NoToken(last: Result<byte>)
    | Interrupted(got: seq<byte>, error: Error)
    | Complete(data: seq<byte>, hi: byte, lo: byte)

  /** How a read of len bytes can end after a number of idle polls. */
  ghost predicate ReadPossible(idle: nat, end: ReadEnd, len: nat) {
    && idle <= Budget(READ_TIMEOUT_US)
    && match end
       case NoToken(last) =>
         last != Ok(TOKEN_START_BLOCK) && (last == Ok(IDLE) ==> idle == Budget(READ_TIMEOUT_US))
       case Interrupted(got, _) => |got| < len + 2
       case Complete(data, _, _) => |data| == len
  }

  /** The bus traffic of a read. */
  function ReadEvents(idle: nat, end: ReadEnd): seq<Event> {
    PollRun(Idles(idle)) +
    match end
    case NoToken(last) => [Xfer(IDLE, last)]
    case Interrupted(got, e) => [Xfer(IDLE, Ok(TOKEN_START_BLOCK))] + Received(got) + [Xfer(IDLE, Err(e))]
    case Complete(data, hi, lo) => [Xfer(IDLE, Ok(TOKEN_START_BLOCK))] + Received(data + [hi, lo])
  }

  /** What the caller is told. */
  function ReadVerdict(end: ReadEnd, verify: bool): Result<()> {
    match end
    case NoToken(Err(e)) => Err(e)
    case NoToken(Ok(b)) => if b == IDLE then Err(Timeout(At(DataRead))) else Err(ReadError(At(DataRead)))
    case Interrupted(_, e) => Err(e)
    case Complete(data, hi, lo) => if verify && !BlockOk(data, hi, lo) then Err(CrcMismatch(At(DataRead))) else Ok(())
  }

  // ----- One block written -----

  /** A data packet: token, payload, CRC. */
  function Packet(token: byte, data: seq<byte>): (p: seq<byte>)
    ensures |p| == |data| + 3
  {
    [token] + data + Trailer(Crc(data))
  }

  /** What happened while a packet was written: the card's idle fill, its data response, its
      busy answers. */
  datatype BlockRun = BlockRun(token: byte, data: seq<byte>, echo: seq<byte>, idle: nat, response: byte, busy: seq<byte>)

  /** The card took the block and went ready again. */
  ghost predicate Accepted(run: BlockRun) {
    && |run.echo| == |run.data| + 3
    && run.idle <= Budget(RESPONSE_TIMEOUT_US)
    && Says(run.response, Took)
    && Busy(run.busy) && |run.busy| <= Budget(WRITE_BUSY_TIMEOUT_US)
  }

  function PacketEvents(run: BlockRun): seq<Event>
    requires |run.echo| == |run.data| + 3
  {
    Sent(Packet(run.token, run.data), run.echo) + PollRun(Idles(run.idle)) + [Xfer(IDLE, Ok(run.response))]
  }

  function RunEvents(run: BlockRun): seq<Event>
    requires |run.echo| == |run.data| + 3
  {
    PacketEvents(run) + (PollRun(run.busy) + [Xfer(IDLE, Ok(IDLE))])
  }

  // ----- One command -----

  /** An R1 byte in SPI mode, and the payloads that can follow it. */
  datatype Reply = ReplyR1(r1: byte) | ReplyR1b(r1: byte) | ReplyR2(reg: seq<byte>) | ReplyR3(ocr: seq<byte>) | ReplyR7(echo: seq<byte>)

  predicate IsIdle(r1: byte) { r1 & 0x01 != 0 }

  predicate IsIllegal(r1: byte) { r1 & 0x04 != 0 }

  /** from_spi_byte: the start bit of R1 is 0. */
  predicate IsR1(b: byte) { b & 0x80 == 0 }

  /** What one command exchange looked like. */
  datatype CommandRun = CommandRun(echo: seq<byte>, idle: nat, r1: byte, payload: seq<Event>)

  ghost predicate Answered(run: CommandRun) {
    |run.echo| == 6 && run.idle <= Budget(RESPONSE_TIMEOUT_US) && IsR1(run.r1)
  }

  /** Response kinds that consist of the R1 byte alone. */
  predicate OnlyR1(resp: ResponseType) {
    resp in {RespNone, RespR1, RespR4, RespR5, RespR6}
  }

  /** Commands on which send_command_raw returns before it reaches the deselect. */
  predicate ReturnsEarly(resp: ResponseType, r1: byte) {
    (resp == RespR7 && IsIllegal(r1)) || (resp == RespR2 && r1 != 0)
  }

  /** Chip select, the frame, polls until R1. */
  function CommandHead(c: Command, echo: seq<byte>, idle: nat, r1: byte): seq<Event>
    requires |echo| == 6
  {
    [Select(true)] + Sent(FrameBytes(c), echo) + PollRun(Idles(idle)) + [Xfer(IDLE, Ok(r1))]
  }

  /** Chip select is released at the very end, unless data follows or on an early return. */
  function Closing(c: Command, r1: byte): seq<Event> {
    if c.DataDirection() == NoData && !ReturnsEarly(c.resp, r1) then [Deselect(true)] else []
  }

  function CommandEvents(c: Command, run: CommandRun): seq<Event>
    requires |run.echo| == 6
  {
    CommandHead(c, run.echo, run.idle, run.r1) + run.payload + Closing(c, run.r1)
  }

  /** Polls until not busy, within the write budget. */
  ghost predicate BusyOver(payload: seq<Event>) {
    exists busy :: BusyOverAfter(payload, busy)
  }

  ghost predicate BusyOverAfter(payload: seq<Event>, busy: seq<byte>) {
    Busy(busy) && |busy| <= Budget(WRITE_BUSY_TIMEOUT_US) && payload == PollRun(busy) + [Xfer(IDLE, Ok(IDLE))]
  }

  /** A whole data read that ends well and brings the given bytes. */
  ghost predicate Brings(payload: seq<Event>, reg: seq<byte>, verify: bool) {
    exists idle, end :: BringsBy(payload, reg, verify, idle, end)
  }

  ghost predicate BringsBy(payload: seq<Event>, reg: seq<byte>, verify: bool, idle: nat, end: ReadEnd) {
    && end.Complete? && end.data == reg && ReadPossible(idle, end, |reg|)
    && ReadVerdict(end, verify) == Ok(()) && payload == ReadEvents(idle, end)
  }

  /** The reply reported for a response kind, given R1 and the traffic after it. */
  ghost predicate ReplyFits(resp: ResponseType, r1: byte, reply: Reply, payload: seq<Event>, verify: bool) {
    if OnlyR1(resp) || ReturnsEarly(resp, r1) then reply == ReplyR1(r1) && payload == []
    else if resp == RespR1b then reply == ReplyR1b(r1) && BusyOver(payload)
    else if resp == RespR2 then reply.ReplyR2? && |reply.reg| == 16 && Brings(payload, reply.reg, verify)
    else if resp == RespR3 then reply.ReplyR3? && |reply.ocr| == 4 && payload == Received(reply.ocr)
    else reply.ReplyR7? && |reply.echo| == 4 && payload == Received(reply.echo)
  }

  // ----- Blame -----

  /** An event that accounts for an error: the bus failed, or the byte it brought is the one
      the driver complains about. */
  predicate Blames(e: Event, err: Error) {
    match e
    case Select(ok) => !ok
    case Deselect(ok) => !ok
    case Delay(_) => false
    case Xfer(_, Err(x)) => x == err
    case Xfer(_, Ok(b)) =>
      match err
      case Timeout(ctx) => if b == IDLE then ctx in {At(ResponseWait), At(DataRead)} else ctx == At(BusyWait)
      case BadResponse(_) => !IsR1(b)
      case WriteError(_) => !Says(b, Took)
      case ReadError(_) => b != IDLE && b != TOKEN_START_BLOCK
      case CrcMismatch(_) => true
      case _ => false
  }

  /** The bus itself failed, with this error. */
  predicate BusFailed(t: seq<Event>, err: Error) {
    t != [] && (t[|t| - 1] == Deselect(false) || (t[|t| - 1].Xfer? && t[|t| - 1].answer == Err(err)))
  }

  /** What a card said about a packet is what the caller is told: a block taken is Ok, but for
      a busy time-out or a failing bus; a block refused is a WriteError; and nothing else is
      reported of a packet without an answer than a time-out or a failing bus. */
  predicate Heeds(r: Result<()>, answered: bool, response: byte, ctx: ErrorContext, t: seq<Event>) {
    if !answered then r.Err? && (r == Err(Timeout(At(ResponseWait))) || BusFailed(t, r.error))
    else if Says(response, Took) then r.Ok? || r == Err(Timeout(At(BusyWait))) || BusFailed(t, r.error)
    else r == Err(WriteError(ctx))
  }

  /** A call that failed did so at its last event. */
  predicate FailedHere(before: seq<Event>, t: seq<Event>, err: Error) {
    |before| < |t| && Blames(t[|t| - 1], err)
  }

  // ----- Multi-block write -----

  function RunsEvents(runs: seq<BlockRun>): seq<Event>
    requires WellFormed(runs)
  {
    if runs == [] then [] else RunsEvents(runs[..|runs| - 1]) + RunEvents(runs[|runs| - 1])
  }

  /** Stop token, one fill byte, busy polls, chip select released. */
  datatype StopRun = StopRun(echo: byte, fill: byte, busy: seq<byte>)

  function StopEvents(stop: StopRun): seq<Event> {
    [Xfer(TOKEN_STOP_TRAN, Ok(stop.echo)), Xfer(IDLE, Ok(stop.fill))] + PollRun(stop.busy) + [Xfer(IDLE, Ok(IDLE))]
  }

  ghost predicate BlocksAccepted(runs: seq<BlockRun>, blocks: seq<seq<byte>>) {
    && |runs| == |blocks| && WellFormed(runs)
    && forall k | 0 <= k < |runs| :: Accepted(runs[k]) && runs[k].token == TOKEN_START_MULTI_BLOCK && runs[k].data == blocks[k]
  }

  class SpiSdmmc {
    const bus: Bus
    var sdV2: bool
    var highCapacity: bool
    var verifyDataCrc: bool

    constructor (bus: Bus)
      ensures this.bus == bus && !sdV2 && !highCapacity && verifyDataCrc
    {
      this.bus := bus;
      sdV2, highCapacity, verifyDataCrc := false, false, true;
    }

    /** The first byte other than 0xFF among at most Budget(timeoutUs) + 1 transfers. */
    method WaitForResponse(timeoutUs: u32) returns (r: Result<byte>, ghost idle: nat, ghost last: Result<byte>)
      modifies bus`trace
      ensures bus.trace == old(bus.trace) + PollRun(Idles(idle)) + [Xfer(IDLE, last)]
      ensures idle <= Budget(timeoutUs)
      ensures last == Ok(IDLE) ==> idle == Budget(timeoutUs) && r == Err(Timeout(At(ResponseWait)))
      ensures last != Ok(IDLE) ==> r == last
      ensures r.Err? ==> FailedHere(old(bus.trace), bus.trace, r.error)
    {
      var elapsed: u32 := 0;
      idle := 0;
      assert PollRun(Idles(0)) == [];
      while true
        invariant bus.trace == old(bus.trace) + PollRun(Idles(idle))
        invariant elapsed == Elapsed(idle)
        invariant idle > 0 ==> POLL_INTERVAL_US * (idle - 1) < timeoutUs
        decreases Budget(timeoutUs) - idle
      {
        GivesUp(idle, timeoutUs);
        r := bus.TransferByte(IDLE);
        last := r;
        if r.Err? || r.value != IDLE {
          return;
        }
        if elapsed >= timeoutUs {
          r := Err(Timeout(At(ResponseWait)));
          return;
        }
        bus.DelayUs(POLL_INTERVAL_US);
        elapsed := SaturatingAddU32(elapsed, POLL_INTERVAL_US);
        PollMore(Idles(idle), IDLE);
        assert Idles(idle) + [IDLE] == Idles(idle + 1);
        idle := idle + 1;
      }
    }

    /** Polls until the card answers 0xFF. */
    method WaitNotBusy() returns (r: Result<()>, ghost busy: seq<byte>, ghost last: Result<byte>)
      modifies bus`trace
      ensures bus.trace == old(bus.trace) + PollRun(busy) + [Xfer(IDLE, last)]
      ensures Busy(busy) && |busy| <= Budget(WRITE_BUSY_TIMEOUT_US)
      ensures r.Ok? <==> last == Ok(IDLE)
      ensures last.Ok? && last.value != IDLE ==>
                |busy| == Budget(WRITE_BUSY_TIMEOUT_US) && r == Err(Timeout(At(BusyWait)))
      ensures last.Err? ==> r == Err(last.error)
      ensures r.Err? ==> FailedHere(old(bus.trace), bus.trace, r.error)
    {
      var elapsed: u32 := 0;
      busy := [];
      while true
        invariant bus.trace == old(bus.trace) + PollRun(busy)
        invariant Busy(busy)
        invariant elapsed == Elapsed(|busy|)
        invariant |busy| > 0 ==> POLL_INTERVAL_US * (|busy| - 1) < WRITE_BUSY_TIMEOUT_US
        decreases Budget(WRITE_BUSY_TIMEOUT_US) - |busy|
      {
        GivesUp(|busy|, WRITE_BUSY_TIMEOUT_US);
        var answer := bus.TransferByte(IDLE);
        last := answer;
        if answer.Err? {
          r := Err(answer.error);
          return;
        }
        if answer.value == IDLE {
          r := Ok(());
          return;
        }
        if elapsed >= WRITE_BUSY_TIMEOUT_US {
          r := Err(Timeout(At(BusyWait)));
          return;
        }
        bus.DelayUs(POLL_INTERVAL_US);
        elapsed := SaturatingAddU32(elapsed, POLL_INTERVAL_US);
        PollMore(busy, answer.value);
        PolledAgain(old(bus.trace), PollRun(busy), Xfer(IDLE, answer), Delay(POLL_INTERVAL_US));
        busy := busy + [answer.value];
      }
    }

    /** The first loop of read_data_into. */
    method WaitStartToken() returns (r: Result<()>, ghost idle: nat, ghost last: Result<byte>)
      modifies bus`trace
      ensures bus.trace == old(bus.trace) + PollRun(Idles(idle)) + [Xfer(IDLE, last)]
      ensures idle <= Budget(READ_TIMEOUT_US)
      ensures last == Ok(IDLE) ==> idle == Budget(READ_TIMEOUT_US)
      ensures r.Ok? <==> last == Ok(TOKEN_START_BLOCK)
      ensures r.Err? ==> r == ReadVerdict(NoToken(last), verifyDataCrc)
      ensures r.Err? ==> FailedHere(old(bus.trace), bus.trace, r.error)
    {
      var elapsed: u32 := 0;
      idle := 0;
      assert PollRun(Idles(0)) == [];
      while true
        invariant bus.trace == old(bus.trace) + PollRun(Idles(idle))
        invariant elapsed == Elapsed(idle)
        invariant idle > 0 ==> POLL_INTERVAL_US * (idle - 1) < READ_TIMEOUT_US
        decreases Budget(READ_TIMEOUT_US) - idle
      {
        GivesUp(idle, READ_TIMEOUT_US);
        var b := bus.TransferByte(IDLE);
        last := b;
        if b.Err? {
          r := Err(b.error);
          return;
        }
        if b.value == TOKEN_START_BLOCK {
          r := Ok(());
          return;
        }
        if b.value != IDLE {
          r := Err(ReadError(At(DataRead)));
          return;
        }
        if elapsed >= READ_TIMEOUT_US {
          r := Err(Timeout(At(DataRead)));
          return;
        }
        bus.DelayUs(POLL_INTERVAL_US);
        elapsed := SaturatingAddU32(elapsed, POLL_INTERVAL_US);
        PollMore(Idles(idle), IDLE);
        assert Idles(idle) + [IDLE] == Idles(idle + 1);
        idle := idle + 1;
      }
    }

    /** Clocks in buf.Length bytes. */
    method ReceiveInto(buf: array<byte>) returns (r: Result<()>, ghost got: seq<byte>)
      modifies bus`trace, buf
      ensures r.Ok? ==> got == buf[..] && bus.trace == old(bus.trace) + Received(got)
      ensures r.Err? ==> |got| < buf.Length && bus.trace == old(bus.trace) + Received(got) + [Xfer(IDLE, Err(r.error))]
      ensures r.Err? ==> FailedHere(old(bus.trace), bus.trace, r.error)
    {
      got := [];
      for i := 0 to buf.Length
        invariant got == buf[..i]
        invariant bus.trace == old(bus.trace) + Received(got)
      {
        var b := bus.TransferByte(IDLE);
        if b.Err? {
          r := Err(b.error);
          return;
        }
        ReceivedMore(got, b.value);
        buf[i] := b.value;
        got := got + [b.value];
      }
      r := Ok(());
    }

    method ReceiveTrailer() returns (r: Result<(byte, byte)>, ghost got: seq<byte>)
      modifies bus`trace
      ensures r.Ok? ==> got == [r.value.0, r.value.1] && bus.trace == old(bus.trace) + Received(got)
      ensures r.Err? ==> |got| < 2 && bus.trace == old(bus.trace) + Received(got) + [Xfer(IDLE, Err(r.error))]
      ensures r.Err? ==> FailedHere(old(bus.trace), bus.trace, r.error)
    {
      got := [];
      assert Received([]) == [];
      var hi := bus.TransferByte(IDLE);
      if hi.Err? {
        r := Err(hi.error);
        return;
      }
      got := [hi.value];
      ReceivedMore([], hi.value);
      assert [] + [hi.value] == got;
      var lo := bus.TransferByte(IDLE);
      if lo.Err? {
        r := Err(lo.error);
        return;
      }
      got := [hi.value, lo.value];
      ReceivedMore([hi.value], lo.value);
      assert [hi.value] + [lo.value] == got;
      r := Ok((hi.value, lo.value));
    }

    /** Waits for the start token, fills buf, checks the trailer. */
    method ReadDataInto(buf: array<byte>) returns (r: Result<()>, ghost idle: nat, ghost end: ReadEnd)
      modifies bus`trace, buf
      ensures bus.trace == old(bus.trace) + ReadEvents(idle, end)
      ensures ReadPossible(idle, end, buf.Length)
      ensures r == ReadVerdict(end, verifyDataCrc)
      ensures end.Complete? ==> buf[..] == end.data
      ensures r.Err? ==> FailedHere(old(bus.trace), bus.trace, r.error)
    {
      ghost var before, last := bus.trace, Ok(IDLE);
      r, idle, last := WaitStartToken();
      end := NoToken(last);
      if r.Err? {
        return;
      }
      ghost var data: seq<byte>;
      r, data := ReceiveInto(buf);
      if r.Err? {
        end := Interrupted(data + [], r.error);
        InterruptedShape(before, idle, data, [], r.error);
        return;
      }
      ghost var tail: seq<byte>;
      var trailer;
      trailer, tail := ReceiveTrailer();
      if trailer.Err? {
        end := Interrupted(data + tail, trailer.error);
        InterruptedShape(before, idle, data, tail, trailer.error);
        r := Err(trailer.error);
        return;
      }
      var (hi, lo) := trailer.value;
      end := Complete(data, hi, lo);
      CompleteShape(before, idle, data, hi, lo);
      r := Ok(());
      if verifyDataCrc {
        var computed := Crc16Ccitt(buf[..]);
        if FromTrailer(hi, lo) != computed {
          r := Err(CrcMismatch(At(DataRead)));
        }
      }
    }

    method SendBytes(data: seq<byte>) returns (r: Result<()>, ghost echo: seq<byte>)
      modifies bus`trace
      ensures r.Ok? ==> |echo| == |data| && bus.trace == old(bus.trace) + Sent(data, echo)
      ensures r.Err? ==> |echo| < |data|
                         && bus.trace == old(bus.trace) + Sent(data[..|echo|], echo) + [Xfer(data[|echo|], Err(r.error))]
      ensures r.Err? ==> FailedHere(old(bus.trace), bus.trace, r.error)
    {
      echo := [];
      for i := 0 to |data|
        invariant |echo| == i && bus.trace == old(bus.trace) + Sent(data[..i], echo)
      {
        var b := bus.TransferByte(data[i]);
        if b.Err? {
          r := Err(b.error);
          return;
        }
        SentMore(data, echo, b.value);
        echo := echo + [b.value];
      }
      assert data[..|data|] == data;
      r := Ok(());
    }

    /** Packet and data response. */
    method SendForResponse(token: byte, data: seq<byte>) returns (r: Result<byte>, ghost run: BlockRun)
      modifies bus`trace
      ensures run.token == token && run.data == data
      ensures r.Ok? ==>
                && run.response == r.value && run.busy == [] && |run.echo| == |data| + 3
                && run.idle <= Budget(RESPONSE_TIMEOUT_US)
                && bus.trace == old(bus.trace) + PacketEvents(run) && bus.trace[|bus.trace| - 1] == Xfer(IDLE, r)
      ensures r.Err? ==> r == Err(Timeout(At(ResponseWait))) || BusFailed(bus.trace, r.error)
      ensures r.Err? ==> FailedHere(old(bus.trace), bus.trace, r.error)
    {
      run := BlockRun(token, data, [], 0, 0, []);
      var crc := Crc16Ccitt(data);
      ghost var echo;
      var sent;
      sent, echo := SendBytes([token] + data + Trailer(crc));
      if sent.Err? {
        return Err(sent.error), run;
      }
      ghost var idle, last;
      r, idle, last := WaitForResponse(RESPONSE_TIMEOUT_US);
      if r.Ok? {
        run := BlockRun(token, data, echo, idle, r.value, []);
        assert bus.trace == old(bus.trace) + PacketEvents(run);
      }
    }

    /** Packet, data response, busy: the common part of write_data_block and write_blocks. */
    method SendPacket(token: byte, data: seq<byte>, ctx: ErrorContext)
      returns (r: Result<()>, ghost run: BlockRun, ghost answered: bool)
      modifies bus`trace
      ensures run.token == token && run.data == data
      ensures Heeds(r, answered, run.response, ctx, bus.trace)
      ensures r.Ok? ==> Accepted(run) && bus.trace == old(bus.trace) + RunEvents(run)
      ensures answered ==> |run.echo| == |data| + 3 && old(bus.trace) + PacketEvents(run) <= bus.trace
      ensures answered && !Says(run.response, Took) ==> bus.trace == old(bus.trace) + PacketEvents(run)
      ensures r.Err? ==> FailedHere(old(bus.trace), bus.trace, r.error)
    {
      var response;
      response, run := SendForResponse(token, data);
      answered := response.Ok?;
      if response.Err? {
        r := Err(response.error);
        return;
      }
      TookIff(response.value);
      if response.value & 0x1F != 0x05 {
        r := Err(WriteError(ctx));
        return;
      }
      ghost var busy, ready;
      r, busy, ready := WaitNotBusy();
      BusyAfter(old(bus.trace), PacketEvents(run), PollRun(busy), Xfer(IDLE, ready));
      run := run.(busy := busy);
    }

    method WriteDataBlock(buf: seq<byte>) returns (r: Result<()>, ghost run: BlockRun, ghost answered: bool)
      requires |buf| == BLOCK_LEN
      modifies bus`trace
      ensures run.token == TOKEN_START_BLOCK && run.data == buf
      ensures Heeds(r, answered, run.response, At(DataWrite), bus.trace)
      ensures r.Ok? ==> Accepted(run) && bus.trace == old(bus.trace) + RunEvents(run) + [Deselect(true)]
      ensures r.Err? ==> FailedHere(old(bus.trace), bus.trace, r.error)
    {
      r, run, answered := SendPacket(TOKEN_START_BLOCK, buf, At(DataWrite));
      if r.Ok? {
        r := bus.DeselectChip();
      }
    }

    method ReadR1() returns (r: Result<byte>, ghost idle: nat, ghost last: Result<byte>)
      modifies bus`trace
      ensures bus.trace == old(bus.trace) + PollRun(Idles(idle)) + [Xfer(IDLE, last)]
      ensures r.Ok? ==> last == r && IsR1(r.value) && idle <= Budget(RESPONSE_TIMEOUT_US)
      ensures last.Ok? && last.value != IDLE && !IsR1(last.value) ==> r == Err(BadResponse(At(ResponseWait)))
      ensures r.Err? ==> FailedHere(old(bus.trace), bus.trace, r.error)
    {
      r, idle, last := WaitForResponse(RESPONSE_TIMEOUT_US);
      if r.Ok? && r.value & 0x80 != 0 {
        r := Err(BadResponse(At(ResponseWait)));
      }
    }

    /** Select, frame, R1: what send_command_raw and switch_function start with. */
    method SendFrame(c: Command) returns (r: Result<byte>, ghost run: CommandRun)
      modifies bus`trace
      ensures r.Ok? ==> Answered(run) && run.r1 == r.value && run.payload == []
                        && bus.trace == old(bus.trace) + CommandHead(c, run.echo, run.idle, run.r1)
      ensures r.Err? ==> FailedHere(old(bus.trace), bus.trace, r.error)
    {
      run := CommandRun([], 0, 0, []);
      var ok := bus.SelectChip();
      if ok.Err? {
        r := Err(ok.error);
        return;
      }
      var bytes := ToSpiBytes(c);
      ghost var echo;
      ok, echo := SendBytes(bytes);
      if ok.Err? {
        r := Err(ok.error);
        return;
      }
      ghost var idle, last;
      r, idle, last := ReadR1();
      if r.Ok? {
        run := CommandRun(echo, idle, r.value, []);
        Regroup4(old(bus.trace), [Select(true)], Sent(bytes, echo), PollRun(Idles(idle)), [Xfer(IDLE, Ok(r.value))]);
      }
    }

    method ReceiveFour() returns (r: Result<seq<byte>>)
      modifies bus`trace
      ensures r.Ok? ==> |r.value| == 4 && bus.trace == old(bus.trace) + Received(r.value)
      ensures r.Err? ==> FailedHere(old(bus.trace), bus.trace, r.error)
      ensures old(bus.trace) <= bus.trace
    {
      var buf := new byte[4];
      ghost var got;
      var ok;
      ok, got := ReceiveInto(buf);
      r := if ok.Ok? then Ok(buf[..]) else Err(ok.error);
    }

    /** The deselect that ends commands without a data phase. */
    method EndCommand(c: Command) returns (r: Result<()>)
      modifies bus`trace
      ensures c.DataDirection() == NoData ==> bus.trace == old(bus.trace) + [Deselect(r.Ok?)]
      ensures c.DataDirection() != NoData ==> r.Ok? && bus.trace == old(bus.trace)
      ensures r.Err? ==> FailedHere(old(bus.trace), bus.trace, r.error)
    {
      r := Ok(());
      if c.DataDirection() == NoData {
        r := bus.DeselectChip();
      }
    }

    /** The payload that follows R1. */
    method ReadPayload(resp: ResponseType, r1: byte) returns (r: Result<Reply>, ghost payload: seq<Event>)
      requires !ReturnsEarly(resp, r1)
      modifies bus`trace
      ensures bus.trace == old(bus.trace) + payload
      ensures r.Ok? ==> ReplyFits(resp, r1, r.value, payload, verifyDataCrc)
      ensures r.Err? ==> FailedHere(old(bus.trace), bus.trace, r.error)
    {
      if resp == RespR1b {
        var done;
        ghost var busy, ready;
        done, busy, ready := WaitNotBusy();
        r := if done.Ok? then Ok(ReplyR1b(r1)) else Err(done.error);
        SuffixIs(old(bus.trace), PollRun(busy) + [Xfer(IDLE, ready)], bus.trace);
        assert done.Ok? ==> BusyOverAfter(bus.trace[|old(bus.trace)|..], busy);
      } else if resp == RespR3 || resp == RespR7 {
        var four := ReceiveFour();
        r := if four.Err? then Err(four.error)
        else if resp == RespR3 then Ok(ReplyR3(four.value)) else Ok(ReplyR7(four.value));
      } else if resp == RespR2 {
        var buf := new byte[16];
        var done;
        ghost var idle, end;
        done, idle, end := ReadDataInto(buf);
        r := if done.Ok? then Ok(ReplyR2(buf[..])) else Err(done.error);
        SuffixIs(old(bus.trace), ReadEvents(idle, end), bus.trace);
        assert done.Ok? ==> BringsBy(bus.trace[|old(bus.trace)|..], buf[..], verifyDataCrc, idle, end);
      } else {
        r := Ok(ReplyR1(r1));
      }
      payload := bus.trace[|old(bus.trace)|..];
    }

    method SendCommandRaw(c: Command) returns (r: Result<Reply>, ghost run: CommandRun)
      modifies bus
      ensures r.Ok? ==> Answered(run) && ReplyFits(c.resp, run.r1, r.value, run.payload, verifyDataCrc)
      ensures r.Ok? ==> bus.trace == old(bus.trace) + CommandEvents(c, run)
      ensures r.Err? ==> FailedHere(old(bus.trace), bus.trace, r.error)
    {
      var r1;
      r1, run := SendFrame(c);
      if r1.Err? {
        r := Err(r1.error);
        return;
      }
      if ReturnsEarly(c.resp, r1.value) {
        r := Ok(ReplyR1(r1.value));
        CommandShape(old(bus.trace), c, run);
        return;
      }
      ghost var payload;
      r, payload := ReadPayload(c.resp, r1.value);
      if r.Err? {
        return;
      }
      run := run.(payload := payload);
      var done := EndCommand(c);
      if done.Err? {
        r := Err(done.error);
        return;
      }
      CommandShape(old(bus.trace), c, run);
    }

    method SendCommand(c: Command) returns (r: Result<byte>, ghost run: CommandRun)
      modifies bus
      ensures r.Ok? ==> Answered(run) && r.value == run.r1 && bus.trace == old(bus.trace) + CommandEvents(c, run)
      ensures r.Ok? && OnlyR1(c.resp) ==> run.payload == []
      ensures r.Err? && (OnlyR1(c.resp) || c.resp == RespR1b) ==> FailedHere(old(bus.trace), bus.trace, r.error)
    {
      var reply;
      reply, run := SendCommandRaw(c);
      if reply.Err? {
        r := Err(reply.error);
      } else if reply.value.ReplyR1? || reply.value.ReplyR1b? {
        r := Ok(reply.value.r1);
      } else {
        r := Err(BadResponse(ForCmd(ResponseWait, c.cmd)));
      }
    }

    method ReadDataBlock(buf: array<byte>) returns (r: Result<()>, ghost idle: nat, ghost end: ReadEnd)
      requires buf.Length == BLOCK_LEN
      modifies bus`trace, buf
      ensures r.Ok? ==> end.Complete? && buf[..] == end.data && idle <= Budget(READ_TIMEOUT_US)
      ensures r.Ok? ==> ReadVerdict(end, verifyDataCrc) == Ok(())
      ensures r.Ok? ==> bus.trace == old(bus.trace) + ReadEvents(idle, end) + [Deselect(true)]
      ensures r.Err? ==> FailedHere(old(bus.trace), bus.trace, r.error)
    {
      r, idle, end := ReadDataInto(buf);
      if r.Ok? {
        r := bus.DeselectChip();
      }
    }

    /** A read command and the block it makes the card send. */
    method CommandAndBlock(c: Command, buf: array<byte>)
      returns (r: Result<()>, ghost cmd: CommandRun, ghost idle: nat, ghost end: ReadEnd)
      requires buf.Length == BLOCK_LEN && OnlyR1(c.resp)
      modifies bus, buf
      ensures r.Ok? ==> end.Complete? && buf[..] == end.data && idle <= Budget(READ_TIMEOUT_US)
      ensures r.Ok? ==> ReadVerdict(end, verifyDataCrc) == Ok(())
      ensures r.Ok? ==> Answered(cmd) && cmd.payload == []
      ensures r.Ok? ==> bus.trace == old(bus.trace) + CommandEvents(c, cmd) + ReadEvents(idle, end) + [Deselect(true)]
      ensures r.Err? ==> FailedHere(old(bus.trace), bus.trace, r.error)
    {
      var sent;
      sent, cmd := SendCommand(c);
      if sent.Err? {
        r := Err(sent.error);
        idle, end := 0, NoToken(Err(sent.error));
        return;
      }
      r, idle, end := ReadDataBlock(buf);
    }

    method ReadBlock(addr: u32, buf: array<byte>)
      returns (r: Result<()>, ghost cmd: CommandRun, ghost idle: nat, ghost end: ReadEnd)
      requires buf.Length == BLOCK_LEN
      requires highCapacity || addr < 0x80_0000
      modifies bus, buf
      ensures r.Ok? ==> end.Complete? && buf[..] == end.data && idle <= Budget(READ_TIMEOUT_US)
      ensures r.Ok? ==> ReadVerdict(end, verifyDataCrc) == Ok(())
      ensures r.Ok? ==> Answered(cmd) && cmd.payload == []
      ensures r.Ok? ==> (bus.trace ==
                         old(bus.trace) + CommandEvents(Cmd17(BlockAddrOf(addr, highCapacity)), cmd)
                         + ReadEvents(idle, end) + [Deselect(true)])
      ensures r.Err? ==> FailedHere(old(bus.trace), bus.trace, r.error)
    {
      r, cmd, idle, end := CommandAndBlock(Cmd17(BlockAddrOf(addr, highCapacity)), buf);
    }

    method WriteBlock(addr: u32, buf: seq<byte>)
      returns (r: Result<()>, ghost cmd: CommandRun, ghost run: BlockRun, ghost answered: bool)
      requires |buf| == BLOCK_LEN
      requires highCapacity || addr < 0x80_0000
      modifies bus
      ensures r.Ok? ==> Accepted(run) && run.token == TOKEN_START_BLOCK && run.data == buf
      ensures r.Ok? ==> Answered(cmd) && cmd.payload == []
      ensures r.Ok? ==> (bus.trace ==
                         old(bus.trace) + CommandEvents(Cmd24(BlockAddrOf(addr, highCapacity)), cmd)
                         + RunEvents(run) + [Deselect(true)])
      ensures r.Ok? || answered ==> Heeds(r, answered, run.response, At(DataWrite), bus.trace)
      ensures r.Err? ==> FailedHere(old(bus.trace), bus.trace, r.error)
    {
      var sent;
      answered := false;
      sent, cmd := SendCommand(Cmd24(BlockAddrOf(addr, highCapacity)));
      run := BlockRun(TOKEN_START_BLOCK, buf, [], 0, 0, []);
      if sent.Err? {
        r := Err(sent.error);
        return;
      }
      r, run, answered := WriteDataBlock(buf);
    }

    /** The loop of write_blocks. */
    method SendBlocks(blocks: seq<seq<byte>>)
      returns (r: Result<()>, ghost runs: seq<BlockRun>, ghost last: BlockRun, ghost answered: bool)
      modifies bus`trace
      ensures r.Err? ==>
                && |runs| < |blocks| && last.data == blocks[|runs|]
                && Heeds(r, answered, last.response, ForCmd(DataWrite, 25), bus.trace)
      ensures r.Ok? ==> BlocksAccepted(runs, blocks) && bus.trace == old(bus.trace) + RunsEvents(runs)
      ensures |runs| <= |blocks| && BlocksAccepted(runs, blocks[..|runs|])
      ensures r.Err? ==> FailedHere(old(bus.trace), bus.trace, r.error)
    {
      runs := [];
      last, answered := BlockRun(0, [], [], 0, 0, []), false;
      ghost var start := bus.trace;
      for k := 0 to |blocks|
        invariant |runs| == k && BlocksAccepted(runs, blocks[..k])
        invariant bus.trace == start + RunsEvents(runs)
      {
        r, last, answered := SendPacket(TOKEN_START_MULTI_BLOCK, blocks[k], ForCmd(DataWrite, 25));
        if r.Err? {
          return;
        }
        RunsMore(start, runs, last);
        AcceptedMore(runs, blocks, last);
        runs := runs + [last];
      }
      assert blocks[..|blocks|] == blocks;
      r := Ok(());
    }

    method SendStop() returns (r: Result<()>, ghost stop: StopRun)
      modifies bus`trace
      ensures r.Ok? ==> bus.trace == old(bus.trace) + StopEvents(stop)
      ensures r.Ok? ==> Busy(stop.busy) && |stop.busy| <= Budget(WRITE_BUSY_TIMEOUT_US)
      ensures r.Err? ==> FailedHere(old(bus.trace), bus.trace, r.error)
    {
      stop := StopRun(0, 0, []);
      var a := bus.TransferByte(TOKEN_STOP_TRAN);
      if a.Err? {
        r := Err(a.error);
        return;
      }
      var b := bus.TransferByte(IDLE);
      if b.Err? {
        r := Err(b.error);
        return;
      }
      ghost var busy, ready;
      r, busy, ready := WaitNotBusy();
      stop := StopRun(a.value, b.value, busy);
    }

    /** The data phase of write_blocks: the blocks, the stop sequence, deselect. */
    method SendData(blocks: seq<seq<byte>>)
      returns (r: Result<()>, ghost runs: seq<BlockRun>, ghost last: BlockRun, ghost answered: bool, ghost stop: StopRun)
      modifies bus`trace
      ensures r.Ok? ==>
                && BlocksAccepted(runs, blocks) && Busy(stop.busy)
                && bus.trace == old(bus.trace) + RunsEvents(runs) + StopEvents(stop) + [Deselect(true)]
      ensures r.Err? && |runs| < |blocks| ==>
                last.data == blocks[|runs|] && Heeds(r, answered, last.response, ForCmd(DataWrite, 25), bus.trace)
      ensures r.Err? ==> FailedHere(old(bus.trace), bus.trace, r.error)
    {
      stop := StopRun(0, 0, []);
      r, runs, last, answered := SendBlocks(blocks);
      if r.Err? {
        return;
      }
      r, stop := SendStop();
      if r.Ok? {
        r := bus.DeselectChip();
      }
    }

    /** A write command and the blocks after it. */
    method CommandAndBlocks(c: Command, blocks: seq<seq<byte>>)
      returns (r: Result<()>, ghost cmd: CommandRun, ghost runs: seq<BlockRun>, ghost last: BlockRun, ghost answered: bool, ghost stop: StopRun)
      requires OnlyR1(c.resp)
      modifies bus
      ensures r.Ok? ==> Answered(cmd) && cmd.payload == []
      ensures r.Ok? ==> BlocksAccepted(runs, blocks)
      ensures r.Ok? ==> (bus.trace ==
                         old(bus.trace) + CommandEvents(c, cmd)
                         + RunsEvents(runs) + StopEvents(stop) + [Deselect(true)])
      ensures r.Ok? ==> Busy(stop.busy)
      ensures r.Err? && |runs| < |blocks| && answered ==>
                last.data == blocks[|runs|] && Heeds(r, answered, last.response, ForCmd(DataWrite, 25), bus.trace)
      ensures r.Err? ==> FailedHere(old(bus.trace), bus.trace, r.error)
    {
      runs, stop := [], StopRun(0, 0, []);
      last, answered := BlockRun(0, [], [], 0, 0, []), false;
      var sent;
      sent, cmd := SendCommand(c);
      if sent.Err? {
        r := Err(sent.error);
        return;
      }
      r, runs, last, answered, stop := SendData(blocks);
    }

    method WriteBlocks(addr: u32, blocks: seq<seq<byte>>)
      returns (r: Result<()>, ghost cmd: CommandRun, ghost runs: seq<BlockRun>, ghost last: BlockRun, ghost answered: bool, ghost stop: StopRun)
      requires forall b | b in blocks :: |b| == BLOCK_LEN
      requires highCapacity || addr < 0x80_0000
      modifies bus
      ensures r.Ok? ==> Answered(cmd) && cmd.payload == []
      ensures r.Ok? ==> BlocksAccepted(runs, blocks)
      ensures r.Ok? ==> (bus.trace ==
                         old(bus.trace) + CommandEvents(Cmd25(BlockAddrOf(addr, highCapacity)), cmd)
                         + RunsEvents(runs) + StopEvents(stop) + [Deselect(true)])
      ensures r.Ok? ==> Busy(stop.busy)
      ensures r.Err? && |runs| < |blocks| && answered ==>
                last.data == blocks[|runs|] && Heeds(r, answered, last.response, ForCmd(DataWrite, 25), bus.trace)
      ensures r.Err? ==> FailedHere(old(bus.trace), bus.trace, r.error)
    {
      r, cmd, runs, last, answered, stop := CommandAndBlocks(Cmd25(BlockAddrOf(addr, highCapacity)), blocks);
    }

    /** An application command: its prefix, then itself; both answer with R1 alone. The second
        R1 says whether the card is idle. */
    method SendAppCommand(app: Command, c: Command, ghost f: Traffic, ghost g: Traffic) returns (r: Result<bool>, ghost poll: Poll)
      requires OnlyR1(app.resp) && OnlyR1(c.resp) && Describes(f, app) && Describes(g, c)
      modifies bus
      ensures r.Ok? ==>
                && AppAnswered(poll) && r.value == IsIdle(poll.second.r1)
                && bus.trace == old(bus.trace) + f(poll.first) + g(poll.second)
      ensures r.Err? ==> FailedHere(old(bus.trace), bus.trace, r.error)
    {
      ghost var first, second;
      var r1;
      r1, first := SendCommand(app);
      poll := Poll(first, first);
      if r1.Err? {
        return Err(r1.error), poll;
      }
      r1, second := SendCommand(c);
      if r1.Err? {
        return Err(r1.error), poll;
      }
      poll := Poll(first, second);
      r := Ok(IsIdle(r1.value));
    }

    /** The loop of wait_ready, for any pair of commands: exchanges with a millisecond between
        them until one finds the card out of idle. */
    method PollApp(app: Command, c: Command, ghost f: Traffic, ghost g: Traffic) returns (r: Result<()>, ghost polls: seq<Poll>)
      requires OnlyR1(app.resp) && OnlyR1(c.resp) && Describes(f, app) && Describes(g, c)
      modifies bus
      ensures |polls| <= 1001 && forall k | 0 <= k < |polls| :: AppAnswered(polls[k])
      ensures forall k | 0 <= k < |polls| - 1 :: IsIdle(polls[k].second.r1)
      ensures r.Ok? ==> polls != [] && !IsIdle(polls[|polls| - 1].second.r1)
      ensures r.Err? && !FailedHere(old(bus.trace), bus.trace, r.error) ==>
                r == Err(Timeout(ForCmd(Init, 41))) && |polls| == 1001 && IsIdle(polls[1000].second.r1)
      ensures r.Ok? || !FailedHere(old(bus.trace), bus.trace, r.error) ==> bus.trace == old(bus.trace) + Asks(f, g, polls)
    {
      var elapsed: u32 := 0;
      polls := [];
      ghost var start := bus.trace;
      NothingAsked(start, f, g);
      while true
        invariant elapsed == 1_000 * |polls| && |polls| <= 1000
        invariant forall k | 0 <= k < |polls| :: AppAnswered(polls[k]) && IsIdle(polls[k].second.r1)
        invariant bus.trace == start + Waits(f, g, polls)
        decreases 1000 - |polls|
      {
        ghost var poll;
        var idle;
        idle, poll := SendAppCommand(app, c, f, g);
        if idle.Err? {
          r := Err(idle.error);
          return;
        }
        AskedMore(start, f, g, polls, poll);
        polls := polls + [poll];
        if !idle.value {
          r := Ok(());
          return;
        }
        if elapsed >= INIT_TIMEOUT_US {
          r := Err(Timeout(ForCmd(Init, 41)));
          return;
        }
        bus.DelayUs(1_000);
        DelayMore(start, f, g, polls);
        elapsed := SaturatingAddU32(elapsed, 1_000);
      }
    }

    /** The same, the traffic written out. */
    method PollPair(app: Command, c: Command) returns (r: Result<()>, ghost polls: seq<Poll>)
      requires OnlyR1(app.resp) && OnlyR1(c.resp)
      modifies bus
      ensures |polls| <= 1001 && forall k | 0 <= k < |polls| :: AppAnswered(polls[k])
      ensures forall k | 0 <= k < |polls| - 1 :: IsIdle(polls[k].second.r1)
      ensures r.Ok? ==> polls != [] && !IsIdle(polls[|polls| - 1].second.r1)
      ensures r.Err? && !FailedHere(old(bus.trace), bus.trace, r.error) ==>
                r == Err(Timeout(ForCmd(Init, 41))) && |polls| == 1001 && IsIdle(polls[1000].second.r1)
      ensures r.Ok? || !FailedHere(old(bus.trace), bus.trace, r.error) ==>
                bus.trace == old(bus.trace) + Asks(TrafficOf(app), TrafficOf(c), polls)
    {
      r, polls := PollApp(app, c, TrafficOf(app), TrafficOf(c));
    }

    /** Sends CMD55 and ACMD41 until an R1 to ACMD41 finds the card out of idle, at most 1001
        times, a millisecond apart. ACMD41 has no R3 payload in SPI mode. */
    method WaitReady() returns (r: Result<()>, ghost polls: seq<Poll>)
      modifies bus
      ensures |polls| <= 1001 && forall k | 0 <= k < |polls| :: AppAnswered(polls[k])
      ensures forall k | 0 <= k < |polls| - 1 :: IsIdle(polls[k].second.r1)
      ensures r.Ok? ==> polls != [] && !IsIdle(polls[|polls| - 1].second.r1)
      ensures r.Err? && !FailedHere(old(bus.trace), bus.trace, r.error) ==>
                r == Err(Timeout(ForCmd(Init, 41))) && |polls| == 1001 && IsIdle(polls[1000].second.r1)
      ensures r.Ok? || !FailedHere(old(bus.trace), bus.trace, r.error) ==>
                bus.trace == old(bus.trace) + Asks(TrafficOf(Cmd55(0)), TrafficOf(SpiAcmd41(sdV2)), polls)
    {
      r, polls := PollPair(Cmd55(0), SpiAcmd41(sdV2));
    }
  }

  // ----- Waiting for the card to leave idle -----

  /** One exchange of a command pair. */
  datatype Poll = Poll(first: CommandRun, second: CommandRun)

  ghost predicate IsBare(run: CommandRun) {
    Answered(run) && run.payload == []
  }

  /** Both commands were answered, with an R1 and nothing else. */
  ghost predicate AppAnswered(poll: Poll) {
    IsBare(poll.first) && IsBare(poll.second)
  }

  /** Bus traffic of the runs of one command. */
  type Traffic = CommandRun -> seq<Event>

  function TrafficOf(c: Command): (f: Traffic)
    ensures Describes(f, c)
  {
    (run: CommandRun) => if |run.echo| == 6 then CommandEvents(c, run) else []
  }

  ghost predicate Describes(f: Traffic, c: Command) {
    forall run: CommandRun {:trigger CommandEvents(c, run)} | |run.echo| == 6 :: f(run) == CommandEvents(c, run)
  }

  function SpiAcmd41(v2: bool): Command { Cmd41(v2, 0xFF8000, false).(resp := RespR1) }

  /** Polls with a millisecond after each. */
  function Waits(f: Traffic, g: Traffic, polls: seq<Poll>): seq<Event>
    decreases |polls|, 1
  {
    if polls == [] then [] else Asks(f, g, polls) + [Delay(1_000)]
  }

  /** The same without the last delay. */
  function Asks(f: Traffic, g: Traffic, polls: seq<Poll>): seq<Event>
    decreases |polls|, 0
  {
    if polls == [] then []
    else Waits(f, g, polls[..|polls| - 1]) + f(polls[|polls| - 1].first) + g(polls[|polls| - 1].second)
  }

  lemma NothingAsked(t: seq<Event>, f: Traffic, g: Traffic)
    ensures t + Waits(f, g, []) == t
  {
  }

  lemma AskedMore(t: seq<Event>, f: Traffic, g: Traffic, polls: seq<Poll>, p: Poll)
    ensures t + Waits(f, g, polls) + f(p.first) + g(p.second) == t + Asks(f, g, polls + [p])
  {
    assert (polls + [p])[..|polls|] == polls;
  }

  lemma DelayMore(t: seq<Event>, f: Traffic, g: Traffic, polls: seq<Poll>)
    requires polls != []
    ensures t + Asks(f, g, polls) + [Delay(1_000)] == t + Waits(f, g, polls)
  {
  }

  lemma {:induction false} InterruptedShape(t: seq<Event>, idle: nat, a: seq<byte>, b: seq<byte>, e: Error)
    ensures t + PollRun(Idles(idle)) + [Xfer(IDLE, Ok(TOKEN_START_BLOCK))] + Received(a) + Received(b) + [Xfer(IDLE, Err(e))]
         == t + ReadEvents(idle, Interrupted(a + b, e))
  {
    ReceivedConcat(a, b);
  }

  lemma {:induction false} CompleteShape(t: seq<Event>, idle: nat, a: seq<byte>, hi: byte, lo: byte)
    ensures t + PollRun(Idles(idle)) + [Xfer(IDLE, Ok(TOKEN_START_BLOCK))] + Received(a) + Received([hi, lo])
         == t + ReadEvents(idle, Complete(a, hi, lo))
  {
    ReceivedConcat(a, [hi, lo]);
  }

  lemma {:induction false} SentMore(data: seq<byte>, echo: seq<byte>, b: byte)
    requires |echo| < |data|
    ensures Sent(data[..|echo| + 1], echo + [b]) == Sent(data[..|echo|], echo) + [Xfer(data[|echo|], Ok(b))]
  {
  }

  ghost predicate WellFormed(runs: seq<BlockRun>) {
    forall run | run in runs :: |run.echo| == |run.data| + 3
  }

  lemma {:induction false} RunsMore(t: seq<Event>, runs: seq<BlockRun>, run: BlockRun)
    requires WellFormed(runs) && |run.echo| == |run.data| + 3
    ensures WellFormed(runs + [run])
    ensures t + RunsEvents(runs) + RunEvents(run) == t + RunsEvents(runs + [run])
  {
    assert (runs + [run])[..|runs|] == runs;
  }

  lemma {:induction false} AcceptedMore(runs: seq<BlockRun>, blocks: seq<seq<byte>>, run: BlockRun)
    requires |runs| < |blocks| && BlocksAccepted(runs, blocks[..|runs|])
    requires Accepted(run) && run.token == TOKEN_START_MULTI_BLOCK && run.data == blocks[|runs|]
    ensures BlocksAccepted(runs + [run], blocks[..|runs| + 1])
  {
  }

  lemma {:induction false} CommandShape(t: seq<Event>, c: Command, run: CommandRun)
    requires |run.echo| == 6
    ensures t + CommandHead(c, run.echo, run.idle, run.r1) + run.payload + Closing(c, run.r1) == t + CommandEvents(c, run)
    ensures run.payload == [] ==> t + CommandHead(c, run.echo, run.idle, run.r1) + Closing(c, run.r1) == t + CommandEvents(c, run)
  {
    Regroup3(t, CommandHead(c, run.echo, run.idle, run.r1), run.payload, Closing(c, run.r1));
  }

  lemma Regroup3(t: seq<Event>, a: seq<Event>, b: seq<Event>, c: seq<Event>)
    ensures t + a + b + c == t + (a + b + c)
    ensures b == [] ==> t + a + c == t + (a + b + c)
  {
  }

  lemma BusyAfter(t: seq<Event>, p: seq<Event>, q: seq<Event>, x: Event)
    ensures t + p + q + [x] == t + (p + (q + [x])) && t + p <= t + p + q + [x]
  {
  }

  lemma SuffixIs(t: seq<Event>, s: seq<Event>, u: seq<Event>)
    requires u == t + s
    ensures u[|t|..] == s
  {
  }

  lemma Regroup4(t: seq<Event>, a: seq<Event>, b: seq<Event>, c: seq<Event>, d: seq<Event>)
    ensures t + a + b + (c + d) == t + (a + b + c + d)
    ensures t + a + b + c + d == t + (a + b + c + d)
  {
  }

  lemma {:induction false} ReceivedConcat(a: seq<byte>, b: seq<byte>)
    ensures Received(a + b) == Received(a) + Received(b)
  {
    assert Idles(|a| + |b|) == Idles(|a|) + Idles(|b|);
  }

  lemma {:induction false} ReceivedMore(data: seq<byte>, b: byte)
    ensures Received(data + [b]) == Received(data) + [Xfer(IDLE, Ok(b))]
  {
    assert Idles(|data| + 1) == Idles(|data|) + [IDLE];
  }
}
