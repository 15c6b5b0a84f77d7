/** What the SPI driver's traffic means: corrupted blocks are refused, a written block reads
    back, a card parsing a multi-block write sees exactly the blocks. */
module SpiTheorems {
  import opened Errors
  import opened MachineInts
  import opened Arithmetic
  import opened Commands
  import opened Gf2
  import opened Crc16
  import opened Crc16Distance
  import opened CommandFrame
  import opened SpiBus
  import opened SpiCard
  import opened CardSide
  import opened SpiDriver

  // ----- Reading -----

  /** A block that left the card with its CRC and arrives with a burst of at most 16 flipped
      bits, or with an odd number of flipped bits, is reported as a CRC error; in general it
      passes exactly when the flips form a multiple of the generator. */
  lemma CorruptedBlockRefused(sent: seq<byte>, got: seq<byte>, hi: byte, lo: byte, e: Bits)
    requires |sent| == |got| && |e| == 8 * |sent| + 16
    requires WireBits(got, hi, lo) == Xor(WireBits(sent, Trailer(Crc(sent))[0], Trailer(Crc(sent))[1]), e)
    ensures IsBurst(e, 16) || Odd(e) ==> ReadVerdict(Complete(got, hi, lo), true) == Err(CrcMismatch(At(DataRead)))
    ensures ReadVerdict(Complete(got, hi, lo), true) == Ok(()) <==> Remainder(e, GENERATOR) == Zeros(16)
  {
    FlippedBits(sent, got, hi, lo, e);
    CompleteVerdict(got, hi, lo);
  }

  lemma CompleteVerdict(got: seq<byte>, hi: byte, lo: byte)
    ensures ReadVerdict(Complete(got, hi, lo), true) == if BlockOk(got, hi, lo) then Ok(()) else Err(CrcMismatch(At(DataRead)))
  {
  }

  /** On blocks of up to 4093 bytes so is any one, two or three flipped bits. */
  lemma FewFlipsRefused(sent: seq<byte>, got: seq<byte>, hi: byte, lo: byte, e: Bits)
    requires |sent| == |got| <= 4093 && |e| == 8 * |sent| + 16
    requires WireBits(got, hi, lo) == Xor(WireBits(sent, Trailer(Crc(sent))[0], Trailer(Crc(sent))[1]), e)
    requires 1 <= Weight(e) <= 3
    ensures ReadVerdict(Complete(got, hi, lo), true) == Err(CrcMismatch(At(DataRead)))
  {
    ThreeFlipsNoticed(sent, got, hi, lo, e);
    CompleteVerdict(got, hi, lo);
  }

  /** The answers a trace got from the card. */
  function Answers(t: seq<Event>): seq<Result<byte>> {
    if t == [] then []
    else Answers(t[..|t| - 1]) + (if t[|t| - 1].Xfer? then [t[|t| - 1].answer] else [])
  }

  function AllOk(s: seq<byte>): (r: seq<Result<byte>>)
    ensures |r| == |s|
    ensures forall i | 0 <= i < |s| :: r[i] == Ok(s[i])
  {
    seq(|s|, i requires 0 <= i < |s| => Ok(s[i]))
  }

  lemma {:induction false} AnswersConcat(s: seq<Event>, t: seq<Event>)
    ensures Answers(s + t) == Answers(s) + Answers(t)
    decreases |t|
  {
    if t == [] {
      assert s + t == s;
    } else {
      var n := |t| - 1;
      AnswersConcat(s, t[..n]);
      assert (s + t)[..|s + t| - 1] == s + t[..n] && (s + t)[|s + t| - 1] == t[n];
      AnswersRegroup(Answers(s), Answers(t[..n]), if t[n].Xfer? then [t[n].answer] else []);
    }
  }

  lemma AnswersRegroup(a: seq<Result<byte>>, b: seq<Result<byte>>, c: seq<Result<byte>>)
    ensures a + b + c == a + (b + c)
  {
  }

  lemma {:induction false} AnswersOne(e: Event)
    ensures Answers([e]) == if e.Xfer? then [e.answer] else []
  {
    assert [e][..0] == [];
  }

  lemma {:induction false} AnswersPoll(answer: Result<byte>)
    ensures Answers([Xfer(IDLE, answer), Delay(POLL_INTERVAL_US)]) == [answer]
  {
    var poll := [Xfer(IDLE, answer), Delay(POLL_INTERVAL_US)];
    assert poll[..1] == [poll[0]];
    AnswersOne(poll[0]);
  }

  lemma {:induction false} AnswersPollRun(a: seq<byte>)
    ensures Answers(PollRun(a)) == AllOk(a)
    decreases |a|
  {
    if a != [] {
      var n := |a| - 1;
      var last := [Xfer(IDLE, Ok(a[n])), Delay(POLL_INTERVAL_US)];
      AnswersPollRun(a[..n]);
      AnswersConcat(PollRun(a[..n]), last);
      AnswersPoll(Ok(a[n]));
      assert AllOk(a) == AllOk(a[..n]) + [Ok(a[n])];
    }
  }

  lemma {:induction false} AnswersReceived(data: seq<byte>)
    ensures Answers(Received(data)) == AllOk(data)
    decreases |data|
  {
    if data != [] {
      var n := |data| - 1;
      AnswersReceived(data[..n]);
      assert Received(data)[..n] == Received(data[..n]);
    }
  }

  /** What the card must have sent for a read to end in a given way. */
  function AnswersOfRead(idle: nat, end: ReadEnd): seq<Result<byte>> {
    AllOk(Idles(idle)) +
    match end
    case NoToken(last) => [last]
    case Interrupted(got, e) => [Ok(TOKEN_START_BLOCK)] + AllOk(got) + [Err(e)]
    case Complete(data, hi, lo) => [Ok(TOKEN_START_BLOCK)] + AllOk(data + [hi, lo])
  }

  lemma {:induction false} ReadAnswers(idle: nat, end: ReadEnd)
    ensures Answers(ReadEvents(idle, end)) == AnswersOfRead(idle, end)
  {
    AnswersPollRun(Idles(idle));
    var x := [Xfer(IDLE, Ok(TOKEN_START_BLOCK))];
    AnswersOne(x[0]);
    match end
    case NoToken(last) =>
      AnswersOne(Xfer(IDLE, last));
      AnswersConcat(PollRun(Idles(idle)), [Xfer(IDLE, last)]);
    case Interrupted(got, e) =>
      AnswersReceived(got);
      AnswersOne(Xfer(IDLE, Err(e)));
      AnswersConcat(x, Received(got));
      AnswersConcat(x + Received(got), [Xfer(IDLE, Err(e))]);
      AnswersConcat(PollRun(Idles(idle)), x + Received(got) + [Xfer(IDLE, Err(e))]);
    case Complete(data, hi, lo) =>
      AnswersReceived(data + [hi, lo]);
      AnswersConcat(x, Received(data + [hi, lo]));
      AnswersConcat(PollRun(Idles(idle)), x + Received(data + [hi, lo]));
  }

  /** The card answers from a prepared stream for as long as the stream lasts. */
  ghost predicate Follows(answers: seq<Result<byte>>, stream: seq<byte>) {
    forall i | 0 <= i < |answers| && i < |stream| :: answers[i] == Ok(stream[i])
  }

  function BlockStream(fill: nat, data: seq<byte>): seq<byte> {
    Idles(fill) + Packet(TOKEN_START_BLOCK, data)
  }

  /** A read cannot see its token before or after the place where the card sends it, nor lose
      a byte of the block. */
  lemma {:induction false} OtherEndsDeviate(fill: nat, data: seq<byte>, idle: nat, end: ReadEnd)
    requires fill <= 2000 && ReadPossible(idle, end, |data|)
    requires idle != fill || !end.Complete?
    ensures !Follows(AnswersOfRead(idle, end), BlockStream(fill, data))
  {
    var a, s := AnswersOfRead(idle, end), BlockStream(fill, data);
    assert Budget(READ_TIMEOUT_US) == 2000;
    if idle < fill {
      assert a[idle] != Ok(s[idle]);
    } else if idle > fill {
      assert a[fill] != Ok(s[fill]);
    } else if end.NoToken? {
      assert a[fill] != Ok(s[fill]);
    } else {
      var k := fill + 1 + |end.got|;
      assert a[k].Err?;
      assert a[k] != Ok(s[k]);
    }
  }

  /** Whatever the driver writes as a block, sent back after up to 2000 idle bytes, is read
      as the same payload. */
  lemma {:induction false} BlockRoundTrip(fill: nat, data: seq<byte>, idle: nat, end: ReadEnd, verify: bool)
    requires fill <= 2000
    requires ReadPossible(idle, end, |data|)
    requires Follows(AnswersOfRead(idle, end), BlockStream(fill, data))
    ensures idle == fill
    ensures end == Complete(data, Trailer(Crc(data))[0], Trailer(Crc(data))[1])
    ensures ReadVerdict(end, verify) == Ok(())
  {
    TrailerRoundTrip(Crc(data));
    if idle != fill || !end.Complete? {
      OtherEndsDeviate(fill, data, idle, end);
    } else {
      BlockArrives(fill, data, end);
    }
  }

  lemma {:induction false} BlockArrives(fill: nat, data: seq<byte>, end: ReadEnd)
    requires end.Complete? && |end.data| == |data|
    requires Follows(AnswersOfRead(fill, end), BlockStream(fill, data))
    ensures end == Complete(data, Trailer(Crc(data))[0], Trailer(Crc(data))[1])
  {
    var t := Trailer(Crc(data));
    var a, s := AnswersOfRead(fill, end), BlockStream(fill, data);
    var d := end.data + [end.hi, end.lo];
    forall i | 0 <= i < |data| + 2
      ensures d[i] == (data + t)[i]
    {
      assert a[fill + 1 + i] == Ok(s[fill + 1 + i]);
    }
    assert d == data + t;
    assert d[..|data|] == data;
    assert d[|data|] == t[0] && d[|data| + 1] == t[1];
  }

  /** A block the driver has just had accepted went out as exactly the packet BlockRoundTrip
      reads back, followed by fill only. */
  lemma {:induction false} WrittenBlockTx(run: BlockRun)
    requires |run.echo| == |run.data| + 3
    ensures TxOf(RunEvents(run)) == Packet(run.token, run.data) + Idles(run.idle + 1 + |run.busy| + 1)
  {
    var p, q := Packet(run.token, run.data), [Xfer(IDLE, Ok(IDLE))];
    var x := [Xfer(IDLE, Ok(run.response))];
    TxSent(p, run.echo);
    TxPollRun(Idles(run.idle));
    TxPollRun(run.busy);
    TxOne(x[0]);
    TxOne(q[0]);
    TxConcat(Sent(p, run.echo), PollRun(Idles(run.idle)));
    TxConcat(Sent(p, run.echo) + PollRun(Idles(run.idle)), x);
    TxConcat(PollRun(run.busy), q);
    TxConcat(PacketEvents(run), PollRun(run.busy) + q);
    FillUp(p, run.idle, |run.busy|);
  }

  lemma FillUp(p: seq<byte>, a: nat, b: nat)
    ensures p + Idles(a) + [IDLE] + (Idles(b) + [IDLE]) == p + Idles(a + 1 + b + 1)
  {
    assert Idles(a) + [IDLE] + (Idles(b) + [IDLE]) == Idles(a + 1 + b + 1);
    assert p + Idles(a) + [IDLE] + (Idles(b) + [IDLE]) == p + (Idles(a) + [IDLE] + (Idles(b) + [IDLE]));
  }

  // ----- A card parsing a multi-block write -----

  /** Skips fill, takes 512-byte blocks with a valid CRC, ends at the stop token; yields the
      blocks and what follows the token. None if anything else appears. */
  ghost function CardParse(tx: seq<byte>): Option<(seq<seq<byte>>, seq<byte>)>
    decreases |tx|
  {
    if tx == [] then None
    else if tx[0] == 0xFF then CardParse(tx[1..])
    else if tx[0] == 0xFD then Some(([], tx[1..]))
    else if tx[0] == 0xFC && |tx| >= 515 && BlockOk(tx[1..513], tx[513], tx[514]) then
      match CardParse(tx[515..])
      case None => None
      case Some((blocks, rest)) => Some(([tx[1..513]] + blocks, rest))
    else None
  }

  lemma {:induction false} ParseSkips(n: nat, tx: seq<byte>)
    ensures CardParse(Idles(n) + tx) == CardParse(tx)
  {
    if n > 0 {
      var s := Idles(n) + tx;
      assert s[0] == IDLE;
      assert s[1..] == Idles(n - 1) + tx;
      ParseSkips(n - 1, tx);
    } else {
      assert Idles(0) + tx == tx;
    }
  }

  lemma {:induction false} ParsePacket(block: seq<byte>, tx: seq<byte>)
    requires |block| == 512
    ensures CardParse(Packet(TOKEN_START_MULTI_BLOCK, block) + tx) ==
            match CardParse(tx)
            case None => None
            case Some((blocks, rest)) => Some(([block] + blocks, rest))
  {
    var s, t := Packet(TOKEN_START_MULTI_BLOCK, block) + tx, Trailer(Crc(block));
    TrailerRoundTrip(Crc(block));
    assert s[0] == TOKEN_START_MULTI_BLOCK;
    assert s[1..513] == block;
    assert s[513] == t[0] && s[514] == t[1];
    assert s[515..] == tx;
  }

  /** A packet and the fill after it. */
  function RunTx(run: BlockRun): seq<byte> {
    Packet(run.token, run.data) + Idles(run.idle + 1 + |run.busy| + 1)
  }

  function BlocksTx(runs: seq<BlockRun>): seq<byte> {
    if runs == [] then [] else RunTx(runs[0]) + BlocksTx(runs[1..])
  }

  lemma {:induction false} BlocksTxMore(runs: seq<BlockRun>, run: BlockRun)
    ensures BlocksTx(runs + [run]) == BlocksTx(runs) + RunTx(run)
    decreases |runs|
  {
    var all := runs + [run];
    if runs == [] {
      assert all == [run] && all[1..] == [];
    } else {
      BlocksTxMore(runs[1..], run);
      assert all[1..] == runs[1..] + [run] && all[0] == runs[0];
    }
  }

  lemma {:induction false} TxOfRunsStep(t: seq<Event>, runs: seq<BlockRun>, run: BlockRun)
    requires |run.echo| == |run.data| + 3 && TxOf(t) == BlocksTx(runs)
    ensures TxOf(t + RunEvents(run)) == BlocksTx(runs + [run])
  {
    WrittenBlockTx(run);
    TxConcat(t, RunEvents(run));
    BlocksTxMore(runs, run);
  }

  lemma {:induction false} RunsSnoc(runs: seq<BlockRun>, most: seq<BlockRun>, last: BlockRun)
    requires runs == most + [last] && WellFormed(runs)
    ensures WellFormed(most) && RunsEvents(runs) == RunsEvents(most) + RunEvents(last)
  {
    assert runs[..|runs| - 1] == most;
  }

  lemma {:induction false} TxOfRuns(runs: seq<BlockRun>)
    requires WellFormed(runs)
    ensures TxOf(RunsEvents(runs)) == BlocksTx(runs)
    decreases |runs|
  {
    if runs != [] {
      var n := |runs| - 1;
      var most, last := runs[..n], runs[n];
      assert runs == most + [last];
      TxOfRuns(most);
      TxOfRunsStep(RunsEvents(most), most, last);
      RunsSnoc(runs, most, last);
    }
  }

  lemma Regroup(a: seq<byte>, b: seq<byte>, c: seq<byte>)
    ensures a + b + c == a + (b + c)
  {
  }

  lemma {:induction false} ParseRun(run: BlockRun, more: seq<byte>, blocks: seq<seq<byte>>, rest: seq<byte>)
    requires run.token == TOKEN_START_MULTI_BLOCK && |run.data| == 512
    requires CardParse(more) == Some((blocks, rest))
    ensures CardParse(RunTx(run) + more) == Some(([run.data] + blocks, rest))
  {
    var p, f := Packet(run.token, run.data), Idles(run.idle + 1 + |run.busy| + 1);
    ParseSkips(run.idle + 1 + |run.busy| + 1, more);
    ParsePacket(run.data, f + more);
    Regroup(p, f, more);
  }

  ghost predicate Carries(runs: seq<BlockRun>, blocks: seq<seq<byte>>) {
    && |runs| == |blocks|
    && forall k | 0 <= k < |runs| ::
         runs[k].token == TOKEN_START_MULTI_BLOCK && runs[k].data == blocks[k] && |blocks[k]| == 512
  }

  lemma {:induction false} ParseBlocks(runs: seq<BlockRun>, blocks: seq<seq<byte>>, tail: seq<byte>, rest: seq<byte>)
    requires Carries(runs, blocks)
    requires CardParse(tail) == Some(([], rest))
    ensures CardParse(BlocksTx(runs) + tail) == Some((blocks, rest))
    decreases |runs|
  {
    if runs == [] {
      assert BlocksTx(runs) + tail == tail && blocks == [];
    } else {
      CarriesRest(runs, blocks);
      ParseBlocks(runs[1..], blocks[1..], tail, rest);
      ParseOneMore(runs[0], BlocksTx(runs[1..]) + tail, BlocksTx(runs) + tail, blocks, rest) by {
        FirstRun(runs, tail);
      }
    }
  }

  lemma ParseOneMore(run: BlockRun, more: seq<byte>, tx: seq<byte>, blocks: seq<seq<byte>>, rest: seq<byte>)
    requires run.token == TOKEN_START_MULTI_BLOCK && |run.data| == 512 && blocks != [] && run.data == blocks[0]
    requires CardParse(more) == Some((blocks[1..], rest)) && tx == RunTx(run) + more
    ensures CardParse(tx) == Some((blocks, rest))
  {
    ParseRun(run, more, blocks[1..], rest);
    assert [blocks[0]] + blocks[1..] == blocks;
  }

  lemma CarriesRest(runs: seq<BlockRun>, blocks: seq<seq<byte>>)
    requires Carries(runs, blocks) && runs != []
    ensures Carries(runs[1..], blocks[1..])
    ensures runs[0].token == TOKEN_START_MULTI_BLOCK && runs[0].data == blocks[0] && |blocks[0]| == 512
  {
  }

  lemma {:induction false} FirstRun(runs: seq<BlockRun>, tail: seq<byte>)
    requires runs != []
    ensures BlocksTx(runs) + tail == RunTx(runs[0]) + (BlocksTx(runs[1..]) + tail)
  {
  }

  lemma {:induction false} ParseStop(stop: StopRun)
    ensures CardParse(TxOf(StopEvents(stop))) == Some(([], Idles(|stop.busy| + 2)))
  {
    var a, b := Xfer(TOKEN_STOP_TRAN, Ok(stop.echo)), Xfer(IDLE, Ok(stop.fill));
    var q := [Xfer(IDLE, Ok(IDLE))];
    assert [a, b][..1] == [a];
    TxOne(a);
    TxOne(q[0]);
    assert TxOf([a, b]) == [TOKEN_STOP_TRAN, IDLE];
    TxPollRun(stop.busy);
    TxConcat([a, b], PollRun(stop.busy));
    TxConcat([a, b] + PollRun(stop.busy), q);
    var tx := TxOf(StopEvents(stop));
    assert tx == [TOKEN_STOP_TRAN] + Idles(|stop.busy| + 2);
    assert tx[1..] == Idles(|stop.busy| + 2);
  }

  /** The traffic of a successful write_blocks after the command frame and its reply. */
  function DataPhase(runs: seq<BlockRun>, stop: StopRun): seq<Event>
    requires WellFormed(runs)
  {
    RunsEvents(runs) + StopEvents(stop)
  }

  lemma DataPhaseTx(runs: seq<BlockRun>, stop: StopRun)
    requires WellFormed(runs)
    ensures TxOf(DataPhase(runs, stop)) == BlocksTx(runs) + TxOf(StopEvents(stop))
  {
    TxOfRuns(runs);
    TxConcat(RunsEvents(runs), StopEvents(stop));
  }

  lemma CarriesBlocks(runs: seq<BlockRun>, blocks: seq<seq<byte>>)
    requires BlocksAccepted(runs, blocks)
    requires forall b | b in blocks :: |b| == BLOCK_LEN
    ensures Carries(runs, blocks)
  {
  }

  /** On every successful write_blocks the card recovers exactly the given blocks, all with a
      valid CRC, then one stop token, then nothing but fill. */
  lemma {:induction false} CardSeesBlocks(runs: seq<BlockRun>, blocks: seq<seq<byte>>, stop: StopRun)
    requires BlocksAccepted(runs, blocks)
    requires forall b | b in blocks :: |b| == BLOCK_LEN
    ensures CardParse(TxOf(DataPhase(runs, stop))) == Some((blocks, Idles(|stop.busy| + 2)))
  {
    DataPhaseTx(runs, stop);
    ParseStop(stop);
    CarriesBlocks(runs, blocks);
    ParseBlocks(runs, blocks, TxOf(StopEvents(stop)), Idles(|stop.busy| + 2));
  }

  /** A card after CMD24: it skips fill and takes one 512-byte block with a valid CRC; what
      follows must be fill. */
  ghost function CardTake(tx: seq<byte>): Option<seq<byte>>
    decreases |tx|
  {
    if tx == [] then None
    else if tx[0] == 0xFF then CardTake(tx[1..])
    else if tx[0] == 0xFE && |tx| >= 515 && BlockOk(tx[1..513], tx[513], tx[514]) && AllFill(tx[515..]) then Some(tx[1..513])
    else None
  }

  predicate AllFill(tx: seq<byte>) {
    forall i | 0 <= i < |tx| :: tx[i] == 0xFF
  }

  /** On every successful write_block the card takes exactly the given block. */
  lemma CardSeesBlock(run: BlockRun)
    requires Accepted(run) && run.token == TOKEN_START_BLOCK && |run.data| == BLOCK_LEN
    ensures CardTake(TxOf(RunEvents(run))) == Some(run.data)
  {
    WrittenBlockTx(run);
    var tx, t := TxOf(RunEvents(run)), Trailer(Crc(run.data));
    TrailerRoundTrip(Crc(run.data));
    assert tx[0] == TOKEN_START_BLOCK;
    assert tx[1..513] == run.data;
    assert tx[513] == t[0] && tx[514] == t[1];
  }

  // ----- R1 -----

  /** An R1 of the card is taken for one, and its idle and illegal-command bits are read. */
  lemma R1Reads(parameter: bool, address: bool, erase: bool, crc: bool, illegal: bool, reset: bool, idle: bool)
    ensures var b := R1Byte(parameter, address, erase, crc, illegal, reset, idle);
            IsR1(b) && (IsIdle(b) <==> idle) && (IsIllegal(b) <==> illegal)
  {
  }

  /** The four bytes after R7 are read exactly if the card did not call the command illegal; a
      register exactly after an R1 of 0. */
  lemma PayloadIfSent(parameter: bool, address: bool, erase: bool, crc: bool, illegal: bool, reset: bool, idle: bool,
                      reply: Reply, payload: seq<Event>, verify: bool)
    ensures var b := R1Byte(parameter, address, erase, crc, illegal, reset, idle);
            && (ReplyFits(RespR7, b, reply, payload, verify) ==>
                  if illegal then reply == ReplyR1(b) && payload == []
                  else reply.ReplyR7? && |reply.echo| == 4 && payload == Received(reply.echo))
            && (ReplyFits(RespR2, b, reply, payload, verify) ==>
                  if parameter || address || erase || crc || illegal || reset || idle then reply == ReplyR1(b) && payload == []
                  else reply.ReplyR2? && |reply.reg| == 16 && Brings(payload, reply.reg, verify))
  {
  }

  /** How often the card is polled: for a response, a token and the end of busy. */
  lemma PollLimits()
    ensures Budget(RESPONSE_TIMEOUT_US) == 2000 && Budget(READ_TIMEOUT_US) == 2000 && Budget(WRITE_BUSY_TIMEOUT_US) == 5000
  {
  }

  /** The card is asked for 2.7-3.6 V, for high capacity if it is of version 2, and not for
      1.8 V, which SPI mode does not have. */
  lemma SpiConditionArrives(v2: bool)
    ensures Understood(SpiAcmd41(v2), false, true) == SdOperatingCondition(v2, false, 0x1FF0)
  {
    SdConditionArrives(v2, 0xFF_8000, false);
    Powers();
    FieldIs(0xFF_8000, 23, 11, 0, 0x1FF0, 0);
  }

  // ----- What the card says about the blocks -----

  /** The blocks a card keeps of those it was sent. */
  function Kept(runs: seq<BlockRun>, verdicts: seq<Verdict>): seq<seq<byte>>
    requires |runs| == |verdicts|
  {
    if runs == [] then []
    else
      var n := |runs| - 1;
      Kept(runs[..n], verdicts[..n]) + (if verdicts[n] == Took then [runs[n].data] else [])
  }

  /** A successful write_blocks: whatever the card made of each packet and then said, it kept
      exactly the given blocks. */
  lemma {:induction false} AllKept(runs: seq<BlockRun>, blocks: seq<seq<byte>>, verdicts: seq<Verdict>)
    requires BlocksAccepted(runs, blocks) && |verdicts| == |runs|
    requires forall k | 0 <= k < |runs| :: Says(runs[k].response, verdicts[k])
    ensures Kept(runs, verdicts) == blocks
    decreases |runs|
  {
    if runs != [] {
      var n := |runs| - 1;
      AllKept(runs[..n], blocks[..n], verdicts[..n]);
      assert Accepted(runs[n]) && verdicts[n] == Took;
      assert blocks == blocks[..n] + [blocks[n]];
    }
  }

  /** A card that judges by the CRC finds nothing wrong with a packet of the driver: it takes
      the block exactly if its memory does, and what it then says is heeded. */
  lemma PacketJudged(data: seq<byte>, stored: bool, x: byte, r: Result<()>, ctx: ErrorContext, t: seq<Event>)
    requires Heeds(r, true, DataResponse(x, Judge(data, Trailer(Crc(data))[0], Trailer(Crc(data))[1], stored)), ctx, t)
    ensures r.Ok? ==> stored
    ensures !stored ==> r == Err(WriteError(ctx))
    ensures stored ==> r.Ok? || r == Err(Timeout(At(BusyWait))) || BusFailed(t, r.error)
  {
    TrailerRoundTrip(Crc(data));
    TokenSays(x, Took, Took);
    TokenSays(x, WriteFault, Took);
  }

  // ----- Chip select -----

  lemma QuietConcat(s: seq<Event>, t: seq<Event>)
    requires NoDeselect(s) && NoDeselect(t)
    ensures NoDeselect(s + t)
  {
  }

  lemma {:induction false} RunQuiet(run: BlockRun)
    requires |run.echo| == |run.data| + 3
    ensures NoDeselect(RunEvents(run))
  {
    PollRunQuiet(Idles(run.idle));
    PollRunQuiet(run.busy);
    QuietConcat(Sent(Packet(run.token, run.data), run.echo), PollRun(Idles(run.idle)));
    QuietConcat(PollRun(run.busy), [Xfer(IDLE, Ok(IDLE))]);
    QuietConcat(PacketEvents(run), PollRun(run.busy) + [Xfer(IDLE, Ok(IDLE))]);
  }

  lemma {:induction false} RunsQuiet(runs: seq<BlockRun>)
    requires WellFormed(runs)
    ensures NoDeselect(RunsEvents(runs))
    decreases |runs|
  {
    if runs != [] {
      var n := |runs| - 1;
      assert WellFormed(runs[..n]);
      RunsQuiet(runs[..n]);
      RunQuiet(runs[n]);
      QuietConcat(RunsEvents(runs[..n]), RunEvents(runs[n]));
    }
  }

  lemma {:induction false} CommandQuiet(c: Command, cmd: CommandRun)
    requires Answered(cmd) && cmd.payload == [] && c.DataDirection() != NoData
    ensures NoDeselect(CommandEvents(c, cmd)) && CommandEvents(c, cmd)[0] == Event.Select(true)
  {
    PollRunQuiet(Idles(cmd.idle));
    assert CommandEvents(c, cmd) == CommandHead(c, cmd.echo, cmd.idle, cmd.r1);
  }

  /** Chip select stays asserted from the frame of CMD25 through the last busy poll. */
  lemma {:induction false} SelectedThroughout(addr: u32, cmd: CommandRun, runs: seq<BlockRun>, stop: StopRun)
    requires Answered(cmd) && cmd.payload == [] && WellFormed(runs)
    ensures NoDeselect(CommandEvents(Cmd25(addr), cmd) + DataPhase(runs, stop))
    ensures CommandEvents(Cmd25(addr), cmd)[0] == Event.Select(true)
  {
    PollRunQuiet(stop.busy);
    RunsQuiet(runs);
    CommandQuiet(Cmd25(addr), cmd);
    QuietConcat(RunsEvents(runs), StopEvents(stop));
    QuietConcat(CommandEvents(Cmd25(addr), cmd), DataPhase(runs, stop));
  }

  /** And from the frame of CMD17 to the last byte of the block, and of CMD24 to ready. */
  lemma SelectedForBlock(addr: u32, cmd: CommandRun, idle: nat, end: ReadEnd, run: BlockRun)
    requires Answered(cmd) && cmd.payload == [] && |run.echo| == |run.data| + 3
    ensures NoDeselect(CommandEvents(Cmd17(addr), cmd) + ReadEvents(idle, end))
    ensures NoDeselect(CommandEvents(Cmd24(addr), cmd) + RunEvents(run))
  {
    CommandQuiet(Cmd17(addr), cmd);
    CommandQuiet(Cmd24(addr), cmd);
    ReadQuiet(idle, end);
    RunQuiet(run);
    QuietConcat(CommandEvents(Cmd17(addr), cmd), ReadEvents(idle, end));
    QuietConcat(CommandEvents(Cmd24(addr), cmd), RunEvents(run));
  }

  lemma ReadQuiet(idle: nat, end: ReadEnd)
    ensures NoDeselect(ReadEvents(idle, end))
  {
    PollRunQuiet(Idles(idle));
  }

  // ----- Polling for power-up -----

  /** After chip select a command begins with a 0, a 1 and its index. */
  lemma FirstByte(c: Command, run: CommandRun)
    requires |run.echo| == 6
    ensures CommandEvents(c, run)[1] == Xfer(ToByte(64 + c.cmd % 64), Ok(run.echo[0]))
  {
    var s := Sent(FrameBytes(c), run.echo);
    assert CommandEvents(c, run)[1] == s[0];
  }

  /** A poll is the prefix, then the command. */
  lemma OneAsked(f: Traffic, g: Traffic, poll: Poll)
    ensures Asks(f, g, [poll]) == f(poll.first) + g(poll.second)
  {
    assert [poll][..0] == [];
    assert Waits(f, g, []) == [];
  }

  // ----- Response polling -----

  /** wait_for_response reports the first byte other than 0xFF among the answers, provided it
      is one of the first ceil(t/50) + 1. */
  lemma {:induction false} ResponseIsFirst(t: u32, idle: nat, last: Result<byte>)
    requires idle <= Budget(t) && (last == Ok(IDLE) ==> idle == Budget(t))
    ensures var a := Answers(PollRun(Idles(idle)) + [Xfer(IDLE, last)]);
            && |a| <= (t + 49) / 50 + 1
            && a[|a| - 1] == last
            && (forall k | 0 <= k < |a| - 1 :: a[k] == Ok(IDLE))
            && (last == Ok(IDLE) ==> |a| == (t + 49) / 50 + 1)
  {
    AnswersPollRun(Idles(idle));
    AnswersOne(Xfer(IDLE, last));
    AnswersConcat(PollRun(Idles(idle)), [Xfer(IDLE, last)]);
  }
}
