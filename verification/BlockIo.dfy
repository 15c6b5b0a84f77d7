/** Block input and output of the SDIO driver over an abstract card memory. */
module BlockIo {
  import opened Errors
  import opened MachineInts
  import opened Commands
  import opened CardSide

  const BLOCK: nat := 512

  type Block = b: seq<u8> | |b| == 512 witness seq(512, _ => 0)

  /** The card's user area, one block per logical address. */
  type Memory = nat -> Block

  // ----- Runs of blocks as bytes -----

  /** The bytes of n blocks from a block address on. */
  function Stored(m: Memory, addr: nat, n: nat): (s: seq<u8>)
    ensures |s| == n * BLOCK
  {
    if n == 0 then [] else Stored(m, addr, n - 1) + m(addr + n - 1)
  }

  function BlockOf(data: seq<u8>, i: nat): Block
    requires (i + 1) * BLOCK <= |data|
  {
    data[i * BLOCK..(i + 1) * BLOCK]
  }

  predicate Covers(addr: nat, n: nat, b: nat) {
    addr <= b < addr + n
  }

  lemma WholeBlocks(len: nat, n: nat, i: nat)
    requires len == n * BLOCK && i < n
    ensures (i + 1) * BLOCK <= len
  {
  }

  /** The memory after data has been written from a block address on. */
  function Written(m: Memory, addr: nat, data: seq<u8>): Memory
    requires |data| % BLOCK == 0
  {
    (b: nat) =>
      if Covers(addr, |data| / BLOCK, b) then
        WholeBlocks(|data|, |data| / BLOCK, b - addr);
        BlockOf(data, b - addr)
      else m(b)
  }

  function Spoiled(m: Memory, junk: seq<Block>, addr: nat, n: nat): Memory {
    (b: nat) => if Covers(addr, n, b) && b - addr < |junk| then junk[b - addr] else m(b)
  }

  lemma {:induction false} StoredPrefix(m: Memory, addr: nat, data: seq<u8>, n: nat)
    requires |data| % BLOCK == 0 && n <= |data| / BLOCK
    ensures Stored(Written(m, addr, data), addr, n) == data[..n * BLOCK]
    decreases n
  {
    if n > 0 {
      StoredPrefix(m, addr, data, n - 1);
      WholeBlocks(|data|, |data| / BLOCK, n - 1);
      assert Covers(addr, |data| / BLOCK, addr + n - 1) && addr + n - 1 - addr == n - 1;
      assert Written(m, addr, data)(addr + n - 1) == BlockOf(data, n - 1);
      Join(data, (n - 1) * BLOCK, n * BLOCK);
    }
  }

  lemma Join(data: seq<u8>, i: nat, j: nat)
    requires i <= j <= |data|
    ensures data[..i] + data[i..j] == data[..j]
  {
  }

  lemma {:induction false} StoredSame(m: Memory, m': Memory, addr: nat, n: nat)
    requires forall b | Covers(addr, n, b) :: m(b) == m'(b)
    ensures Stored(m, addr, n) == Stored(m', addr, n)
  {
    if n > 0 {
      assert Covers(addr, n, addr + n - 1);
      forall b | Covers(addr, n - 1, b)
        ensures m(b) == m'(b)
      {
        assert Covers(addr, n, b);
      }
      StoredSame(m, m', addr, n - 1);
    }
  }

  /** What was written is what is stored, and every block outside is as before. */
  lemma {:induction false} RoundTrip(m: Memory, addr: nat, data: seq<u8>)
    requires |data| % BLOCK == 0
    ensures Stored(Written(m, addr, data), addr, |data| / BLOCK) == data
    ensures forall b | !Covers(addr, |data| / BLOCK, b) :: Written(m, addr, data)(b) == m(b)
    ensures forall other: nat, n: nat | other + n <= addr || addr + |data| / BLOCK <= other ::
              Stored(Written(m, addr, data), other, n) == Stored(m, other, n)
  {
    StoredPrefix(m, addr, data, |data| / BLOCK);
    assert data[..|data|] == data;
    forall other: nat, n: nat | other + n <= addr || addr + |data| / BLOCK <= other
      ensures Stored(Written(m, addr, data), other, n) == Stored(m, other, n)
    {
      StoredSame(Written(m, addr, data), m, other, n);
    }
  }

  // ----- The card behind the host -----

  /** The block a data command addresses; None when the argument is no block boundary. */
  function Addressed(arg: u32, highCapacity: bool): Option<nat> {
    if highCapacity then Some(arg)
    else if arg % 512 == 0 then Some(arg / 512)
    else None
  }

  /** Commands may fail at any time. One that succeeds has done what the card promises; a
      write that fails may have spoiled the blocks it was for, and no others. After an
      open-ended transfer the card takes no data command before a stop; a controller with Auto
      CMD12 sends one by itself. */
  class CardHost {
    const highCapacity: bool
    /** The controller stops an open-ended transfer by itself (Auto CMD12). */
    const autoStop: bool
    var memory: Memory
    var streaming: bool
    /** Stops the card has taken, the controller's and the driver's. */
    ghost var stops: nat
    ghost var log: seq<Command>
    /** Errors the host returned. */
    ghost var failures: seq<Error>
    /** How often the host failed of its own accord. */
    ghost var glitches: nat

    constructor (highCapacity: bool, autoStop: bool, memory: Memory)
      ensures this.highCapacity == highCapacity && this.autoStop == autoStop && this.memory == memory
      ensures !streaming && stops == 0 && log == [] && failures == [] && glitches == 0
    {
      this.highCapacity := highCapacity;
      this.autoStop := autoStop;
      stops := 0;
      glitches := 0;
      this.memory := memory;
      streaming := false;
      log := [];
      failures := [];
    }

    method SendCommand(c: Command) returns (r: Result<()>)
      modifies this
      ensures log == old(log) + [c] && memory == old(memory)
      ensures failures == Complaint(old(failures), r) && glitches == old(glitches) + if r.Ok? then 0 else 1
      ensures streaming == (old(streaming) && !(IsStop(c) && r.Ok?))
      ensures stops == old(stops) + if IsStop(c) && r.Ok? then 1 else 0
    {
      var ok: bool := *;
      var e: Error := *;
      r := if ok then Ok(()) else Err(e);
      log := log + [c];
      failures := Complaint(failures, r);
      if IsStop(c) && ok {
        streaming := false;
        stops := stops + 1;
      }
      if !ok {
        glitches := glitches + 1;
      }
    }

    /** A data command that a card between transfers can serve. */
    predicate Serves(c: Command, write: bool, bytes: nat, size: u32, count: u32)
      reads this
    {
      && !streaming && Addressed(c.arg, highCapacity).Some?
      && Understood(c, false, false) == (if write then WriteBlocks(IsOpen(c), c.arg) else ReadBlocks(IsOpen(c), c.arg))
      && (if IsOpen(c) then count > 0 else count == 1)
      && size == 512 && bytes == count * 512
    }

    /** The card is left in an open-ended transfer, or the controller stops it. */
    predicate Continues(c: Command) {
      IsOpen(c) && !autoStop
    }

    function OwnStops(c: Command): nat {
      if IsOpen(c) && autoStop then 1 else 0
    }

    method ReadData(c: Command, buf: array<u8>, size: u32, count: u32) returns (r: Result<()>)
      modifies this, buf
      ensures log == old(log) + [c] && memory == old(memory)
      ensures failures == Complaint(old(failures), r)
      ensures if r.Ok? then glitches == old(glitches)
              else glitches == old(glitches) + if old(Serves(c, false, buf.Length, size, count)) then 1 else 0
      ensures streaming == (old(streaming) || (r.Ok? && Continues(c)))
      ensures stops == old(stops) + if r.Ok? then OwnStops(c) else 0
      ensures r.Ok? ==>
                && old(Serves(c, false, buf.Length, size, count))
                && buf[..] == Stored(memory, Addressed(c.arg, highCapacity).value, count)
    {
      var willing: bool := *;
      var e: Error := *;
      var data: seq<u8> := *;
      log := log + [c];
      if willing && Serves(c, false, buf.Length, size, count) {
        data := Stored(memory, Addressed(c.arg, highCapacity).value, count);
        streaming := Continues(c);
        stops := stops + OwnStops(c);
        r := Ok(());
      } else {
        glitches := if Serves(c, false, buf.Length, size, count) then glitches + 1 else glitches;
        r := Err(e);
      }
      failures := Complaint(failures, r);
      forall i | 0 <= i < buf.Length && i < |data| {
        buf[i] := data[i];
      }
    }

    method WriteData(c: Command, data: seq<u8>, size: u32, count: u32) returns (r: Result<()>)
      modifies this
      ensures log == old(log) + [c]
      ensures failures == Complaint(old(failures), r)
      ensures if r.Ok? then glitches == old(glitches)
              else glitches == old(glitches) + if old(Serves(c, true, |data|, size, count)) then 1 else 0
      ensures streaming == (old(streaming) || (r.Ok? && Continues(c)))
      ensures stops == old(stops) + if r.Ok? then OwnStops(c) else 0
      ensures r.Ok? ==>
                && old(Serves(c, true, |data|, size, count))
                && memory == Written(old(memory), Addressed(c.arg, highCapacity).value, data)
      ensures forall b | Addressed(c.arg, highCapacity).None? || !Covers(Addressed(c.arg, highCapacity).value, count, b) ::
                memory(b) == old(memory(b))
    {
      var willing: bool := *;
      var e: Error := *;
      var junk: seq<Block> := *;
      log := log + [c];
      var a := Addressed(c.arg, highCapacity);
      if willing && Serves(c, true, |data|, size, count) {
        memory := Written(memory, a.value, data);
        streaming := Continues(c);
        stops := stops + OwnStops(c);
        r := Ok(());
      } else {
        glitches := if Serves(c, true, |data|, size, count) then glitches + 1 else glitches;
        if a.Some? {
          memory := Spoiled(memory, junk, a.value, count);
        }
        r := Err(e);
      }
      failures := Complaint(failures, r);
    }
  }

  predicate IsStop(c: Command) {
    Understood(c, false, false) == Stop
  }

  /** An open-ended data command. */
  predicate IsOpen(c: Command) {
    var q := Understood(c, false, false);
    (q.ReadBlocks? || q.WriteBlocks?) && q.open
  }

  /** The failures after one more answer of the host. */
  function Complaint(before: seq<Error>, r: Result<()>): seq<Error> {
    if r.Ok? then before else before + [r.error]
  }

  // ----- The driver -----

  /** block_count_from_len. */
  function BlockCountFromLen(len: nat): (r: Result<u32>)
    ensures r.Ok? <==> len > 0 && len % BLOCK == 0 && len / BLOCK < U32_LIMIT
    ensures r.Ok? ==> len == r.value * BLOCK && r.value > 0
    ensures len == 0 || len % BLOCK != 0 ==> r == Err(Misaligned)
  {
    if len == 0 || len % BLOCK != 0 then Err(Misaligned)
    else if len / BLOCK < U32_LIMIT then Ok(len / BLOCK)
    else Err(InvalidArgument)
  }

  /** The commands of a whole transfer: the data command, and one stop exactly when it has
      more than one block. */
  function Transfer(c: Command, n: nat): seq<Command> {
    if n > 1 then [c, Cmd12] else [c]
  }

  /** The stops a card sees in a transfer of n blocks. */
  function StopsIn(n: nat, autoStop: bool): nat {
    if n <= 1 then 0 else if autoStop then 2 else 1
  }

  /** What was sent: the transfer, or its data command alone if that failed. */
  predicate Sent(sent: seq<Command>, c: Command, n: nat, ok: bool) {
    sent == Transfer(c, n) || (!ok && sent == [c])
  }

  /** Block addresses the command argument can carry. */
  predicate Encodable(addr: nat, highCapacity: bool) {
    addr < U32_LIMIT && (highCapacity || addr < 0x80_0000)
  }

  lemma AddressedBack(addr: u32, highCapacity: bool)
    requires Encodable(addr, highCapacity)
    ensures Addressed(BlockAddrOf(addr, highCapacity), highCapacity) == Some(addr)
  {
  }

  class SdioSdmmc {
    const host: CardHost
    const highCapacity: bool

    constructor (host: CardHost)
      ensures this.host == host && highCapacity == host.highCapacity
    {
      this.host := host;
      highCapacity := host.highCapacity;
    }

    predicate Valid()
      reads host
    {
      highCapacity == host.highCapacity
    }

    method ReadBlock(addr: u32, buf: array<u8>) returns (r: Result<()>)
      requires Valid() && buf.Length == BLOCK && Encodable(addr, highCapacity)
      modifies host, buf
      ensures Valid() && host.memory == old(host.memory) && host.streaming == old(host.streaming)
      ensures host.log == old(host.log) + [Cmd17(BlockAddrOf(addr, highCapacity))]
      ensures host.failures == Complaint(old(host.failures), r) && host.stops == old(host.stops)
      ensures r.Ok? ==> !old(host.streaming) && buf[..] == host.memory(addr)
      ensures host.glitches >= old(host.glitches)
      ensures r.Err? ==> old(host.streaming) || host.glitches > old(host.glitches)
    {
      AddressedBack(addr, highCapacity);
      DataArrive(BlockAddrOf(addr, highCapacity), false);
      r := host.ReadData(Cmd17(BlockAddrOf(addr, highCapacity)), buf, 512, 1);
      assert r.Ok? ==> buf[..] == Stored(host.memory, addr, 0) + host.memory(addr + 1 - 1);
    }

    method WriteBlock(addr: u32, data: Block) returns (r: Result<()>)
      requires Valid() && Encodable(addr, highCapacity)
      modifies host
      ensures Valid() && host.streaming == old(host.streaming)
      ensures host.log == old(host.log) + [Cmd24(BlockAddrOf(addr, highCapacity))]
      ensures host.failures == Complaint(old(host.failures), r) && host.stops == old(host.stops)
      ensures r.Ok? ==> !old(host.streaming) && host.memory == Written(old(host.memory), addr, data)
      ensures r.Err? ==> old(host.streaming) || host.glitches > old(host.glitches)
      ensures forall b | b != addr :: host.memory(b) == old(host.memory(b))
    {
      AddressedBack(addr, highCapacity);
      DataArrive(BlockAddrOf(addr, highCapacity), false);
      r := host.WriteData(Cmd24(BlockAddrOf(addr, highCapacity)), data, 512, 1);
    }

    /** One CMD17 a block; what the handler was given, in order. */
    method ReadBlocks(addr: u32, count: u32) returns (r: Result<()>, handed: seq<(u32, Block)>)
      requires Valid() && (count > 0 ==> Encodable(addr + count - 1, highCapacity))
      modifies host
      ensures Valid() && host.memory == old(host.memory) && host.streaming == old(host.streaming)
      ensures if r.Ok? then |handed| == count else |handed| < count
      ensures forall i | 0 <= i < |handed| :: handed[i] == (addr + i, host.memory(addr + i))
      ensures host.log == old(host.log) + Singles(addr, if r.Ok? then count else |handed| + 1, highCapacity)
      ensures host.failures == Complaint(old(host.failures), r) && host.stops == old(host.stops)
      ensures r.Ok? && count > 0 ==> !old(host.streaming)
      ensures r.Err? ==> old(host.streaming) || host.glitches > old(host.glitches)
    {
      handed := [];
      r := Ok(());
      var buf := new u8[BLOCK](_ => 0);
      var i := 0;
      assert host.log == host.log + Singles(addr, 0, highCapacity);
      while i < count
        invariant 0 <= i <= count && |handed| == i && r == Ok(())
        invariant Valid() && host.memory == old(host.memory) && host.streaming == old(host.streaming)
        invariant forall k | 0 <= k < i :: handed[k] == (addr + k, host.memory(addr + k))
        invariant host.log == old(host.log) + Singles(addr, i, highCapacity)
        invariant host.failures == old(host.failures) && host.stops == old(host.stops) && host.glitches >= old(host.glitches)
        invariant i > 0 ==> !old(host.streaming)
      {
        SinglesMore(old(host.log), addr, i, highCapacity);
        var one := ReadBlock(addr + i, buf);
        if one.Err? {
          return one, handed;
        }
        handed := handed + [(addr + i, buf[..])];
        i := i + 1;
      }
    }

    /** The whole buffer in one data phase. */
    method ReadBlocksInto(addr: u32, buf: array<u8>) returns (r: Result<()>)
      requires Valid() && Encodable(addr, highCapacity)
      modifies host, buf
      ensures Valid() && host.memory == old(host.memory)
      ensures var n := BlockCountFromLen(buf.Length);
              && (n.Err? ==> r == Err(n.error) && host.log == old(host.log) && buf[..] == old(buf[..]))
              && (n.Ok? ==>
                    var c := if n.value == 1 then Cmd17(BlockAddrOf(addr, highCapacity)) else Cmd18(BlockAddrOf(addr, highCapacity));
                    && old(host.log) <= host.log && Sent(host.log[|old(host.log)|..], c, n.value, r.Ok?)
                    && host.failures == Complaint(old(host.failures), r)
                    && (r.Err? ==> old(host.streaming) || host.glitches > old(host.glitches)))
              && (r.Ok? ==>
                    && buf[..] == Stored(host.memory, addr, n.value) && !host.streaming
                    && host.stops == old(host.stops) + StopsIn(n.value, host.autoStop))
    {
      var n := BlockCountFromLen(buf.Length);
      if n.Err? {
        return Err(n.error);
      }
      var count := n.value;
      AddressedBack(addr, highCapacity);
      DataArrive(BlockAddrOf(addr, highCapacity), false);
      var blockAddr := BlockAddrOf(addr, highCapacity);
      var cmd := if count == 1 then Cmd17(blockAddr) else Cmd18(blockAddr);
      r := host.ReadData(cmd, buf, 512, count);
      assert host.log == old(host.log) + [cmd];
      if r.Err? {
        return;
      }
      if count > 1 {
        r := host.SendCommand(Cmd12);
        assert host.log == old(host.log) + [cmd, Cmd12];
      }
    }

    method WriteBlocksFrom(addr: u32, buf: seq<u8>) returns (r: Result<()>)
      requires Valid() && Encodable(addr, highCapacity)
      modifies host
      ensures Valid()
      ensures var n := BlockCountFromLen(|buf|);
              && (n.Err? ==> r == Err(n.error) && host.log == old(host.log) && host.memory == old(host.memory))
              && (n.Ok? ==>
                    var c := if n.value == 1 then Cmd24(BlockAddrOf(addr, highCapacity)) else Cmd25(BlockAddrOf(addr, highCapacity));
                    && old(host.log) <= host.log && Sent(host.log[|old(host.log)|..], c, n.value, r.Ok?)
                    && host.failures == Complaint(old(host.failures), r)
                    && (r.Err? ==> old(host.streaming) || host.glitches > old(host.glitches))
                    && forall b | !Covers(addr, n.value, b) :: host.memory(b) == old(host.memory(b)))
              && (r.Ok? ==>
                    && host.memory == Written(old(host.memory), addr, buf) && !host.streaming
                    && host.stops == old(host.stops) + StopsIn(n.value, host.autoStop))
    {
      var n := BlockCountFromLen(|buf|);
      if n.Err? {
        return Err(n.error);
      }
      var count := n.value;
      AddressedBack(addr, highCapacity);
      DataArrive(BlockAddrOf(addr, highCapacity), false);
      var blockAddr := BlockAddrOf(addr, highCapacity);
      var cmd := if count == 1 then Cmd24(blockAddr) else Cmd25(blockAddr);
      r := host.WriteData(cmd, buf, 512, count);
      assert host.log == old(host.log) + [cmd];
      if r.Err? {
        return;
      }
      if count > 1 {
        r := host.SendCommand(Cmd12);
        assert host.log == old(host.log) + [cmd, Cmd12];
      }
    }

    /** write_blocks for more than one block. */
    method WriteOpen(addr: u32, blocks: seq<Block>) returns (r: Result<()>)
      requires Valid() && Encodable(addr, highCapacity) && |blocks| > 1
      modifies host
      ensures Valid()
      ensures host.failures == Complaint(old(host.failures), r)
      ensures |blocks| < U32_LIMIT && r.Err? ==> old(host.streaming) || host.glitches > old(host.glitches)
      ensures old(host.log) <= host.log
      ensures Sent(host.log[|old(host.log)|..], Cmd25(BlockAddrOf(addr, highCapacity)), |blocks|, r.Ok?)
      ensures r.Ok? ==> host.memory == Written(old(host.memory), addr, Flattened(blocks)) && !host.streaming
      ensures r.Ok? ==> host.stops == old(host.stops) + StopsIn(|blocks|, host.autoStop)
      ensures forall b | !Covers(addr, |blocks|, b) :: host.memory(b) == old(host.memory(b))
    {
      AddressedBack(addr, highCapacity);
      DataArrive(BlockAddrOf(addr, highCapacity), false);
      var blockAddr := BlockAddrOf(addr, highCapacity);
      var count := TruncU32(|blocks|);
      r := host.WriteData(Cmd25(blockAddr), Flattened(blocks), 512, count);
      assert host.log == old(host.log) + [Cmd25(blockAddr)];
      if r.Err? {
        return;
      }
      r := host.SendCommand(Cmd12);
      assert host.log == old(host.log) + [Cmd25(blockAddr), Cmd12];
    }

    /** write_blocks: the blocks end to end, by CMD24 or by CMD25 and CMD12. */
    method WriteBlocks(addr: u32, blocks: seq<Block>) returns (r: Result<()>)
      requires Valid() && Encodable(addr, highCapacity)
      modifies host
      ensures Valid()
      ensures blocks == [] ==> r == Err(InvalidArgument) && host.log == old(host.log) && host.memory == old(host.memory)
      ensures blocks != [] ==> host.failures == Complaint(old(host.failures), r)
      ensures blocks != [] && |blocks| < U32_LIMIT && r.Err? ==> old(host.streaming) || host.glitches > old(host.glitches)
      ensures |blocks| == 1 ==> host.log == old(host.log) + [Cmd24(BlockAddrOf(addr, highCapacity))]
      ensures |blocks| > 1 ==>
                && old(host.log) <= host.log
                && Sent(host.log[|old(host.log)|..], Cmd25(BlockAddrOf(addr, highCapacity)), |blocks|, r.Ok?)
      ensures r.Ok? ==> host.memory == Written(old(host.memory), addr, Flattened(blocks)) && !host.streaming
      ensures r.Ok? ==> host.stops == old(host.stops) + StopsIn(|blocks|, host.autoStop)
      ensures forall b | !Covers(addr, |blocks|, b) :: host.memory(b) == old(host.memory(b))
    {
      if blocks == [] {
        return Err(InvalidArgument);
      }
      if |blocks| == 1 {
        assert Flattened(blocks) == Flattened([]) + blocks[0] == blocks[0];
        r := WriteBlock(addr, blocks[0]);
        return;
      }
      r := WriteOpen(addr, blocks);
    }
  }

  /** CMD17 for each of n blocks. */
  function Singles(addr: u32, n: nat, highCapacity: bool): (s: seq<Command>)
    requires n > 0 ==> Encodable(addr + n - 1, highCapacity)
    ensures |s| == n
  {
    seq(n, i requires 0 <= i < n => Cmd17(BlockAddrOf(addr + i, highCapacity)))
  }

  lemma SinglesMore(log: seq<Command>, addr: u32, i: nat, highCapacity: bool)
    requires Encodable(addr + i, highCapacity)
    ensures log + Singles(addr, i, highCapacity) + [Cmd17(BlockAddrOf(addr + i, highCapacity))] == log + Singles(addr, i + 1, highCapacity)
  {
  }

  function Flattened(blocks: seq<Block>): (s: seq<u8>)
    ensures |s| == |blocks| * BLOCK
  {
    if blocks == [] then [] else Flattened(blocks[..|blocks| - 1]) + blocks[|blocks| - 1]
  }

  /** The CMD17 loop hands over, block by block, what the one CMD18 transfer delivers. */
  lemma {:induction false} LoopEqualsTransfer(m: Memory, addr: u32, handed: seq<(u32, Block)>)
    requires forall i | 0 <= i < |handed| :: handed[i] == (addr + i, m(addr + i))
    ensures Flattened(seq(|handed|, i requires 0 <= i < |handed| => handed[i].1)) == Stored(m, addr, |handed|)
    decreases |handed|
  {
    var n := |handed|;
    if n > 0 {
      LoopEqualsTransfer(m, addr, handed[..n - 1]);
      var all := seq(n, i requires 0 <= i < n => handed[i].1);
      assert all[..n - 1] == seq(n - 1, i requires 0 <= i < n - 1 => handed[..n - 1][i].1);
    }
  }
}
