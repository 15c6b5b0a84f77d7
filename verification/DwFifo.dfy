/** DW_mshc programmed I/O: 64-bit accesses to a FIFO of 32-bit words, against a card that
    delivers and a bus that drains whenever they please. */
module DwFifo {
  import opened Errors
  import opened MachineInts
  import opened LittleEndian
  import opened FifoLoss

  const POLL_LIMIT: nat := 8_000_000
  const OVER_POLLS: nat := 1_000_000

  /** A buffer after the first words of a stream have gone into it; the rest is untouched. */
  ghost predicate Copied(buf: seq<u8>, before: seq<u8>, took: seq<u32>) {
    && |buf| == |before|
    && forall k | 0 <= k < |buf| :: buf[k] == if k < 4 * |took| then Bytes(took)[k] else before[k]
  }

  lemma CopiedNothing(buf: seq<u8>)
    ensures Copied(buf, buf, [])
  {
  }

  /** Eight more bytes, or none if the buffer is full already. */
  lemma CopiedMore(buf: seq<u8>, before: seq<u8>, took: seq<u32>, lo: u32, hi: u32, buf': seq<u8>)
    requires Copied(buf, before, took) && |buf'| == |buf|
    requires |buf| % 8 == 0 && |took| % 2 == 0
    requires var at := 4 * |took|;
             forall k | 0 <= k < |buf| :: buf'[k] == if at <= k < at + 8 then ToLe(Pair(lo, hi), 8)[k - at] else buf[k]
    ensures Copied(buf', before, took + [lo, hi])
  {
    BytesPair(took, lo, hi);
  }

  lemma CopiedAll(buf: seq<u8>, before: seq<u8>, took: seq<u32>, rest: seq<u32>)
    requires Copied(buf, before, took) && 4 * |took| >= |buf|
    ensures buf == Bytes(took + rest)[..|buf|]
  {
    BytesConcat(took, rest);
  }

  lemma Regroup(took: seq<u32>, fifo: seq<u32>, incoming: seq<u32>)
    requires |fifo| >= 2
    ensures took + fifo + incoming == (took + [fifo[0], fifo[1]]) + fifo[2..] + incoming
  {
  }

  lemma RegroupArrivals(took: seq<u32>, fifo: seq<u32>, incoming: seq<u32>, fifo': seq<u32>, incoming': seq<u32>)
    requires fifo + incoming == fifo' + incoming'
    ensures took + fifo + incoming == took + fifo' + incoming'
  {
    assert took + fifo + incoming == took + (fifo + incoming);
    assert took + fifo' + incoming' == took + (fifo' + incoming');
  }

  function Noted(faults: seq<Error>, r: Result<()>): seq<Error> {
    if r.Ok? then faults else faults + [r.error]
  }

  /** What bus and FIFO held and what was lost when a call began, and the stores ahead of it. */
  datatype Begun = Begun(held: seq<u32>, lost: seq<u32>, load: Load)

  class DwMmc {
    const depth: nat
    /** The bus takes words out of the FIFO two at a time. */
    const paired: bool
    var fifo: seq<u32>
    /** What the card has still to deliver, and what the bus has sent to it. */
    var incoming: seq<u32>
    ghost var sent: seq<u32>
    /** Upper words stored with no room left. */
    ghost var lost: seq<u32>
    /** Errors the status registers showed, and how often the FIFO was looked at. */
    ghost var faults: seq<Error>
    ghost var looks: nat
    /** data_transfer_over at each look at RINTSTS. */
    ghost var overs: seq<bool>

    constructor (depth: nat, paired: bool, incoming: seq<u32>)
      ensures this.depth == depth && this.paired == paired && this.incoming == incoming
      ensures fifo == [] && sent == [] && lost == [] && faults == []
    {
      this.depth := depth;
      this.paired := paired;
      this.incoming := incoming;
      fifo := [];
      sent := [];
      lost := [];
      faults := [];
      looks := 0;
      overs := [];
    }

    /** RINTSTS: an error, translated, or none; data request; data_transfer_over. */
    method ReadStatus() returns (r: Result<()>, request: bool, over: bool)
      modifies this`faults, this`overs
      ensures faults == Noted(old(faults), r) && overs == old(overs) + [over]
    {
      var ok: bool := *;
      var e: Error := *;
      request, over := *, *;
      r := if ok then Ok(()) else Err(e);
      faults := Noted(faults, r);
      overs := overs + [over];
    }

    method ResetFifo()
      modifies this`fifo
      ensures fifo == []
    {
      fifo := [];
    }

    /** wait_data_transfer_over: Ok at the first look that shows it. */
    method WaitTransferOver(phase: Phase, cmd: u8) returns (r: Result<()>)
      modifies this`faults, this`overs
      ensures old(overs) < overs
      ensures r.Ok? ==> faults == old(faults) && overs[|overs| - 1]
      ensures r.Err? ==>
                faults == old(faults) + [r.error] || (r == Err(Timeout(ForCmd(phase, cmd))) && |overs| == |old(overs)| + OVER_POLLS)
      ensures forall i | |old(overs)| <= i < |overs| - 1 :: !overs[i]
    {
      var i := 0;
      while i < OVER_POLLS
        invariant 0 <= i <= OVER_POLLS && faults == old(faults) && old(overs) <= overs && |overs| == |old(overs)| + i
        invariant forall i | |old(overs)| <= i < |overs| :: !overs[i]
      {
        var status, request, over := ReadStatus();
        if status.Err? {
          return status;
        }
        if over {
          return Ok(());
        }
        i := i + 1;
      }
      r := Err(Timeout(ForCmd(phase, cmd)));
    }

    // ----- Receiving -----

    /** The STATUS register's word count; words may have arrived since the last look. */
    method CountAfterArrivals() returns (count: nat)
      modifies this`fifo, this`incoming, this`looks
      ensures looks == old(looks) + 1
      ensures count == |fifo| >= |old(fifo)|
      ensures fifo + incoming == old(fifo) + old(incoming)
    {
      var k: int := *;
      if 0 <= k <= |incoming| && |fifo| + k <= depth {
        assert fifo + incoming[..k] + incoming[k..] == fifo + incoming;
        fifo := fifo + incoming[..k];
        incoming := incoming[k..];
      }
      count := |fifo|;
      looks := looks + 1;
    }

    method ReadFifo() returns (v: u64)
      requires |fifo| >= 2
      modifies this`fifo
      ensures v == Pair(old(fifo)[0], old(fifo)[1]) && fifo == old(fifo)[2..]
    {
      v := Pair(fifo[0], fifo[1]);
      fifo := fifo[2..];
    }

    /** The inner loop: everything the FIFO holds, two words at a time. */
    method DrainInto(buf: array<u8>, ghost before: seq<u8>, ghost took0: seq<u32>, offset0: nat, count0: nat)
      returns (offset: nat, ghost took: seq<u32>)
      requires buf.Length % 8 == 0 && |took0| % 2 == 0 && offset0 == 4 * |took0| && count0 <= |fifo|
      requires Copied(buf[..], before, took0)
      modifies buf, this`fifo, this`incoming, this`looks
      ensures looks >= old(looks)
      ensures |took| % 2 == 0 && offset == 4 * |took| && |took| >= |took0|
      ensures Copied(buf[..], before, took)
      ensures took + fifo + incoming == took0 + old(fifo) + old(incoming)
      ensures count0 >= 2 ==> |took| > |took0|
    {
      offset := offset0;
      took := took0;
      var count := count0;
      while count >= 2
        invariant |took| % 2 == 0 && offset == 4 * |took| && count <= |fifo|
        invariant looks >= old(looks)
        invariant |took| > |took0| || (took == took0 && count == count0)
        invariant Copied(buf[..], before, took)
        invariant took + fifo + incoming == took0 + old(fifo) + old(incoming)
        decreases |fifo| + |incoming|
      {
        ghost var was := buf[..];
        ghost var words := fifo;
        Regroup(took, fifo, incoming);
        var v := ReadFifo();
        if offset + 8 <= buf.Length {
          forall i | 0 <= i < 8 {
            buf[offset + i] := ToLe(v, 8)[i];
          }
        }
        CopiedMore(was, before, took, words[0], words[1], buf[..]);
        took := took + [words[0], words[1]];
        offset := offset + 8;
        ghost var left, coming := fifo, incoming;
        count := CountAfterArrivals();
        RegroupArrivals(took, fifo, incoming, left, coming);
        assert |fifo| + |incoming| == |left| + |coming| by {
          assert |fifo + incoming| == |left + coming|;
        }
      }
    }

    /** The loop of pio_read, up to its break or an error. */
    method TakeWords(buf: array<u8>, cmd: u8, waitForOver: bool) returns (r: Result<()>, ghost took: seq<u32>, ghost discarded: seq<u32>)
      requires buf.Length % 8 == 0
      modifies buf, this`fifo, this`incoming, this`faults, this`looks, this`overs
      ensures old(overs) <= overs
      ensures r.Ok? && waitForOver ==> old(overs) < overs && overs[|overs| - 1]
      ensures r.Err? ==>
                faults == old(faults) + [r.error] || (r == Err(Timeout(ForCmd(DataRead, cmd))) && looks >= old(looks) + POLL_LIMIT)
      ensures r.Ok? ==> faults == old(faults) && discarded == [] && 4 * |took| >= buf.Length
      ensures took + discarded + fifo + incoming == old(fifo) + old(incoming)
      ensures discarded != [] ==> fifo == []
      ensures Copied(buf[..], old(buf[..]), took)
    {
      took, discarded := [], [];
      CopiedNothing(buf[..]);
      RegroupNone(fifo, incoming);
      var offset := 0;
      var idle := 0;
      while true
        invariant |took| % 2 == 0 && offset == 4 * |took| && discarded == [] && idle < POLL_LIMIT
        invariant faults == old(faults) && looks >= old(looks) + idle && old(overs) <= overs
        invariant Copied(buf[..], old(buf[..]), took)
        invariant took + fifo + incoming == old(fifo) + old(incoming)
        decreases |old(fifo)| + |old(incoming)| - |took|, POLL_LIMIT - idle
      {
        var status, request, over := ReadStatus();
        if status.Err? {
          discarded := fifo;
          RegroupDiscarded(took, fifo, incoming);
          ResetFifo();
          return Err(status.error), took, discarded;
        }
        var drained := false;
        ghost var left, coming := fifo, incoming;
        var count := CountAfterArrivals();
        RegroupArrivals(took, fifo, incoming, left, coming);
        if request || count >= 2 || (over && count > 0) {
          var offset';
          offset', took := DrainInto(buf, old(buf[..]), took, offset, count);
          drained := offset' > offset;
          offset := offset';
        }
        TookBound(took, fifo, incoming, old(fifo), old(incoming));
        RegroupNone(took, fifo);
        if offset >= buf.Length && (!waitForOver || over) {
          return Ok(()), took, discarded;
        }
        if drained {
          idle := 0;
        } else {
          idle := idle + 1;
          if idle >= POLL_LIMIT {
            return Err(Timeout(ForCmd(DataRead, cmd))), took, discarded;
          }
        }
      }
    }

    /** What was taken, what the reset after an error discarded, the FIFO and the card's rest
        are always the card's stream. Ok: the buffer is the beginning of that stream. */
    method PioRead(buf: array<u8>, cmd: u8, waitForOver: bool) returns (r: Result<()>, ghost took: seq<u32>, ghost discarded: seq<u32>)
      modifies buf, this`fifo, this`incoming, this`faults, this`looks, this`overs
      ensures r.Ok? && waitForOver ==> OverTwice(old(overs), overs)
      ensures r.Err? && buf.Length % 8 == 0 ==>
                || faults == old(faults) + [r.error]
                || (r == Err(Timeout(ForCmd(DataRead, cmd))) && (looks >= old(looks) + POLL_LIMIT || |overs| >= |old(overs)| + OVER_POLLS))
      ensures r.Ok? ==> faults == old(faults)
      ensures took + discarded + fifo + incoming == old(fifo) + old(incoming)
      ensures discarded != [] ==> r.Err? && fifo == []
      ensures Copied(buf[..], old(buf[..]), took)
      ensures buf.Length % 8 != 0 ==> r == Err(Misaligned) && took == [] && discarded == []
      ensures r.Ok? ==>
                var stream := old(fifo) + old(incoming);
                buf.Length <= 4 * |stream| && buf[..] == Bytes(stream)[..buf.Length]
    {
      if buf.Length % 8 != 0 {
        CopiedNothing(buf[..]);
        RegroupNone(fifo, incoming);
        return Err(Misaligned), [], [];
      }
      r, took, discarded := TakeWords(buf, cmd, waitForOver);
      if r.Err? {
        return r, took, discarded;
      }
      Delivered(buf[..], old(buf[..]), took, fifo, incoming, old(fifo) + old(incoming));
      if waitForOver {
        r := WaitTransferOver(DataRead, cmd);
      }
    }

    // ----- Sending -----

    /** fifo_full; the bus may have drained k words since the last look. */
    method FullAfterDrain() returns (full: bool, ghost k: nat)
      modifies this`fifo, this`sent, this`looks
      ensures looks == old(looks) + 1
      ensures full <==> |fifo| >= depth
      ensures k <= |old(fifo)| && |fifo| == |old(fifo)| - k && (paired ==> k % 2 == 0)
      ensures sent + fifo == old(sent) + old(fifo)
    {
      k := 0;
      var n: int := *;
      if 0 <= n <= |fifo| && (paired ==> n % 2 == 0) {
        assert sent + fifo[..n] + fifo[n..] == sent + fifo;
        sent := sent + fifo[..n];
        fifo := fifo[n..];
        k := n;
      }
      full := |fifo| >= depth;
      looks := looks + 1;
    }

    /** The hardware's side of a 64-bit store, low word first. */
    method WriteFifo(lo: u32, hi: u32, ghost v: u64)
      requires |fifo| < depth && v == Pair(lo, hi)
      modifies this`fifo, this`lost
      ensures if |old(fifo)| + 2 <= depth then fifo == old(fifo) + [lo, hi] && lost == old(lost)
              else fifo == old(fifo) + [lo] && lost == old(lost) + [hi]
    {
      if |fifo| + 2 <= depth {
        fifo := fifo + [lo, hi];
      } else {
        fifo := fifo + [lo];
        lost := lost + [hi];
      }
    }

    /** How far a call has come: the buffer's first words are stored; unless one was lost, bus
        and FIFO hold just what they held and those; and the schedule of drains leads to where
        the FIFO stands. */
    ghost predicate SoFar(begun: Begun, buf: seq<u8>, stored: seq<u32>, drains: seq<nat>)
      reads this
    {
      && |stored| % 2 == 0 && 4 * |stored| <= |buf| && Bytes(stored) == buf[..4 * |stored|]
      && begun.lost <= lost && (lost == begun.lost ==> sent + fifo == begun.held + stored)
      && Tracked(begun.load, depth, paired, drains, Load(|fifo|, |buf| / 8 - |stored| / 2, |lost| - |begun.lost|))
    }

    /** The next eight bytes as one store. */
    method StoreChunk(buf: seq<u8>, offset: nat, ghost stored0: seq<u32>) returns (ghost stored: seq<u32>)
      requires |fifo| < depth && offset + 8 <= |buf|
      requires offset == 4 * |stored0| && Bytes(stored0) == buf[..offset]
      modifies this`fifo, this`lost
      ensures |stored| == |stored0| + 2 && stored0 <= stored && Bytes(stored) == buf[..offset + 8]
      ensures old(lost) <= lost
      ensures if |old(fifo)| + 2 <= depth then lost == old(lost) && |fifo| == |old(fifo)| + 2
              else |lost| == |old(lost)| + 1 && |fifo| == |old(fifo)| + 1
      ensures lost == old(lost) ==> sent + fifo == old(sent) + old(fifo) + stored[|stored0|..]
    {
      var chunk := buf[offset..offset + 8];
      var v := FromLe(chunk);
      var lo, hi := FromLe(chunk[..4]), FromLe(chunk[4..]);
      ChunkWords(buf, offset, stored0, lo, hi);
      stored := stored0 + [lo, hi];
      assert stored[|stored0|..] == [lo, hi];
      assert sent + (fifo + [lo, hi]) == sent + fifo + [lo, hi];
      WriteFifo(lo, hi, v);
    }

    /** One turn of the inner loop: a look, and a store unless the FIFO is full or all is done. */
    method LookAndStore(ghost begun: Begun, buf: seq<u8>, offset: nat, ghost stored0: seq<u32>, ghost drains0: seq<nat>)
      returns (more: bool, ghost stored: seq<u32>, ghost drains: seq<nat>)
      requires |buf| % 8 == 0 && offset == 4 * |stored0| && SoFar(begun, buf, stored0, drains0)
      modifies this`fifo, this`sent, this`lost, this`looks
      ensures looks == old(looks) + 1
      ensures SoFar(begun, buf, stored, drains)
      ensures stored0 <= stored && |stored| == |stored0| + (if more then 2 else 0)
      ensures !more ==> offset == |buf| || |fifo| >= depth
    {
      stored := stored0;
      ghost var k;
      var full;
      full, k := FullAfterDrain();
      drains := drains0 + [k];
      TrackedMore(begun.load, depth, paired, drains0, k);
      more := !full && offset < |buf|;
      if more {
        RoomForEight(|buf|, |stored0|);
        ghost var held := sent + fifo;
        stored := StoreChunk(buf, offset, stored0);
        AppendMore(begun.held, stored0, stored, held);
      }
    }

    /** The inner loop: as many 64-bit chunks as the FIFO takes. */
    method Fill(ghost begun: Begun, buf: seq<u8>, offset0: nat, ghost stored0: seq<u32>, ghost drains0: seq<nat>)
      returns (offset: nat, ghost stored: seq<u32>, ghost drains: seq<nat>)
      requires |buf| % 8 == 0 && offset0 == 4 * |stored0| && SoFar(begun, buf, stored0, drains0)
      modifies this`fifo, this`sent, this`lost, this`looks
      ensures looks > old(looks)
      ensures SoFar(begun, buf, stored, drains)
      ensures stored0 <= stored && offset == 4 * |stored|
      ensures offset == |buf| || |fifo| >= depth
    {
      offset := offset0;
      stored, drains := stored0, drains0;
      var more := true;
      while more
        invariant offset == 4 * |stored| && stored0 <= stored
        invariant SoFar(begun, buf, stored, drains)
        invariant looks >= old(looks)
        invariant !more ==> looks > old(looks) && (offset == |buf| || |fifo| >= depth)
        decreases |buf| - offset, more
      {
        more, stored, drains := LookAndStore(begun, buf, offset, stored, drains);
        if more {
          offset := offset + 8;
        }
      }
    }

    /** The loop of pio_write. */
    method StoreWords(ghost begun: Begun, buf: seq<u8>, cmd: u8)
      returns (r: Result<()>, ghost stored: seq<u32>, ghost discarded: seq<u32>, ghost drains: seq<nat>)
      requires |buf| % 8 == 0 && begun == Begun(sent + fifo, lost, Load(|fifo|, |buf| / 8, 0))
      modifies this`fifo, this`sent, this`lost, this`faults, this`looks, this`overs
      ensures r.Err? ==>
                faults == old(faults) + [r.error] || (r == Err(Timeout(ForCmd(DataWrite, cmd))) && looks >= old(looks) + POLL_LIMIT)
      ensures r.Ok? ==> faults == old(faults) && discarded == [] && 4 * |stored| == |buf|
      ensures old(overs) <= overs
      ensures 4 * |stored| <= |buf| && Bytes(stored) == buf[..4 * |stored|]
      ensures old(lost) <= lost && (discarded != [] ==> fifo == [])
      ensures lost == old(lost) ==> sent + discarded + fifo == begun.held + stored
      ensures Feasible(begun.load, depth, paired, drains)
      ensures |lost| - |old(lost)| == Run(begun.load, depth, drains).lost
    {
      stored, discarded, drains := [], [], [];
      RegroupNone(sent, fifo);
      assert buf[..0] == [];
      var offset := 0;
      var idle := 0;
      while offset < |buf|
        invariant offset == 4 * |stored| && SoFar(begun, buf, stored, drains)
        invariant faults == old(faults) && looks >= old(looks) + idle && old(overs) <= overs
        invariant discarded == [] && idle < POLL_LIMIT
        decreases |buf| - offset, POLL_LIMIT - idle
      {
        var status, request, over := ReadStatus();
        if status.Err? {
          discarded := fifo;
          ResetFifo();
          RegroupNone(sent + discarded, []);
          return Err(status.error), stored, discarded, drains;
        }
        var offset';
        offset', stored, drains := Fill(begun, buf, offset, stored, drains);
        var pushed := offset' > offset;
        offset := offset';
        if offset == |buf| {
          break;
        }
        if pushed {
          idle := 0;
        } else {
          idle := idle + 1;
          if idle >= POLL_LIMIT {
            RegroupNone(sent, fifo);
            return Err(Timeout(ForCmd(DataWrite, cmd))), stored, discarded, drains;
          }
        }
      }
      RegroupNone(sent, fifo);
      r := Ok(());
    }

    /** The words stored are the buffer's, little-endian, in order, as far as the call got; as
        long as no store met a single free word, bus and FIFO hold just them. Words are lost as
        the bus's drains have it: none, whatever the drains, exactly if the FIFO is roomy. */
    method PioWrite(buf: seq<u8>, cmd: u8)
      returns (r: Result<()>, ghost stored: seq<u32>, ghost discarded: seq<u32>, ghost drains: seq<nat>)
      modifies this`fifo, this`sent, this`lost, this`faults, this`looks, this`overs
      ensures r.Ok? ==> old(overs) < overs && overs[|overs| - 1]
      ensures r.Err? && |buf| % 8 == 0 ==>
                || faults == old(faults) + [r.error]
                || (r == Err(Timeout(ForCmd(DataWrite, cmd))) && (looks >= old(looks) + POLL_LIMIT || |overs| >= |old(overs)| + OVER_POLLS))
      ensures r.Ok? ==> faults == old(faults)
      ensures |buf| % 8 != 0 ==> r == Err(Misaligned) && stored == [] && lost == old(lost)
      ensures 4 * |stored| <= |buf| && Bytes(stored) == buf[..4 * |stored|]
      ensures r.Ok? ==> Bytes(stored) == buf
      ensures old(lost) <= lost && (discarded != [] ==> r.Err? && fifo == [])
      ensures lost == old(lost) ==> sent + discarded + fifo == old(sent) + old(fifo) + stored
      ensures var start := Load(|old(fifo)|, |buf| / 8, 0);
              Feasible(start, depth, paired, drains) && |lost| - |old(lost)| == Run(start, depth, drains).lost
      ensures |old(fifo)| <= depth && Roomy(depth, paired, |old(fifo)|, |buf| / 8) ==> lost == old(lost)
    {
      if |buf| % 8 != 0 {
        RegroupNone(sent, fifo);
        return Err(Misaligned), [], [], [];
      }
      ghost var begun := Begun(sent + fifo, lost, Load(|fifo|, |buf| / 8, 0));
      r, stored, discarded, drains := StoreWords(begun, buf, cmd);
      LossIsScheduled(begun.load, depth, paired, drains);
      if r.Err? {
        return r, stored, discarded, drains;
      }
      assert buf[..|buf|] == buf;
      r := WaitTransferOver(DataWrite, cmd);
    }
  }

  /** The driver leaves its loop at a look that shows data_transfer_over, and then waits for
      another one that does. */
  ghost predicate OverTwice(before: seq<bool>, after: seq<bool>) {
    && before <= after && |after| >= |before| + 2
    && after[|after| - 1]
    && exists i :: |before| <= i < |after| - 1 && after[i]
  }

  ghost predicate Tracked(start: Load, depth: nat, paired: bool, drains: seq<nat>, now: Load) {
    Feasible(start, depth, paired, drains) && Run(start, depth, drains) == now
  }

  lemma TrackedMore(start: Load, depth: nat, paired: bool, drains: seq<nat>, k: nat)
    ensures forall now | Tracked(start, depth, paired, drains, now) && k <= now.level && (paired ==> k % 2 == 0) ::
              Tracked(start, depth, paired, drains + [k], Look(now, depth, k))
  {
    RunMore(start, depth, paired, drains, k);
  }

  lemma LossIsScheduled(start: Load, depth: nat, paired: bool, drains: seq<nat>)
    requires Feasible(start, depth, paired, drains)
    ensures start.level <= depth && Roomy(depth, paired, start.level, start.stores) ==>
              Run(start, depth, drains).lost == start.lost
  {
    if start.level <= depth && Roomy(depth, paired, start.level, start.stores) {
      RoomyStays(start, depth, paired, drains);
    }
  }

  lemma RoomForEight(len: nat, n: nat)
    requires len % 8 == 0 && n % 2 == 0 && 4 * n < len
    ensures 4 * n + 8 <= len
  {
  }

  lemma AppendMore(held0: seq<u32>, stored0: seq<u32>, stored: seq<u32>, held: seq<u32>)
    requires stored0 <= stored
    ensures held == held0 + stored0 ==> held + stored[|stored0|..] == held0 + stored
  {
  }

  lemma Extended(buf: seq<u8>, i: nat, j: nat)
    requires i <= j <= |buf|
    ensures buf[..j] == buf[..i] + buf[i..j]
  {
  }

  lemma WordsOfChunk(chunk: seq<u8>, lo: nat, hi: nat)
    requires |chunk| == 8 && lo == FromLe(chunk[..4]) && hi == FromLe(chunk[4..])
    ensures lo < U32_LIMIT && hi < U32_LIMIT && FromLe(chunk) == Pair(lo, hi)
  {
    Pow256Values();
    FromLeBound(chunk[..4]);
    FromLeBound(chunk[4..]);
    assert chunk == chunk[..4] + chunk[4..];
    FromHalves(chunk[..4], chunk[4..]);
  }

  /** A chunk as one 64-bit value is its two words, and they carry its bytes. */
  lemma ChunkWords(buf: seq<u8>, offset: nat, stored: seq<u32>, lo: nat, hi: nat)
    requires offset + 8 <= |buf| && Bytes(stored) == buf[..offset]
    requires lo == FromLe(buf[offset..offset + 8][..4]) && hi == FromLe(buf[offset..offset + 8][4..])
    ensures lo < U32_LIMIT && hi < U32_LIMIT
    ensures FromLe(buf[offset..offset + 8]) == Pair(lo, hi)
    ensures Bytes(stored + [lo, hi]) == buf[..offset + 8]
  {
    var chunk := buf[offset..offset + 8];
    WordsOfChunk(chunk, lo, hi);
    BytesBack(chunk);
    BytesPair(stored, lo, hi);
    Extended(buf, offset, offset + 8);
  }

  lemma TookBound(took: seq<u32>, fifo: seq<u32>, incoming: seq<u32>, fifo0: seq<u32>, incoming0: seq<u32>)
    requires took + fifo + incoming == fifo0 + incoming0
    ensures |took| <= |fifo0| + |incoming0|
  {
    assert |took + fifo + incoming| == |fifo0 + incoming0|;
  }

  lemma Delivered(buf: seq<u8>, before: seq<u8>, took: seq<u32>, fifo: seq<u32>, incoming: seq<u32>, stream: seq<u32>)
    requires Copied(buf, before, took) && 4 * |took| >= |buf| && took + [] + fifo + incoming == stream
    ensures |buf| <= 4 * |stream| && buf == Bytes(stream)[..|buf|]
  {
    Regroup3(took, fifo, incoming);
    CopiedAll(buf, before, took, fifo + incoming);
  }

  lemma Regroup3(a: seq<u32>, b: seq<u32>, c: seq<u32>)
    ensures a + b + c == a + (b + c) && a + [] + b + c == a + b + c
  {
  }

  lemma RegroupNone(a: seq<u32>, b: seq<u32>)
    ensures [] + a + b == a + b && a + [] + b == a + b && [] + [] + a + b == a + b
  {
  }

  lemma RegroupDiscarded(took: seq<u32>, fifo: seq<u32>, incoming: seq<u32>)
    ensures took + fifo + [] + incoming == took + fifo + incoming
  {
  }
}
