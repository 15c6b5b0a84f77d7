/** SDHCI programmed I/O: blocks through a 32-bit data port, the last word of a block padded. */
module SdhciPio {
  import opened Errors
  import opened MachineInts
  import opened LittleEndian

  function WordsPer(size: nat): (n: nat)
    ensures size <= 4 * n < size + 4
  {
    (size + 3) / 4
  }

  // ----- One block -----

  function Padding(n: nat): (s: seq<u8>)
    ensures |s| == n
  {
    seq(n, _ => 0)
  }

  /** Word i of a block: its next four bytes, or what is left of them and zeros. */
  function WordOf(block: seq<u8>, i: nat): u32
    requires 4 * i < |block|
  {
    var chunk := block[4 * i..Min(4 * i + 4, |block|)];
    var bytes := chunk + Padding(4 - |chunk|);
    FromLeBound(bytes);
    Pow256Values();
    FromLe(bytes)
  }

  function Pack(block: seq<u8>): (w: seq<u32>)
    ensures |w| == WordsPer(|block|)
  {
    seq(WordsPer(|block|), i requires 0 <= i < WordsPer(|block|) => WordOf(block, i))
  }

  /** The block a reader of given size makes of words: the bytes beyond its end are dropped. */
  function Unpack(words: seq<u32>, size: nat): (block: seq<u8>)
    requires |words| == WordsPer(size)
    ensures |block| == size
  {
    Bytes(words)[..size]
  }

  lemma {:induction false} BytesAt(words: seq<u32>, i: nat)
    requires i < |words|
    ensures Bytes(words)[4 * i..4 * i + 4] == ToLe(words[i], 4)
    decreases |words|
  {
    var n := |words| - 1;
    if i < n {
      BytesAt(words[..n], i);
      assert Bytes(words)[4 * i..4 * i + 4] == Bytes(words[..n])[4 * i..4 * i + 4];
    }
  }

  lemma WordBytes(block: seq<u8>, i: nat, k: nat)
    requires 4 * i < |block| && k < 4 && 4 * i + k < |block|
    ensures ToLe(WordOf(block, i), 4)[k] == block[4 * i + k]
  {
    var chunk := block[4 * i..Min(4 * i + 4, |block|)];
    var bytes := chunk + Padding(4 - |chunk|);
    BytesBack(bytes);
    assert |bytes| == 4 && ToLe(WordOf(block, i), 4) == bytes;
    assert bytes[k] == chunk[k] == block[4 * i + k];
  }

  /** Packing loses nothing, whatever the block size. */
  lemma {:induction false} UnpackPack(block: seq<u8>)
    ensures Unpack(Pack(block), |block|) == block
  {
    var words := Pack(block);
    forall j | 0 <= j < |block|
      ensures Bytes(words)[j] == block[j]
    {
      var i, k := j / 4, j % 4;
      BytesAt(words, i);
      assert Bytes(words)[j] == Bytes(words)[4 * i..4 * i + 4][k];
      WordBytes(block, i, k);
    }
  }

  // ----- Whole transfers -----

  /** The first n blocks of a buffer, block by block. */
  function PackBlocks(buf: seq<u8>, size: nat, n: nat): (w: seq<u32>)
    requires n * size <= |buf|
    ensures |w| == n * WordsPer(size)
  {
    if n == 0 then []
    else
      Earlier(n, size);
      PackBlocks(buf, size, n - 1) + Pack(buf[(n - 1) * size..n * size])
  }

  lemma Earlier(n: nat, size: nat)
    requires n > 0
    ensures n * size == (n - 1) * size + size && 0 <= (n - 1) * size
  {
  }

  function UnpackBlocks(words: seq<u32>, size: nat, n: nat): (buf: seq<u8>)
    requires |words| >= n * WordsPer(size)
    ensures |buf| == n * size
  {
    if n == 0 then []
    else
      Earlier(n, size);
      Earlier(n, WordsPer(size));
      UnpackBlocks(words, size, n - 1) + Unpack(words[(n - 1) * WordsPer(size)..n * WordsPer(size)], size)
  }

  lemma {:induction false} UnpackBlocksPrefix(words: seq<u32>, more: seq<u32>, size: nat, n: nat)
    requires |words| >= n * WordsPer(size) && words <= more
    ensures UnpackBlocks(words, size, n) == UnpackBlocks(more, size, n)
  {
    if n > 0 {
      var w := WordsPer(size);
      Earlier(n, w);
      UnpackBlocksPrefix(words, more, size, n - 1);
      assert words[(n - 1) * w..n * w] == more[(n - 1) * w..n * w];
    }
  }

  lemma UnpackAppended(front: seq<u32>, last: seq<u8>, size: nat, n: nat)
    requires |front| == n * WordsPer(size) && |last| == size
    ensures |front + Pack(last)| == (n + 1) * WordsPer(size)
    ensures UnpackBlocks(front + Pack(last), size, n + 1) == UnpackBlocks(front, size, n) + last
  {
    var all, w := front + Pack(last), WordsPer(size);
    Earlier(n + 1, w);
    UnpackBlocksPrefix(front, all, size, n);
    assert all[n * w..(n + 1) * w] == Pack(last);
    UnpackPack(last);
  }

  lemma PackMore(buf: seq<u8>, size: nat, n: nat, at: nat)
    requires at == n * size && (n + 1) * size == at + size <= |buf|
    ensures PackBlocks(buf, size, n + 1) == PackBlocks(buf, size, n) + Pack(buf[at..at + size])
  {
  }

  lemma PortStep(buf: seq<u8>, size: nat, n: nat, at: nat, front: seq<u32>, all: seq<u32>, last: seq<u8>)
    requires at + size <= |buf| && last == buf[at..at + size]
    requires |front| == n * WordsPer(size) && all == front + Pack(last)
    requires UnpackBlocks(front, size, n) == buf[..at]
    ensures |all| == (n + 1) * WordsPer(size) && UnpackBlocks(all, size, n + 1) == buf[..at + size]
  {
    UnpackAppended(front, last, size, n);
    assert buf[..at] + last == buf[..at + size];
  }

  /** Written through the port and read back, a buffer is unchanged for every block size. */
  lemma {:induction false} PortRoundTrip(buf: seq<u8>, size: nat, n: nat)
    requires n * size <= |buf|
    ensures UnpackBlocks(PackBlocks(buf, size, n), size, n) == buf[..n * size]
  {
    if n > 0 {
      Earlier(n, size);
      PortRoundTrip(buf, size, n - 1);
      var at := (n - 1) * size;
      PackMore(buf, size, n - 1, at);
      PortStep(buf, size, n - 1, at, PackBlocks(buf, size, n - 1), PackBlocks(buf, size, n), buf[at..at + size]);
    }
  }

  /** The first n bytes from a place on are those of the words. */
  ghost predicate Placed(buf: seq<u8>, at: nat, n: nat, words: seq<u32>) {
    at + n <= |buf| && n <= 4 * |words| && buf[at..at + n] == Bytes(words)[..n]
  }

  lemma PlaceWord(was: seq<u8>, buf: seq<u8>, at: nat, size: nat, supply: seq<u32>, i: nat)
    requires at + size <= |was| == |buf| && 4 * i < size && i < |supply|
    requires Placed(was, at, 4 * i, supply[..i])
    requires forall j | 0 <= j < |buf| ::
               buf[j] == if at + 4 * i <= j < at + Min(4 * i + 4, size) then ToLe(supply[i], 4)[j - at - 4 * i] else was[j]
    ensures Placed(buf, at, Min(4 * i + 4, size), supply[..i + 1])
  {
    var n := Min(4 * i + 4, size);
    BytesPush(supply[..i], supply[i]);
    assert supply[..i + 1] == supply[..i] + [supply[i]];
    var here := buf[at..at + n];
    forall j | 0 <= j < n
      ensures here[j] == Bytes(supply[..i + 1])[j]
    {
      if j < 4 * i {
        assert here[j] == was[at + j] == was[at..at + 4 * i][j];
      }
    }
  }

  /** The data port with the words the card supplies, and those written to it. */
  class Sdhci {
    var incoming: seq<u32>
    ghost var outgoing: seq<u32>
    /** What the waits complained about. */
    ghost var faults: seq<Error>

    /** wait_buffer_ready and wait_data_complete. */
    method Wait() returns (r: Result<()>)
      modifies this`faults
      ensures faults == if r.Ok? then old(faults) else old(faults) + [r.error]
    {
      var ok: bool := *;
      var e: Error := *;
      r := if ok then Ok(()) else Err(e);
      if !ok {
        faults := faults + [e];
      }
    }

    /** What an empty buffer reads as is up to the controller. */
    method ReadPort() returns (w: u32)
      modifies this`incoming
      ensures old(incoming) != [] ==> w == old(incoming)[0] && incoming == old(incoming)[1..]
      ensures old(incoming) == [] ==> incoming == []
    {
      if incoming != [] {
        w := incoming[0];
        incoming := incoming[1..];
      } else {
        w := 0;
      }
    }

    method WritePort(w: u32)
      modifies this`outgoing
      ensures outgoing == old(outgoing) + [w]
    {
      outgoing := outgoing + [w];
    }

    /** The words of one block. */
    method WriteBlockWords(block: seq<u8>)
      modifies this`outgoing
      ensures outgoing == old(outgoing) + Pack(block)
    {
      var i := 0;
      assert outgoing == outgoing + Pack(block)[..0];
      while 4 * i < |block|
        invariant 4 * i < |block| + 4
        invariant outgoing == old(outgoing) + Pack(block)[..i]
      {
        var chunk := block[4 * i..Min(4 * i + 4, |block|)];
        var bytes := new u8[4](_ => 0);
        forall k | 0 <= k < |chunk| {
          bytes[k] := chunk[k];
        }
        assert bytes[..] == chunk + Padding(4 - |chunk|);
        FromLeBound(bytes[..]);
        Pow256Values();
        WritePort(FromLe(bytes[..]));
        assert Pack(block)[..i + 1] == Pack(block)[..i] + [WordOf(block, i)];
        i := i + 1;
      }
      assert Pack(block)[..i] == Pack(block);
    }

    /** One block into its place in the buffer; bytes past the block's end are dropped. */
    method ReadBlockWords(buf: array<u8>, at: nat, size: nat)
      requires at + size <= buf.Length
      modifies buf, this`incoming
      ensures WordsPer(size) <= |old(incoming)| ==>
                && buf[at..at + size] == Unpack(old(incoming)[..WordsPer(size)], size)
                && incoming == old(incoming)[WordsPer(size)..]
      ensures forall j | 0 <= j < buf.Length && !(at <= j < at + size) :: buf[j] == old(buf[j])
    {
      ghost var supply, w := incoming, WordsPer(size);
      var i := 0;
      while 4 * i < size
        invariant 0 <= i && 4 * i < size + 4
        invariant w <= |supply| ==> incoming == supply[i..]
        invariant w <= |supply| ==> Placed(buf[..], at, Min(4 * i, size), supply[..Min(i, |supply|)])
        invariant forall j | 0 <= j < buf.Length && !(at <= j < at + size) :: buf[j] == old(buf[j])
      {
        var word := ReadPort();
        ghost var was := buf[..];
        forall k | 0 <= k < Min(4, size - 4 * i) {
          buf[at + 4 * i + k] := ToLe(word, 4)[k];
        }
        if w <= |supply| {
          PlaceWord(was, buf[..], at, size, supply, i);
        }
        i := i + 1;
      }
    }

    /** The card's words, unpacked block by block, as long as it supplies them. */
    method PioRead(buf: array<u8>, size: u32) returns (r: Result<()>)
      requires size > 0
      modifies buf, this`incoming, this`faults
      ensures buf.Length % size == 0 ==> faults == if r.Ok? then old(faults) else old(faults) + [r.error]
      ensures buf.Length % size != 0 ==> r == Err(Misaligned) && buf[..] == old(buf[..]) && incoming == old(incoming)
      ensures var n := buf.Length / size;
              r.Ok? && n * WordsPer(size) <= |old(incoming)| ==>
                && buf[..] == UnpackBlocks(old(incoming), size, n)
                && incoming == old(incoming)[n * WordsPer(size)..]
    {
      if buf.Length % size != 0 {
        return Err(Misaligned);
      }
      var count := buf.Length / size;
      ghost var supply := incoming;
      ghost var supplied := count * WordsPer(size) <= |supply|;
      var n, at := 0, 0;
      while n < count
        invariant 0 <= n <= count && at == n * size <= buf.Length && faults == old(faults)
        invariant supplied ==> ReadSoFar(buf[..], incoming, supply, size, n)
      {
        r := Wait();
        if r.Err? {
          return;
        }
        Whole(buf.Length, size, n);
        Earlier(n + 1, size);
        ghost var was, rest := buf[..], incoming;
        if supplied {
          StillSupplied(supply, rest, size, n, count);
        }
        ReadBlockWords(buf, at, size);
        if supplied {
          ReadStep(was, buf[..], rest, incoming, supply, size, n, at);
        }
        n, at := n + 1, at + size;
      }
      assert buf[..count * size] == buf[..];
      r := Wait();
    }

    method PioWrite(buf: seq<u8>, size: u32) returns (r: Result<()>)
      requires size > 0
      modifies this`outgoing, this`faults
      ensures |buf| % size == 0 ==> faults == if r.Ok? then old(faults) else old(faults) + [r.error]
      ensures |buf| % size != 0 ==> r == Err(Misaligned) && outgoing == old(outgoing)
      ensures r.Ok? ==> |buf| / size * size <= |buf| && outgoing == old(outgoing) + PackBlocks(buf, size, |buf| / size)
      ensures r.Err? && |buf| % size == 0 ==>
                exists n: nat :: n * size <= |buf| && outgoing == old(outgoing) + PackBlocks(buf, size, n)
    {
      if |buf| % size != 0 {
        return Err(Misaligned);
      }
      var n := 0;
      assert outgoing == outgoing + PackBlocks(buf, size, 0);
      while n < |buf| / size
        invariant 0 <= n <= |buf| / size && n * size <= |buf| && faults == old(faults)
        invariant outgoing == old(outgoing) + PackBlocks(buf, size, n)
      {
        r := Wait();
        if r.Err? {
          return;
        }
        Whole(|buf|, size, n);
        Earlier(n + 1, size);
        WriteBlockWords(buf[n * size..(n + 1) * size]);
        AppendBlocks(old(outgoing), buf, size, n);
        n := n + 1;
      }
      r := Wait();
    }
  }

  /** n blocks have been read out of the supply. */
  ghost predicate ReadSoFar(buf: seq<u8>, rest: seq<u32>, supply: seq<u32>, size: nat, n: nat) {
    && 0 <= n * WordsPer(size) <= |supply| && rest == supply[n * WordsPer(size)..]
    && 0 <= n * size <= |buf| && buf[..n * size] == UnpackBlocks(supply, size, n)
  }

  lemma Scale(a: nat, b: nat, k: nat)
    requires a <= b
    ensures a * k <= b * k
  {
  }

  lemma StillSupplied(supply: seq<u32>, rest: seq<u32>, size: nat, n: nat, count: nat)
    requires n < count && count * WordsPer(size) <= |supply|
    requires 0 <= n * WordsPer(size) <= |supply| && rest == supply[n * WordsPer(size)..]
    ensures WordsPer(size) <= |rest| && (n + 1) * WordsPer(size) <= |supply|
  {
    Scale(n + 1, count, WordsPer(size));
    Earlier(n + 1, WordsPer(size));
  }

  lemma ReadStep(was: seq<u8>, buf: seq<u8>, rest: seq<u32>, rest': seq<u32>, supply: seq<u32>, size: nat, n: nat, at: nat)
    requires ReadSoFar(was, rest, supply, size, n) && (n + 1) * WordsPer(size) <= |supply| && WordsPer(size) <= |rest|
    requires at == n * size && at + size <= |buf| == |was| && (forall j | 0 <= j < at :: buf[j] == was[j])
    requires buf[at..at + size] == Unpack(rest[..WordsPer(size)], size) && rest' == rest[WordsPer(size)..]
    ensures ReadSoFar(buf, rest', supply, size, n + 1)
  {
    var w := WordsPer(size);
    Earlier(n + 1, w);
    Earlier(n + 1, size);
    assert supply[n * w..][..w] == supply[n * w..(n + 1) * w];
    assert buf[..at] == was[..at];
    assert buf[..at + size] == buf[..at] + buf[at..at + size];
  }

  lemma Whole(len: nat, size: nat, n: nat)
    requires size > 0 && n < len / size
    ensures (n + 1) * size <= len
  {
    assert (len / size) * size <= len;
    assert (n + 1) * size <= (len / size) * size;
  }

  lemma AppendBlocks(before: seq<u32>, buf: seq<u8>, size: nat, n: nat)
    requires 0 <= n * size <= (n + 1) * size <= |buf| && (n + 1) * size == n * size + size
    ensures before + PackBlocks(buf, size, n) + Pack(buf[n * size..(n + 1) * size]) == before + PackBlocks(buf, size, n + 1)
  {
    assert PackBlocks(buf, size, n + 1) == PackBlocks(buf, size, n) + Pack(buf[n * size..(n + 1) * size]);
  }
}
