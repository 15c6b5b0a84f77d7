/** 32-bit ADMA2 descriptor tables (section 1.13 of the SD Host Controller specification)
    and an engine that walks them. */
module Adma2 {
  import opened Errors
  import opened MachineInts
  import opened Arithmetic

  datatype Desc = Desc(attr: bv16, length: u16, address: u32)

  const ATTR_VALID: bv16 := 0x01
  const ATTR_END: bv16 := 0x02
  const ATTR_ACT_TRAN: bv16 := 0x20

  /** 64 KiB minus 8 bytes. */
  const MAX_PER_DESC: nat := 65_528
  const DESC_COUNT: nat := 16
  const DESC_SIZE: nat := 8

  const EMPTY: Desc := Desc(0, 0, 0)

  // ----- The engine -----

  /** The engine either stops at an End descriptor, having touched some bus addresses in
      order, or faults: invalid entry, other action, or running off the table. */
  datatype Outcome = Stopped(touched: seq<int>) | Fault

  /** n consecutive bus addresses from a, in the engine's 32-bit arithmetic. */
  function Wrapped(a: nat, n: nat): (r: seq<int>)
    ensures |r| == n
    ensures forall k | 0 <= k < n :: r[k] == TruncU32(a + k)
  {
    seq(n, k requires 0 <= k < n => TruncU32(a + k))
  }

  /** A zero length field means 64 KiB. */
  function Length(d: Desc): nat {
    if d.length == 0 then 0x1_0000 else d.length
  }

  function Walk(table: seq<Desc>, i: nat): Outcome
    decreases |table| - i
  {
    if i >= |table| || table[i].attr & 0x01 == 0 || table[i].attr & 0x30 != 0x20 then Fault
    else
      var here := Wrapped(table[i].address, Length(table[i]));
      if table[i].attr & 0x02 != 0 then Stopped(here)
      else match Walk(table, i + 1)
        case Fault => Fault
        case Stopped(rest) => Stopped(here + rest)
  }

  // ----- The builder -----

  /** Entries needed for len bytes. */
  function Count(len: nat): (n: nat)
    ensures len > 0 ==> n > 0 && (n - 1) * MAX_PER_DESC < len
    ensures len <= n * MAX_PER_DESC
  {
    CeilDiv(len, MAX_PER_DESC)
  }

  /** The entry for chunk i. */
  function Entry(base: nat, len: nat, i: nat): Desc
    requires i * MAX_PER_DESC < len
  {
    var left := len - i * MAX_PER_DESC;
    Desc(if left <= MAX_PER_DESC then 0x23 else 0x21, Min(left, MAX_PER_DESC), TruncU32(base + i * MAX_PER_DESC))
  }

  /** The first n entries are the chunks of [base, base + len). */
  ghost predicate Chunked(table: seq<Desc>, base: nat, len: nat, n: nat) {
    && n <= |table|
    && forall i | 0 <= i < n :: i * MAX_PER_DESC < len && table[i] == Entry(base, len, i)
  }

  method BuildDescriptors(table: array<Desc>, base: u64, totalLen: nat, phase: Phase) returns (r: Result<nat>)
    requires table.Length == DESC_COUNT
    modifies table
    ensures totalLen == 0 ==> r == Err(Misaligned)
    ensures totalLen > 0 && base >= U32_LIMIT ==> r == Err(BadResponse(At(phase)))
    ensures totalLen > DESC_COUNT * MAX_PER_DESC && base < U32_LIMIT ==> r == Err(Misaligned)
    ensures r.Ok? <==> 0 < totalLen <= DESC_COUNT * MAX_PER_DESC && base < U32_LIMIT
    ensures r.Ok? ==> r.value == Count(totalLen) && Chunked(table[..], base, totalLen, r.value)
    ensures r.Ok? ==> table[r.value..] == old(table[..])[r.value..]
  {
    if totalLen == 0 {
      return Err(Misaligned);
    }
    if base / U32_LIMIT != 0 {
      return Err(BadResponse(At(phase)));
    }
    var remaining, offset, written := totalLen, 0, 0;
    while remaining > 0
      invariant written <= DESC_COUNT
      invariant remaining + offset == totalLen
      invariant remaining > 0 ==> offset == written * MAX_PER_DESC
      invariant remaining == 0 ==> written == Count(totalLen)
      invariant 0 <= remaining
      invariant Chunked(table[..], base, totalLen, written)
      invariant table[written..] == old(table[..])[written..]
      decreases remaining
    {
      if written >= DESC_COUNT {
        return Err(Misaligned);
      }
      var chunk := Min(remaining, MAX_PER_DESC);
      var isLast := chunk == remaining;
      var attr := ATTR_VALID | ATTR_ACT_TRAN;
      if isLast {
        attr := attr | ATTR_END;
      }
      CountAt(totalLen, written);
      var d := Desc(attr, TruncU16(chunk), TruncU32(base + offset));
      assert d == Entry(base, totalLen, written);
      ChunkedMore(table[..], base, totalLen, written);
      table[written] := d;
      written := written + 1;
      offset := offset + chunk;
      remaining := remaining - chunk;
    }
    Scaled(Count(totalLen), DESC_COUNT);
    return Ok(written);
  }

  lemma CountAt(len: nat, i: nat)
    requires i * MAX_PER_DESC < len
    ensures i < Count(len)
    ensures len - i * MAX_PER_DESC <= MAX_PER_DESC <==> Count(len) == i + 1
  {
    var n := Count(len);
    Scaled(n, i);
    Scaled(i + 1, n - 1);
  }

  lemma Scaled(a: int, b: int)
    ensures a <= b ==> a * MAX_PER_DESC <= b * MAX_PER_DESC
  {
  }

  lemma ChunkedMore(table: seq<Desc>, base: nat, len: nat, n: nat)
    requires Chunked(table, base, len, n) && n < |table| && n * MAX_PER_DESC < len
    ensures Chunked(table[n := Entry(base, len, n)], base, len, n + 1)
  {
  }

  // ----- What the engine does with a built table -----

  lemma {:induction false} WrappedConcat(a: nat, m: nat, n: nat)
    ensures Wrapped(a, m) + Wrapped(a + m, n) == Wrapped(a, m + n)
  {
  }

  lemma WrappedTruncated(a: nat, n: nat)
    ensures Wrapped(TruncU32(a), n) == Wrapped(a, n)
  {
    forall k | 0 <= k < n
      ensures Wrapped(TruncU32(a), n)[k] == Wrapped(a, n)[k]
    {
      TruncAdd(a, k);
    }
  }

  lemma TruncAdd(a: nat, k: nat)
    ensures TruncU32(TruncU32(a) + k) == TruncU32(a + k)
  {
    var q := a / U32_LIMIT;
    assert a == q * U32_LIMIT + TruncU32(a);
    assert (TruncU32(a) + k + q * U32_LIMIT) % U32_LIMIT == (TruncU32(a) + k) % U32_LIMIT;
  }

  lemma {:induction false} WalkChunks(table: seq<Desc>, base: nat, len: nat, i: nat)
    requires len > 0 && i < Count(len)
    requires Chunked(table, base, len, Count(len))
    ensures Walk(table, i) == Stopped(Wrapped(base + i * MAX_PER_DESC, len - i * MAX_PER_DESC))
    decreases Count(len) - i
  {
    var a, left := base + i * MAX_PER_DESC, len - i * MAX_PER_DESC;
    CountAt(len, i);
    var d := table[i];
    assert d == Entry(base, len, i);
    WrappedTruncated(a, d.length);
    if left > MAX_PER_DESC {
      WalkChunks(table, base, len, i + 1);
      WrappedConcat(a, MAX_PER_DESC, left - MAX_PER_DESC);
    }
  }

  lemma WrappedIsPlain(base: u32, len: nat)
    requires len > 0
    ensures Wrapped(base, len) == Addresses(base, len) <==> base + len <= U32_LIMIT
  {
    var r, w := Wrapped(base, len), Addresses(base, len);
    if base + len <= U32_LIMIT {
      forall k | 0 <= k < len
        ensures r[k] == w[k]
      {
      }
    } else {
      assert r[len - 1] < U32_LIMIT <= w[len - 1];
    }
  }

  lemma {:induction false} WalkTable(table: seq<Desc>, base: nat, len: nat)
    requires len > 0 && Chunked(table, base, len, Count(len))
    ensures Walk(table, 0) == Stopped(Wrapped(base, len))
  {
    WalkChunks(table, base, len, 0);
    assert base + 0 * MAX_PER_DESC == base && len - 0 * MAX_PER_DESC == len;
  }

  /** A built table makes the engine touch [base, base + len), every byte once and in order,
      and stop there, exactly when the buffer ends below 4 GiB. */
  lemma {:induction false} EngineCoversBuffer(table: seq<Desc>, base: u32, len: nat)
    requires len > 0 && Chunked(table, base, len, Count(len))
    ensures Walk(table, 0) == Stopped(Addresses(base, len)) <==> base + len <= U32_LIMIT
  {
    WalkTable(table, base, len);
    WrappedIsPlain(base, len);
  }

  /** A kilobyte that begins half a kilobyte below 4 GiB: the builder accepts it, and the engine
      touches its second half at address 0. */
  lemma BufferAcross4GiB()
    ensures var base: u32, t := 0xFFFF_FE00, [Desc(0x23, 1024, 0xFFFF_FE00)];
            && Chunked(t, base, 1024, Count(1024)) && Count(1024) == 1
            && Walk(t, 0) == Stopped(Wrapped(base, 1024)) && Wrapped(base, 1024)[512] == 0
            && Walk(t, 0) != Stopped(Addresses(base, 1024))
  {
    var base: u32, t := 0xFFFF_FE00, [Desc(0x23, 1024, 0xFFFF_FE00)];
    assert t[0] == Entry(base, 1024, 0);
    WalkTable(t, base, 1024);
    EngineCoversBuffer(t, base, 1024);
  }

  /** End only on the last entry, no length field 0, all entries valid transfers. */
  lemma {:induction false} TableShape(table: seq<Desc>, base: nat, len: nat, i: nat)
    requires len > 0 && Chunked(table, base, len, Count(len)) && i < Count(len)
    ensures table[i].attr == if i == Count(len) - 1 then 0x23 else 0x21
    ensures 0 < table[i].length <= 65_528
  {
    CountAt(len, i);
    assert table[i] == Entry(base, len, i);
  }

  /** For a buffer on an 8-byte boundary every entry is on one, and every entry but the last is
      as long as a 16-bit length can be on that condition. */
  lemma EntriesAligned(table: seq<Desc>, base: nat, len: nat, i: nat)
    requires len > 0 && Chunked(table, base, len, Count(len)) && i < Count(len) && base % 8 == 0
    ensures table[i].address % 8 == 0
    ensures i < Count(len) - 1 ==> table[i].length % 8 == 0 && table[i].length + 8 > 0xFFFF
  {
    CountAt(len, i);
    assert table[i] == Entry(base, len, i);
    AlignedCast(base + i * MAX_PER_DESC, base / 8 + i * 8191);
  }

  lemma AlignedCast(x: nat, y: nat)
    requires x == 8 * y
    ensures TruncU32(x) % 8 == 0
  {
    DivMod(x, U32_LIMIT);
    var q := x / U32_LIMIT;
    assert TruncU32(x) == 8 * (y - q * 0x2000_0000);
  }

  /** An unused entry stops the engine with a fault. */
  lemma UnusedFaults(table: seq<Desc>, i: nat)
    requires i < |table| && table[i] == EMPTY
    ensures Walk(table, i) == Fault && EMPTY == Desc(0, 0, 0)
  {
  }

  /** The sum of the length fields. */
  function TotalLength(table: seq<Desc>): nat {
    if table == [] then 0 else TotalLength(table[..|table| - 1]) + table[|table| - 1].length
  }

  lemma {:induction false} LengthsAddUp(table: seq<Desc>, base: nat, len: nat, n: nat)
    requires len > 0 && n <= Count(len) && Chunked(table, base, len, Count(len))
    ensures TotalLength(table[..n]) == if n == Count(len) then len else n * MAX_PER_DESC
    decreases n
  {
    if n > 0 {
      LengthsAddUp(table, base, len, n - 1);
      CountAt(len, n - 1);
      assert table[..n][..n - 1] == table[..n - 1];
      assert table[n - 1] == Entry(base, len, n - 1);
    }
  }
}
