/** DW_mshc internal DMA: chained descriptors, an engine that follows them, and the two
    builders of the driver. */
module Idmac {
  import opened Errors
  import opened MachineInts
  import opened Arithmetic

  datatype Desc = Desc(des0: bv32, des1: u32, des2: u32, des3: u32)

  const OWN: bv32 := 0x8000_0000
  const CH: bv32 := 0x10
  const FS: bv32 := 0x08
  const LD: bv32 := 0x04
  const DIC: bv32 := 0x02

  const DESC_SIZE: nat := 16
  const BLOCK_SIZE: nat := 512

  /** Unsigned 32-bit addition where the sum is known to fit. */
  function AddU32(a: u32, b: u32): (s: u32)
    requires a + b < U32_LIMIT
    ensures s == TruncU32(a + b)
  {
    a + b
  }

  function Chained(buffer: u32, len: u32, next: u32, first: bool, last: bool): Desc {
    Desc(OWN | CH | DIC | (if first then FS else 0) | (if last then LD else 0), len, buffer, next)
  }

  // ----- The engine -----

  /** The engine stops after a descriptor marked last, having fetched some descriptors and
      moved some bytes; it faults on a descriptor it does not own, that is not chained or
      that is not in the table; out of fuel it is still running. */
  datatype Outcome = Stopped(fetched: seq<int>, touched: seq<int>) | Fault | Running

  /** The descriptor at a bus address, for a table placed at base. */
  function Fetch(table: seq<Desc>, base: nat, addr: nat): Option<Desc> {
    if addr >= base && (addr - base) % 16 == 0 && (addr - base) / 16 < |table| then
      Some(table[(addr - base) / 16])
    else None
  }

  function Walk(table: seq<Desc>, base: nat, addr: nat, fuel: nat): Outcome
    decreases fuel
  {
    if fuel == 0 then Running
    else match Fetch(table, base, addr)
      case None => Fault
      case Some(d) =>
        if d.des0 & 0x8000_0000 == 0 || d.des0 & 0x10 == 0 then Fault
        else if d.des0 & 0x04 != 0 then Stopped([addr], Addresses(d.des2, d.des1))
        else match Walk(table, base, d.des3, fuel - 1)
          case Stopped(fetched, touched) => Stopped([addr] + fetched, Addresses(d.des2, d.des1) + touched)
          case other => other
  }

  // ----- The chain both builders write -----

  /** Transfer and table end at or below 4 GiB: the drivers' guard. */
  predicate Fits(buffer: nat, table: nat, n: nat) {
    buffer + n * BLOCK_SIZE <= U32_LIMIT && table + n * DESC_SIZE <= U32_LIMIT
  }

  lemma Below(buffer: nat, table: nat, n: nat, i: nat)
    requires Fits(buffer, table, n) && i < n
    ensures buffer + i * BLOCK_SIZE < U32_LIMIT && i * BLOCK_SIZE < U32_LIMIT
    ensures i + 1 < n ==> table + (i + 1) * DESC_SIZE < U32_LIMIT && (i + 1) * DESC_SIZE < U32_LIMIT
  {
  }

  /** Descriptor i of the chain for n blocks. */
  function Link(buffer: nat, table: nat, n: nat, i: nat): Desc
    requires Fits(buffer, table, n) && i < n
  {
    Below(buffer, table, n, i);
    Chained(buffer + i * BLOCK_SIZE, BLOCK_SIZE, if i + 1 == n then 0 else table + (i + 1) * DESC_SIZE, i == 0, i + 1 == n)
  }

  ghost predicate IsChain(t: seq<Desc>, buffer: nat, table: nat, n: nat)
    requires Fits(buffer, table, n)
  {
    n <= |t| && forall i | 0 <= i < n :: t[i] == Link(buffer, table, n, i)
  }

  lemma {:induction false} FetchLink(t: seq<Desc>, buffer: nat, table: nat, n: nat, i: nat)
    requires Fits(buffer, table, n) && IsChain(t, buffer, table, n) && i < n
    ensures Fetch(t, table, table + i * DESC_SIZE) == Some(Link(buffer, table, n, i))
  {
    assert (i * DESC_SIZE) / DESC_SIZE == i && (i * DESC_SIZE) % DESC_SIZE == 0;
  }

  /** FS marks the first descriptor only, LD the last only. */
  lemma LinkBits(buffer: nat, table: nat, n: nat, i: nat)
    requires Fits(buffer, table, n) && i < n
    ensures var d := Link(buffer, table, n, i).des0;
            && d & 0x8000_0000 != 0 && d & 0x10 != 0 && d & 0x02 != 0
            && (d & 0x08 != 0 <==> i == 0) && (d & 0x04 != 0 <==> i == n - 1)
            && d & 0x7FFF_FFE1 == 0
  {
  }

  /** Bus addresses of descriptors i, ..., n-1. */
  function Stations(table: nat, n: nat, i: nat): (s: seq<int>)
    requires i <= n
    ensures |s| == n - i
  {
    seq(n - i, k requires 0 <= k < n - i => table + (i + k) * 16)
  }

  lemma {:induction false} WalkChain(t: seq<Desc>, buffer: nat, table: nat, n: nat, i: nat, fuel: nat)
    requires Fits(buffer, table, n) && IsChain(t, buffer, table, n) && i < n
    requires fuel >= n - i
    ensures Walk(t, table, table + i * DESC_SIZE, fuel)
         == Stopped(Stations(table, n, i), Addresses(buffer + i * BLOCK_SIZE, (n - i) * BLOCK_SIZE))
    decreases n - i
  {
    FetchLink(t, buffer, table, n, i);
    LinkBits(buffer, table, n, i);
    if i + 1 == n {
      assert Stations(table, n, i) == [table + i * DESC_SIZE];
    } else {
      WalkChain(t, buffer, table, n, i + 1, fuel - 1);
      assert Stations(table, n, i) == [table + i * DESC_SIZE] + Stations(table, n, i + 1);
      RangeSplit(buffer, n, i);
    }
  }

  lemma {:induction false} RangeSplit(buffer: nat, n: nat, i: nat)
    requires i < n
    ensures Addresses(buffer + i * BLOCK_SIZE, BLOCK_SIZE) + Addresses(buffer + (i + 1) * BLOCK_SIZE, (n - i - 1) * BLOCK_SIZE)
         == Addresses(buffer + i * BLOCK_SIZE, (n - i) * BLOCK_SIZE)
  {
  }

  /** Following the chain from its first descriptor, the engine fetches each of the n
      descriptors once and in order, moves exactly [buffer, buffer + 512n), and stops. */
  lemma {:induction false} EngineFollowsChain(t: seq<Desc>, buffer: nat, table: nat, n: nat, fuel: nat)
    requires 0 < n <= fuel && Fits(buffer, table, n) && IsChain(t, buffer, table, n)
    ensures Walk(t, table, table, fuel) == Stopped(Stations(table, n, 0), Addresses(buffer, n * 512))
  {
    WalkChain(t, buffer, table, n, 0, fuel);
  }
}
