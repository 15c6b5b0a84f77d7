/** Memory as a DMA engine changes it. */
module DmaMemory {
  import opened Errors
  import opened MachineInts
  import opened Arithmetic

  type Memory = int -> u8

  /** Memory after bytes have been stored at addresses, in order. */
  function Loaded(memory: Memory, at: seq<int>, data: seq<u8>): Memory
    requires |at| == |data|
  {
    if at == [] then memory
    else
      var n := |at| - 1;
      var before := Loaded(memory, at[..n], data[..n]);
      a => if a == at[n] then data[n] else before(a)
  }

  lemma {:induction false} LoadedRun(memory: Memory, base: nat, n: nat, data: seq<u8>, a: int)
    requires |data| == n
    ensures Loaded(memory, Addresses(base, n), data)(a) == if base <= a < base + n then data[a - base] else memory(a)
    decreases n
  {
    if n > 0 {
      assert Addresses(base, n)[..n - 1] == Addresses(base, n - 1);
      LoadedRun(memory, base, n - 1, data[..n - 1], a);
    }
  }

  /** Memory after a transfer, and the bytes sent to the card. */
  datatype Transferred = Transferred(memory: Memory, sent: seq<u8>)

  /** An engine at work on addresses: it stores what the card delivers, if that is as many
      bytes, or sends what it finds. */
  function Moved(toCard: bool, at: seq<int>, memory: Memory, delivered: seq<u8>): Option<Transferred> {
    if toCard then Some(Transferred(memory, seq(|at|, k requires 0 <= k < |at| => memory(at[k]))))
    else if |delivered| == |at| then Some(Transferred(Loaded(memory, at, delivered), []))
    else None
  }

  /** The card's bytes are in the buffer, in order, and nothing else has changed. */
  ghost predicate Filled(t: Option<Transferred>, memory: Memory, base: nat, delivered: seq<u8>) {
    && t.Some? && t.value.sent == []
    && forall a :: t.value.memory(a) == if base <= a < base + |delivered| then delivered[a - base] else memory(a)
  }

  /** The card was sent the buffer, in order, and memory is as it was. */
  ghost predicate Emptied(t: Option<Transferred>, memory: Memory, base: nat, len: nat) {
    && t.Some? && t.value.memory == memory && |t.value.sent| == len
    && forall k | 0 <= k < len :: t.value.sent[k] == memory(base + k)
  }

  lemma MovedRun(memory: Memory, base: nat, n: nat, delivered: seq<u8>)
    ensures Emptied(Moved(true, Addresses(base, n), memory, delivered), memory, base, n)
    ensures |delivered| == n ==> Filled(Moved(false, Addresses(base, n), memory, delivered), memory, base, delivered)
  {
    if |delivered| == n {
      forall a
        ensures Loaded(memory, Addresses(base, n), delivered)(a)
             == if base <= a < base + n then delivered[a - base] else memory(a)
      {
        LoadedRun(memory, base, n, delivered, a);
      }
    }
  }
}
