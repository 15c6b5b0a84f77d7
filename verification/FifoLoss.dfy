/** When 64-bit stores into a FIFO of 32-bit words lose a word: the writer looks, and stores
    two words if the FIFO is not full; between looks the bus drains as it pleases. */
module FifoLoss {

  /** Words in the FIFO, stores still to be made, words lost. */
  datatype Load = Load(level: nat, stores: nat, lost: nat)

  /** A store into a FIFO with room; into a single free word only the low half fits. */
  function Store(s: Load, depth: nat): Load
    requires s.level < depth && s.stores > 0
  {
    if s.level + 2 <= depth then Load(s.level + 2, s.stores - 1, s.lost)
    else Load(s.level + 1, s.stores - 1, s.lost + 1)
  }

  /** The bus has drained k words; the writer looks, and stores unless full or done. */
  function Look(s: Load, depth: nat, k: nat): Load {
    var t := s.(level := if k <= s.level then s.level - k else 0);
    if t.level >= depth || t.stores == 0 then t else Store(t, depth)
  }

  /** What a schedule of drains leads to, one look after each. */
  function Run(s: Load, depth: nat, drains: seq<nat>): Load {
    if drains == [] then s else Look(Run(s, depth, drains[..|drains| - 1]), depth, drains[|drains| - 1])
  }

  /** The bus drains only what is there, and, if it takes pairs, only pairs. */
  predicate Feasible(s: Load, depth: nat, paired: bool, drains: seq<nat>) {
    drains == [] ||
    (var front, k := drains[..|drains| - 1], drains[|drains| - 1];
     && Feasible(s, depth, paired, front)
     && k <= Run(s, depth, front).level && (paired ==> k % 2 == 0))
  }

  lemma RunMore(s: Load, depth: nat, paired: bool, drains: seq<nat>, k: nat)
    ensures Run(s, depth, drains + [k]) == Look(Run(s, depth, drains), depth, k)
    ensures Feasible(s, depth, paired, drains + [k]) <==>
              Feasible(s, depth, paired, drains) && k <= Run(s, depth, drains).level && (paired ==> k % 2 == 0)
  {
    assert (drains + [k])[..|drains|] == drains;
  }

  /** What the caller can check: everything fits into the room there is, or the bus takes pairs
      and the room is even. */
  predicate Roomy(depth: nat, paired: bool, level: nat, stores: nat)
    requires level <= depth
  {
    2 * stores <= depth - level || (paired && (depth - level) % 2 == 0)
  }

  lemma {:induction false} RoomyStays(s: Load, depth: nat, paired: bool, drains: seq<nat>)
    requires s.level <= depth && Roomy(depth, paired, s.level, s.stores) && Feasible(s, depth, paired, drains)
    ensures var t := Run(s, depth, drains);
            t.lost == s.lost && t.level <= depth && Roomy(depth, paired, t.level, t.stores)
    decreases |drains|
  {
    if drains != [] {
      RoomyStays(s, depth, paired, drains[..|drains| - 1]);
    }
  }

  function NoDrains(n: nat): (d: seq<nat>)
    ensures |d| == n
  {
    seq(n, _ => 0)
  }

  /** A bus that stands still while there is room for n more stores. */
  lemma {:induction false} Filled(s: Load, depth: nat, paired: bool, n: nat)
    requires n <= s.stores && s.level + 2 * n <= depth
    ensures Feasible(s, depth, paired, NoDrains(n))
    ensures Run(s, depth, NoDrains(n)) == Load(s.level + 2 * n, s.stores - n, s.lost)
  {
    if n > 0 {
      Filled(s, depth, paired, n - 1);
      assert NoDrains(n) == NoDrains(n - 1) + [0];
      RunMore(s, depth, paired, NoDrains(n - 1), 0);
    }
  }

  /** A schedule that loses a word: the bus stands still until one word or none is free, and
      in the latter case then drains one. */
  lemma LosingSchedule(s: Load, depth: nat, paired: bool) returns (drains: seq<nat>)
    requires 0 < depth && s.level <= depth && !Roomy(depth, paired, s.level, s.stores)
    ensures Feasible(s, depth, paired, drains) && Run(s, depth, drains).lost == s.lost + 1
  {
    var room := depth - s.level;
    var n, k := room / 2, if room % 2 == 1 then 0 else 1;
    Filled(s, depth, paired, n);
    RunMore(s, depth, paired, NoDrains(n), k);
    drains := NoDrains(n) + [k];
  }

  /** No schedule loses a word exactly if the FIFO is roomy. */
  lemma NeverLosesIff(depth: nat, paired: bool, level: nat, stores: nat)
    requires 0 < depth && level <= depth
    ensures (forall drains | Feasible(Load(level, stores, 0), depth, paired, drains) ::
               Run(Load(level, stores, 0), depth, drains).lost == 0)
            <==> Roomy(depth, paired, level, stores)
  {
    var s := Load(level, stores, 0);
    if Roomy(depth, paired, level, stores) {
      forall drains | Feasible(s, depth, paired, drains)
        ensures Run(s, depth, drains).lost == 0
      {
        RoomyStays(s, depth, paired, drains);
      }
    } else {
      var drains := LosingSchedule(s, depth, paired);
    }
  }

  /** A FIFO of four words, a buffer of 24 bytes, a bus that takes one word before the third
      look: the upper word of the third store is lost. */
  lemma OneWordLost()
    ensures var s, drains := Load(0, 3, 0), [0, 0, 1];
            Feasible(s, 4, false, drains) && Run(s, 4, drains) == Load(4, 0, 1)
  {
    var s := Load(0, 3, 0);
    Filled(s, 4, false, 2);
    RunMore(s, 4, false, NoDrains(2), 1);
    assert NoDrains(2) + [1] == [0, 0, 1];
  }
}
