/** Little-endian words. */
module LittleEndian {
  import opened MachineInts
  import opened Arithmetic

  lemma Pow256Values()
    ensures Pow256(4) == U32_LIMIT && Pow256(8) == U64_LIMIT
  {
    assert Pow256(4) == 256 * Pow256(3) == 256 * (256 * Pow256(2));
    assert Pow256(2) == 256 * Pow256(1) == 65536;
    assert Pow256(8) == 256 * Pow256(7) == 256 * (256 * Pow256(6));
    assert Pow256(6) == 256 * Pow256(5) == 256 * (256 * Pow256(4));
  }

  /** from_le_bytes. */
  function FromLe(s: seq<u8>): nat {
    if s == [] then 0 else s[0] + 256 * FromLe(s[1..])
  }

  /** to_le_bytes, n bytes wide. */
  function ToLe(v: nat, n: nat): (s: seq<u8>)
    ensures |s| == n
  {
    if n == 0 then [] else [v % 256] + ToLe(v / 256, n - 1)
  }

  lemma {:induction false} FromLeBound(s: seq<u8>)
    ensures FromLe(s) < Pow256(|s|)
  {
    if s != [] {
      FromLeBound(s[1..]);
    }
  }

  lemma {:induction false} BytesBack(s: seq<u8>)
    ensures ToLe(FromLe(s), |s|) == s
  {
    if s != [] {
      BytesBack(s[1..]);
      RemainderIs(FromLe(s), 256, FromLe(s[1..]), s[0]);
      QuotientIs(FromLe(s), 256, FromLe(s[1..]), s[0]);
      assert s == [s[0]] + s[1..];
    }
  }

  /** Byte k of a word is its bits from 8k on. */
  lemma {:induction false} ByteAt(v: nat, n: nat, k: nat)
    requires k < n
    ensures ToLe(v, n)[k] == v / Pow256(k) % 256
  {
    if k > 0 {
      ByteAt(v / 256, n - 1, k - 1);
      DivDiv(v, Pow256(k - 1));
    }
  }

  lemma {:induction false} WordBack(v: nat, n: nat)
    requires v < Pow256(n)
    ensures FromLe(ToLe(v, n)) == v
  {
    if n > 0 {
      WordBack(v / 256, n - 1);
      assert ToLe(v, n)[1..] == ToLe(v / 256, n - 1);
    }
  }

  /** A wide word is its low half, then its high half. */
  lemma {:induction false} Halves(lo: nat, hi: nat, a: nat, b: nat)
    requires lo < Pow256(a)
    ensures ToLe(lo + Pow256(a) * hi, a + b) == ToLe(lo, a) + ToLe(hi, b)
  {
    if a == 0 {
      assert ToLe(lo, 0) + ToLe(hi, b) == ToLe(hi, b);
    } else {
      var v := lo + Pow256(a) * hi;
      assert Pow256(a) * hi == 256 * (Pow256(a - 1) * hi);
      assert v % 256 == lo % 256 && v / 256 == lo / 256 + Pow256(a - 1) * hi;
      Halves(lo / 256, hi, a - 1, b);
    }
  }

  /** The same, read back. */
  lemma {:induction false} FromHalves(s: seq<u8>, t: seq<u8>)
    ensures FromLe(s + t) == FromLe(s) + Pow256(|s|) * FromLe(t)
  {
    if s == [] {
      assert s + t == t;
    } else {
      assert (s + t)[1..] == s[1..] + t;
      FromHalves(s[1..], t);
      assert Pow256(|s|) * FromLe(t) == 256 * (Pow256(|s| - 1) * FromLe(t));
    }
  }

  /** The bytes of 32-bit words, in order. */
  function Bytes(words: seq<u32>): (s: seq<u8>)
    ensures |s| == 4 * |words|
  {
    if words == [] then [] else Bytes(words[..|words| - 1]) + ToLe(words[|words| - 1], 4)
  }

  lemma BytesPush(words: seq<u32>, w: u32)
    ensures Bytes(words + [w]) == Bytes(words) + ToLe(w, 4)
  {
    assert (words + [w])[..|words|] == words;
  }

  lemma {:induction false} BytesConcat(v: seq<u32>, w: seq<u32>)
    ensures Bytes(v + w) == Bytes(v) + Bytes(w)
    decreases |w|
  {
    if w == [] {
      assert v + w == v;
      assert Bytes(v) + Bytes([]) == Bytes(v);
    } else {
      var n := |w| - 1;
      BytesConcat(v, w[..n]);
      assert v + w == (v + w[..n]) + [w[n]];
      BytesPush(v + w[..n], w[n]);
      assert Bytes(v) + (Bytes(w[..n]) + ToLe(w[n], 4)) == (Bytes(v) + Bytes(w[..n])) + ToLe(w[n], 4);
    }
  }

  /** Two words read or written as one 64-bit access, low word first. */
  function Pair(lo: u32, hi: u32): u64 { lo + U32_LIMIT * hi }

  lemma BytesPair(words: seq<u32>, lo: u32, hi: u32)
    ensures Bytes(words + [lo, hi]) == Bytes(words) + ToLe(Pair(lo, hi), 8)
  {
    Pow256Values();
    Halves(lo, hi, 4, 4);
    BytesTwo(words, lo, hi);
  }

  lemma BytesTwo(words: seq<u32>, lo: u32, hi: u32)
    ensures Bytes(words + [lo, hi]) == Bytes(words) + (ToLe(lo, 4) + ToLe(hi, 4))
  {
    BytesPush(words, lo);
    BytesPush(words + [lo], hi);
    assert words + [lo] + [hi] == words + [lo, hi];
    assert Bytes(words) + ToLe(lo, 4) + ToLe(hi, 4) == Bytes(words) + (ToLe(lo, 4) + ToLe(hi, 4));
  }
}
