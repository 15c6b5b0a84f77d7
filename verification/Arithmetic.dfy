/** Powers, bit fields, runs of addresses, and integer division without its usual surprises. */
module Arithmetic {

  function Pow2(n: nat): (p: nat)
    ensures p > 0
  {
    if n == 0 then 1 else 2 * Pow2(n - 1)
  }

  function Pow256(n: nat): (p: nat)
    ensures p > 0
  {
    if n == 0 then 1 else 256 * Pow256(n - 1)
  }

  /** n consecutive addresses from a. */
  function Addresses(a: nat, n: nat): (r: seq<int>)
    ensures |r| == n
    ensures forall k | 0 <= k < n :: r[k] == a + k
  {
    seq(n, k requires 0 <= k < n => a + k)
  }

  lemma DivMod(x: nat, d: nat)
    requires d > 0
    ensures x == x / d * d + x % d && 0 <= x % d < d
  {
  }

  lemma QuotientIs(x: nat, d: nat, q: nat, r: nat)
    requires d > 0 && x == q * d + r && r < d
    ensures x / d == q
  {
    DivMod(x, d);
    var y := x / d;
    OneMore(q, d);
    OneMore(y, d);
    Cancel(y, q + 1, d);
    Cancel(q, y + 1, d);
  }

  lemma RemainderIs(x: nat, d: nat, q: nat, r: nat)
    requires d > 0 && x == q * d + r && r < d
    ensures x % d == r
  {
    QuotientIs(x, d, q, r);
    DivMod(x, d);
  }

  lemma OneMore(q: nat, d: nat)
    ensures (q + 1) * d == q * d + d
  {
  }

  lemma Cancel(a: nat, b: nat, d: nat)
    requires d > 0 && a * d < b * d
    ensures a < b
  {
  }

  lemma MultipleIs(k: nat, g: nat)
    requires k > 0
    ensures k * g % k == 0
  {
    RemainderIs(k * g, k, g, 0);
  }

  lemma DivDiv(x: nat, p: nat)
    requires p > 0
    ensures x / (256 * p) == x / 256 / p
  {
    var q, r := x / 256 / p, x / 256 % p;
    assert x / 256 == q * p + r;
    assert x == (q * p + r) * 256 + x % 256;
    assert x == q * (256 * p) + (r * 256 + x % 256);
    assert 0 <= r * 256 + x % 256 < 256 * p;
    QuotientIs(x, 256 * p, q, r * 256 + x % 256);
  }

  /** Bits hi..lo of a word. */
  function Field(x: nat, hi: nat, lo: nat): nat
    requires lo <= hi
  {
    x / Pow2(lo) % Pow2(hi - lo + 1)
  }

  lemma FieldIs(x: nat, hi: nat, lo: nat, top: nat, field: nat, low: nat)
    requires lo <= hi && low < Pow2(lo) && field < Pow2(hi - lo + 1)
    requires x == (top * Pow2(hi - lo + 1) + field) * Pow2(lo) + low
    ensures Field(x, hi, lo) == field
  {
    QuotientIs(x, Pow2(lo), top * Pow2(hi - lo + 1) + field, low);
    RemainderIs(top * Pow2(hi - lo + 1) + field, Pow2(hi - lo + 1), top, field);
  }
}
