/** Polynomials over GF(2), written as bit strings with the highest power first,
    and the shift register that divides by a fixed monic polynomial.

    A divisor x^w + g is given by its w low coefficients g (the leading 1 is implied).
    Nothing here mentions a CRC width: CRC-16 and CRC-7 are instances. */
module Gf2 {

  type Bits = seq<bool>

  function Zeros(n: nat): (z: Bits)
    ensures |z| == n
    ensures forall i | 0 <= i < n :: !z[i]
  {
    seq(n, _ => false)
  }

  /** Coefficientwise sum. */
  function Xor(a: Bits, b: Bits): (r: Bits)
    requires |a| == |b|
    ensures |r| == |a|
    ensures forall i | 0 <= i < |a| :: r[i] == (a[i] != b[i])
  {
    seq(|a|, i requires 0 <= i < |a| => a[i] != b[i])
  }

  /** One clock of the dividing register: multiply by x, add b·x^w, reduce. */
  function Clock(r: Bits, b: bool, g: Bits): (s: Bits)
    requires |r| == |g| > 0
    ensures |s| == |r|
    ensures forall i | 0 <= i < |r| ::
              s[i] == ((i + 1 < |r| && r[i + 1]) != (r[0] != b && g[i]))
  {
    seq(|r|, i requires 0 <= i < |r| => (i + 1 < |r| && r[i + 1]) != (r[0] != b && g[i]))
  }

  /** A bit clocked in may instead be added to the register's top bit beforehand. */
  lemma ClockTop(r: Bits, s: Bits, b: bool, g: Bits)
    requires |r| == |s| == |g| > 0
    requires forall i | 0 <= i < |r| :: s[i] == (r[i] != (b && i == 0))
    ensures Clock(r, b, g) == Clock(s, false, g)
  {
  }

  /** Clock in a whole bit string, first bit first. */
  function Feed(r: Bits, m: Bits, g: Bits): (s: Bits)
    requires |r| == |g| > 0
    ensures |s| == |r|
    decreases |m|
  {
    if m == [] then r else Clock(Feed(r, m[..|m| - 1], g), m[|m| - 1], g)
  }

  lemma {:induction false} FeedNext(r: Bits, m: Bits, k: nat, g: Bits)
    requires |r| == |g| > 0 && k < |m|
    ensures Feed(r, m[..k + 1], g) == Clock(Feed(r, m[..k], g), m[k], g)
  {
    assert m[..k + 1][..k] == m[..k];
  }

  lemma {:induction false} FeedEnds(r: Bits, m: Bits, g: Bits)
    requires |r| == |g| > 0
    ensures Feed(r, m[..0], g) == r
    ensures Feed(r, m[..|m|], g) == Feed(r, m, g)
  {
    assert m[..|m|] == m;
  }

  /** The register contents after m, started from zero. */
  function Remainder(m: Bits, g: Bits): (r: Bits)
    requires |g| > 0
    ensures |r| == |g|
  {
    Feed(Zeros(|g|), m, g)
  }

  // ----- Feed is a linear map -----

  lemma {:induction false} FeedConcat(r: Bits, a: Bits, b: Bits, g: Bits)
    requires |r| == |g| > 0
    ensures Feed(r, a + b, g) == Feed(Feed(r, a, g), b, g)
    decreases |b|
  {
    if b == [] {
      assert a + b == a;
    } else {
      var n := |b| - 1;
      FeedConcat(r, a, b[..n], g);
      assert (a + b)[..|a + b| - 1] == a + b[..n];
    }
  }

  lemma ClockLinear(r: Bits, s: Bits, x: bool, y: bool, g: Bits)
    requires |r| == |s| == |g| > 0
    ensures Clock(Xor(r, s), x != y, g) == Xor(Clock(r, x, g), Clock(s, y, g))
  {
  }

  lemma {:induction false} FeedLinear(r: Bits, s: Bits, m: Bits, n: Bits, g: Bits)
    requires |r| == |s| == |g| > 0 && |m| == |n|
    ensures Feed(Xor(r, s), Xor(m, n), g) == Xor(Feed(r, m, g), Feed(s, n, g))
    decreases |m|
  {
    if m != [] {
      var k := |m| - 1;
      FeedLinear(r, s, m[..k], n[..k], g);
      assert Xor(m, n)[..k] == Xor(m[..k], n[..k]);
      ClockLinear(Feed(r, m[..k], g), Feed(s, n[..k], g), m[k], n[k], g);
    }
  }

  lemma {:induction false} FeedNothing(n: nat, g: Bits)
    requires |g| > 0
    ensures Feed(Zeros(|g|), Zeros(n), g) == Zeros(|g|)
  {
    if n > 0 {
      FeedNothing(n - 1, g);
      assert Zeros(n)[..n - 1] == Zeros(n - 1);
      assert Clock(Zeros(|g|), false, g) == Zeros(|g|);
    }
  }

  // ----- The register divides -----

  /** Coefficient i of the divisor x^w + g itself. */
  predicate Divisor(g: Bits, i: int) {
    i == 0 || (1 <= i <= |g| && g[i - 1])
  }

  /** q times the divisor, by Horner's rule: (q'·x + t)·(x^w + g) = x·(q'·(x^w + g)) + t·(x^w + g). */
  function Times(q: Bits, g: Bits): (p: Bits)
    ensures |p| == |q| + |g|
    decreases |q|
  {
    if q == [] then Zeros(|g|)
    else
      var n := |q| - 1;
      var p' := Times(q[..n], g);
      seq(|q| + |g|, i requires 0 <= i < |q| + |g| =>
        (i < |p'| && p'[i]) != (q[n] && Divisor(g, i - n)))
  }

  lemma {:induction false} TimesAt(q: Bits, t: bool, g: Bits, i: nat)
    requires i < |q| + 1 + |g|
    ensures Times(q + [t], g)[i] == ((i < |q| + |g| && Times(q, g)[i]) != (t && Divisor(g, i - |q|)))
  {
    var p, n := q + [t], |q|;
    assert p[..n] == q && p[n] == t;
  }

  /** m·x^w = q·(x^w + g) + r with r of degree below w: the product carries m in its leading
      coefficients and r in its w trailing ones. */
  ghost predicate IsDivision(m: Bits, q: Bits, r: Bits, g: Bits) {
    && |q| == |m|
    && |r| == |g|
    && forall i | 0 <= i < |m| + |g| ::
         Times(q, g)[i] == if i < |m| then m[i] else r[i - |m|]
  }

  lemma {:induction false} RemainderDivides(m: Bits, g: Bits) returns (q: Bits)
    requires |g| > 0
    ensures IsDivision(m, q, Remainder(m, g), g)
    decreases |m|
  {
    if m == [] {
      q := [];
    } else {
      var n := |m| - 1;
      var q' := RemainderDivides(m[..n], g);
      q := q' + [Remainder(m[..n], g)[0] != m[n]];
      DivideOneMore(m[..n], m[n], q', Remainder(m[..n], g), g);
      assert m[..n] + [m[n]] == m;
    }
  }

  /** Clocking in one more coefficient extends the quotient by the bit that left the register. */
  lemma DivideOneMore(m: Bits, b: bool, q: Bits, r: Bits, g: Bits)
    requires |g| > 0
    requires IsDivision(m, q, r, g)
    ensures IsDivision(m + [b], q + [r[0] != b], Clock(r, b, g), g)
  {
    var t, n := r[0] != b, |m|;
    forall i | 0 <= i < n + 1 + |g|
      ensures Times(q + [t], g)[i] == if i < n + 1 then (m + [b])[i] else Clock(r, b, g)[i - n - 1]
    {
      TimesAt(q, t, g, i);
      if i < n {
        assert Times(q, g)[i] == m[i];
      } else if i < n + |g| {
        assert Times(q, g)[i] == r[i - n];
      }
    }
  }

  /** Products agreeing on their leading coefficients agree one coefficient at a time. */
  lemma {:induction false} QuotientStep(p: Bits, s: bool, q: Bits, t: bool, g: Bits)
    requires |p| == |q|
    requires forall i | 0 <= i < |p| + 1 :: Times(p + [s], g)[i] == Times(q + [t], g)[i]
    ensures forall i | 0 <= i < |p| :: Times(p, g)[i] == Times(q, g)[i]
    ensures p == q ==> s == t
  {
    forall i | 0 <= i < |p|
      ensures Times(p, g)[i] == Times(q, g)[i]
    {
      TimesAt(p, s, g, i);
      TimesAt(q, t, g, i);
    }
    TimesAt(p, s, g, |p|);
    TimesAt(q, t, g, |p|);
  }

  lemma {:induction false} QuotientUnique(p: Bits, q: Bits, g: Bits)
    requires |p| == |q|
    requires forall i | 0 <= i < |p| :: Times(p, g)[i] == Times(q, g)[i]
    ensures p == q
    decreases |p|
  {
    if p != [] {
      var n := |p| - 1;
      assert p == p[..n] + [p[n]] && q == q[..n] + [q[n]];
      QuotientStep(p[..n], p[n], q[..n], q[n], g);
      QuotientUnique(p[..n], q[..n], g);
    }
  }

  /** The remainder is characterised by the division identity. */
  lemma RemainderIff(m: Bits, r: Bits, g: Bits)
    requires |g| > 0
    ensures r == Remainder(m, g) <==> exists q :: IsDivision(m, q, r, g)
  {
    var q0 := RemainderDivides(m, g);
    forall q | IsDivision(m, q, r, g)
      ensures r == Remainder(m, g)
    {
      QuotientUnique(q, q0, g);
      forall i | 0 <= i < |g|
        ensures r[i] == Remainder(m, g)[i]
      {
        assert Times(q, g)[|m| + i] == Times(q0, g)[|m| + i];
      }
    }
  }

  // ----- Loading several bits at once -----

  /** Feeding a register its own leading bits shifts them out. */
  lemma {:induction false} FeedOwnPrefix(r: Bits, k: nat, g: Bits)
    requires |r| == |g| > 0 && k <= |g|
    ensures Feed(r, r[..k], g) == r[k..] + Zeros(k)
  {
    if k > 0 {
      FeedOwnPrefix(r, k - 1, g);
      assert r[..k][..k - 1] == r[..k - 1];
      ShiftOut(r, k, g);
    }
  }

  lemma ShiftOut(r: Bits, k: nat, g: Bits)
    requires |r| == |g| && 0 < k <= |g|
    ensures Clock(r[k - 1..] + Zeros(k - 1), r[k - 1], g) == r[k..] + Zeros(k)
  {
  }

  /** A message followed by its own remainder divides evenly. */
  lemma AppendRemainder(m: Bits, g: Bits)
    requires |g| > 0
    ensures Remainder(m + Remainder(m, g), g) == Zeros(|g|)
  {
    var r := Remainder(m, g);
    FeedConcat(Zeros(|g|), m, r, g);
    FeedOwnPrefix(r, |g|, g);
    assert r[..|g|] == r && r[|g|..] + Zeros(|g|) == Zeros(|g|);
  }

  /** Bits fed one at a time may instead be added at the top of the register, and the
      register then clocked with zeros. */
  lemma Preload(r: Bits, b: Bits, g: Bits)
    requires |r| == |g| > 0 && |b| <= |g|
    ensures Feed(r, b, g) == Feed(Xor(r, b + Zeros(|g| - |b|)), Zeros(|b|), g)
  {
    var p := b + Zeros(|g| - |b|);
    FeedLinear(r, p, b, b, g);
    assert Xor(b, b) == Zeros(|b|);
    FeedOwnPrefix(p, |b|, g);
    assert p[..|b|] == b && p[|b|..] + Zeros(|b|) == Zeros(|g|);
    assert Xor(Feed(r, b, g), Zeros(|g|)) == Feed(r, b, g);
  }

  // ----- Which error patterns a checked frame can carry unnoticed -----

  /** With a nonzero constant term, clocking in a zero loses nothing. */
  lemma ClockInjective(r: Bits, g: Bits)
    requires |r| == |g| > 0 && g[|g| - 1]
    requires Clock(r, false, g) == Zeros(|g|)
    ensures r == Zeros(|g|)
  {
    var w, c := |g|, Clock(r, false, g);
    assert !c[w - 1];
    assert !r[0];
    forall i | 0 < i < w
      ensures !r[i]
    {
      assert !c[i - 1];
    }
  }

  lemma {:induction false} ZerosInjective(r: Bits, k: nat, g: Bits)
    requires |r| == |g| > 0 && g[|g| - 1]
    requires Feed(r, Zeros(k), g) == Zeros(|g|)
    ensures r == Zeros(|g|)
  {
    if k > 0 {
      assert Zeros(k)[..k - 1] == Zeros(k - 1);
      ClockInjective(Feed(r, Zeros(k - 1), g), g);
      ZerosInjective(r, k - 1, g);
    }
  }

  /** What a receiver tests: the trailing |g| bits are the remainder of the rest. */
  ghost predicate Accepts(f: Bits, g: Bits)
    requires 0 < |g| <= |f|
  {
    Remainder(f[..|f| - |g|], g) == f[|f| - |g|..]
  }

  lemma AcceptsIff(f: Bits, g: Bits)
    requires 0 < |g| <= |f| && g[|g| - 1]
    ensures Accepts(f, g) <==> Remainder(f, g) == Zeros(|g|)
  {
    var n := |f| - |g|;
    var m, t := f[..n], f[n..];
    var r := Remainder(m, g);
    assert f == m + t;
    FeedConcat(Zeros(|g|), m, t, g);
    Preload(r, t, g);
    assert t + Zeros(0) == t;
    var d := Xor(r, t);
    if r == t {
      assert d == Zeros(|g|);
      FeedNothing(|g|, g);
    } else {
      var i :| 0 <= i < |g| && r[i] != t[i];
      assert d[i];
      assert Feed(d, Zeros(|g|), g) != Zeros(|g|) by {
        if Feed(d, Zeros(|g|), g) == Zeros(|g|) {
          ZerosInjective(d, |g|, g);
        }
      }
    }
  }

  /** An accepted frame hit by the error pattern e is still accepted exactly when e itself
      is a multiple of the divisor. */
  lemma ErrorUnnoticedIff(f: Bits, e: Bits, g: Bits)
    requires 0 < |g| <= |f| == |e| && g[|g| - 1]
    requires Accepts(f, g)
    ensures Accepts(Xor(f, e), g) <==> Remainder(e, g) == Zeros(|g|)
  {
    AcceptsIff(f, g);
    AcceptsIff(Xor(f, e), g);
    FeedLinear(Zeros(|g|), Zeros(|g|), f, e, g);
    assert Xor(Zeros(|g|), Zeros(|g|)) == Zeros(|g|);
    assert Xor(Zeros(|g|), Remainder(e, g)) == Remainder(e, g);
  }

  /** A nonzero error confined to width consecutive bits. */
  ghost predicate IsBurst(e: Bits, width: nat) {
    exists i: nat, k: nat :: BurstAt(e, i, k, width)
  }

  ghost predicate BurstAt(e: Bits, i: nat, k: nat, width: nat) {
    && k <= width
    && i + k <= |e|
    && (exists j :: i <= j < i + k && e[j])
    && forall j | 0 <= j < |e| && e[j] :: i <= j < i + k
  }

  lemma ShortNonzero(b: Bits, j: nat, g: Bits)
    requires 0 < |g| && g[|g| - 1]
    requires |b| <= |g| && j < |b| && b[j]
    ensures Remainder(b, g) != Zeros(|g|)
  {
    var p := b + Zeros(|g| - |b|);
    Preload(Zeros(|g|), b, g);
    assert Xor(Zeros(|g|), p) == p;
    assert p[j];
    if Remainder(b, g) == Zeros(|g|) {
      ZerosInjective(p, |b|, g);
    }
  }

  /** Zeros around a bit string do not make its remainder vanish. */
  lemma Surrounded(i: nat, b: Bits, j: nat, g: Bits)
    requires 0 < |g| && g[|g| - 1]
    requires Remainder(b, g) != Zeros(|g|)
    ensures Remainder(Zeros(i) + b + Zeros(j), g) != Zeros(|g|)
  {
    FeedNothing(i, g);
    FeedConcat(Zeros(|g|), Zeros(i), b, g);
    FeedConcat(Zeros(|g|), Zeros(i) + b, Zeros(j), g);
    if Remainder(Zeros(i) + b + Zeros(j), g) == Zeros(|g|) {
      ZerosInjective(Remainder(b, g), j, g);
    }
  }

  lemma BurstNoticed(e: Bits, g: Bits)
    requires 0 < |g| && g[|g| - 1]
    requires IsBurst(e, |g|)
    ensures Remainder(e, g) != Zeros(|g|)
  {
    var i: nat, k: nat :| BurstAt(e, i, k, |g|);
    var b, j := e[i..i + k], |e| - i - k;
    var x :| i <= x < i + k && e[x];
    ShortNonzero(b, x - i, g);
    Surrounded(i, b, j, g);
    assert e == Zeros(i) + b + Zeros(j);
  }

  /** Whether an odd number of bits is set. */
  function Odd(b: Bits): (p: bool)
    decreases |b|
  {
    if b == [] then false else Odd(b[..|b| - 1]) != b[|b| - 1]
  }

  lemma {:induction false} OddXor(a: Bits, b: Bits)
    requires |a| == |b|
    ensures Odd(Xor(a, b)) == (Odd(a) != Odd(b))
    decreases |a|
  {
    if a != [] {
      var n := |a| - 1;
      assert Xor(a, b)[..n] == Xor(a[..n], b[..n]);
      OddXor(a[..n], b[..n]);
    }
  }

  lemma {:induction false} OddTail(b: Bits)
    requires b != []
    ensures Odd(b[1..]) == (Odd(b) != b[0])
    decreases |b|
  {
    var n := |b| - 1;
    if n == 0 {
      assert b[..0] == [] == b[1..];
    } else {
      OddTail(b[..n]);
      assert b[1..][..n - 1] == b[..n][1..];
    }
  }

  lemma {:induction false} OddZeros(n: nat)
    ensures !Odd(Zeros(n))
  {
    if n > 0 {
      assert Zeros(n)[..n - 1] == Zeros(n - 1);
      OddZeros(n - 1);
    }
  }

  /** A run of zeros does not change parity; the one bit after it flips it if set. */
  lemma {:induction false} OddRun(b: Bits, n: nat, m: nat)
    requires n <= m < |b|
    requires forall i | n <= i < m :: !b[i]
    ensures Odd(b[..m + 1]) == (Odd(b[..n]) != b[m])
    decreases m
  {
    assert b[..m + 1][..m] == b[..m];
    if n < m {
      OddRun(b, n, m - 1);
    }
  }

  /** When x + 1 divides the divisor (g has odd weight), the register tracks parity. */
  lemma {:induction false} FeedOdd(r: Bits, m: Bits, g: Bits)
    requires |r| == |g| > 0 && Odd(g)
    ensures Odd(Feed(r, m, g)) == (Odd(r) != Odd(m))
    decreases |m|
  {
    if m != [] {
      var n := |m| - 1;
      FeedOdd(r, m[..n], g);
      ClockOdd(Feed(r, m[..n], g), m[n], g);
    }
  }

  lemma ClockOdd(r: Bits, b: bool, g: Bits)
    requires |r| == |g| > 0 && Odd(g)
    ensures Odd(Clock(r, b, g)) == (Odd(r) != b)
  {
    var shifted, added := r[1..] + [false], if r[0] != b then g else Zeros(|g|);
    assert shifted[..|g| - 1] == r[1..];
    OddTail(r);
    OddZeros(|g|);
    OddXor(shifted, added);
    assert Clock(r, b, g) == Xor(shifted, added);
  }

  lemma OddErrorNoticed(e: Bits, g: Bits)
    requires 0 < |g| && Odd(g) && Odd(e)
    ensures Remainder(e, g) != Zeros(|g|)
  {
    FeedOdd(Zeros(|g|), e, g);
    OddZeros(|g|);
  }

  // ----- Weight -----

  /** Number of set bits. */
  function Weight(b: Bits): nat
    decreases |b|
  {
    if b == [] then 0 else (if b[0] then 1 else 0) + Weight(b[1..])
  }

  lemma {:induction false} FirstOne(b: Bits) returns (i: nat)
    requires Weight(b) > 0
    ensures i < |b| && b[i] && b[..i] == Zeros(i)
    ensures Weight(b[i + 1..]) == Weight(b) - 1
    decreases |b|
  {
    if b[0] {
      i := 0;
    } else {
      var j := FirstOne(b[1..]);
      i := j + 1;
      assert b[1..][j + 1..] == b[i + 1..];
      assert b[..i] == [false] + b[1..][..j];
    }
  }

  lemma {:induction false} NoOnes(b: Bits)
    requires Weight(b) == 0
    ensures b == Zeros(|b|)
    decreases |b|
  {
    if b != [] {
      NoOnes(b[1..]);
      assert b == [b[0]] + b[1..];
    }
  }

  lemma {:induction false} TwoBitShape(e: Bits, i: nat, k: nat)
    requires i < |e| && e[i] && e[..i] == Zeros(i)
    requires k < |e| - i - 1 && e[i + 1..][k] && e[i + 1..][..k] == Zeros(k)
    requires e[i + 1..][k + 1..] == Zeros(|e| - i - k - 2)
    ensures e == Zeros(i) + ([true] + Zeros(k) + [true]) + Zeros(|e| - i - k - 2)
  {
    var rest := e[i + 1..];
    assert rest == rest[..k] + [rest[k]] + rest[k + 1..];
    assert e == e[..i] + [e[i]] + rest;
  }
}
