/** SDHCI bus clock: the divider search, the version 3.00 divider field (section 2.2.14 of
    the SD Host Controller specification) and the clock-enable sequence. */
module SdhciClock {
  import opened Errors
  import opened MachineInts
  import opened SdioEvents
  import opened Arithmetic

  const DIVIDER_MAX: nat := 0x3FF
  const STABLE_POLLS: nat := 1000

  const INTERNAL_ENABLE: bv16 := 1
  const INTERNAL_STABLE: bv16 := 2
  const SD_ENABLE: bv16 := 4

  // ----- The divider -----

  /** The test the search makes: the truncated quotient is at or below the target. */
  predicate SlowEnough(base: nat, target: nat, n: nat)
    requires n > 0
  {
    base / (2 * n) <= target
  }

  predicate InReach(base: nat, target: nat) {
    exists n | 0 < n <= DIVIDER_MAX :: SlowEnough(base, target, n)
  }

  /** What the search finds: 0 for no division needed or none found, else the least divider
      that passes the test. */
  predicate Chosen(base: nat, target: nat, n: nat) {
    if base <= target || !InReach(base, target) then n == 0
    else
      && 0 < n <= DIVIDER_MAX && SlowEnough(base, target, n)
      && forall m | 0 < m < n :: !SlowEnough(base, target, m)
  }

  lemma {:induction false} SlowEnoughIff(base: nat, target: nat, n: nat)
    requires n > 0
    ensures SlowEnough(base, target, n) <==> base < 2 * n * (target + 1)
  {
    var q := base / (2 * n);
    assert base == q * (2 * n) + base % (2 * n);
    if q <= target {
      Times(q + 1, target + 1, 2 * n);
      assert (q + 1) * (2 * n) == q * (2 * n) + 2 * n;
    } else {
      Times(target + 1, q, 2 * n);
    }
    assert (target + 1) * (2 * n) == 2 * n * (target + 1);
  }

  lemma Times(a: nat, b: nat, k: nat)
    requires a <= b
    ensures a * k <= b * k
  {
  }

  /** Some divider is in reach exactly up to 2046 (target + 1) Hz. */
  lemma InReachIff(base: nat, target: nat)
    ensures InReach(base, target) <==> base < 2046 * (target + 1)
  {
    if base < 2046 * (target + 1) {
      SlowEnoughIff(base, target, DIVIDER_MAX);
      assert SlowEnough(base, target, DIVIDER_MAX);
    } else {
      forall n | 0 < n <= DIVIDER_MAX
        ensures !SlowEnough(base, target, n)
      {
        SlowEnoughIff(base, target, n);
        Times(2 * n, 2046, target + 1);
      }
    }
  }

  /** Beyond that the search falls through and the clock is not divided at all. */
  lemma OutOfReachUndivided(base: nat, target: nat, n: nat)
    requires Chosen(base, target, n)
    ensures base > target && base >= 2046 * (target + 1) ==> n == 0
    ensures n == 0 <==> base <= target || base >= 2046 * (target + 1)
  {
    InReachIff(base, target);
  }

  /** A 1 GHz base clock and the identification target: no divider is in reach, and the card
      would see 1 GHz. */
  lemma UndividedGigahertz()
    ensures Chosen(1_000_000_000, TargetHz(Identification), 0)
  {
    InReachIff(1_000_000_000, 400_000);
  }

  /** The test truncates, so in general the clock may come out above its target. */
  lemma TruncationOvershoots()
    ensures Chosen(3, 1, 1) && !(3 <= 2 * 1 * 1)
  {
    assert SlowEnough(3, 1, 1);
    assert InReach(3, 1);
  }

  /** The least divider that passes the test, from the inputs alone. */
  lemma {:induction false} ChosenIs(base: nat, target: nat, n: nat)
    requires base > target && Chosen(base, target, n) && n > 0
    ensures n == base / (2 * (target + 1)) + 1
  {
    var d := 2 * (target + 1);
    DivMod(base, d);
    SlowEnoughBelow(base, target, n, d);
    if n > 1 {
      assert !SlowEnough(base, target, n - 1);
      SlowEnoughBelow(base, target, n - 1, d);
    }
    Pinned(base, d, base / d, n);
  }

  lemma SlowEnoughBelow(base: nat, target: nat, n: nat, d: nat)
    requires n > 0 && d == 2 * (target + 1)
    ensures SlowEnough(base, target, n) <==> base < n * d
  {
    SlowEnoughIff(base, target, n);
    Doubled(n, target + 1);
  }

  lemma Doubled(n: nat, t: nat)
    ensures 2 * n * t == n * (2 * t)
  {
  }

  lemma Pinned(base: nat, d: nat, q: nat, n: nat)
    requires d > 0 && q * d <= base < q * d + d
    requires 0 < n && (n - 1) * d <= base < n * d
    ensures n == q + 1
  {
    OneMore(q, d);
    Cancel(q, n, d);
    Cancel(n - 1, q + 1, d);
  }

  /** A divided clock keeps to its target exactly if the base clock's quotient and remainder
      by twice the target plus two say so: the condition is over the inputs alone. */
  lemma {:induction false} ExactIff(base: nat, target: nat, n: nat)
    requires base > target && Chosen(base, target, n) && n > 0
    ensures var d := 2 * (target + 1); base <= 2 * n * target <==> 2 * (base / d) + base % d <= 2 * target
  {
    var d := 2 * (target + 1);
    var q := base / d;
    ChosenIs(base, target, n);
    DivMod(base, d);
    Expand(q, target);
  }

  lemma Expand(q: nat, target: nat)
    ensures 2 * (q + 1) * target == q * (2 * (target + 1)) - 2 * q + 2 * target
  {
  }

  // ----- Capability clocks -----

  /** base_clock_hz: bits 15..8 of the capabilities, in MHz. */
  function BaseClockHz(capsLow: u32): (hz: u32)
    ensures hz % 1_000_000 == 0 && hz <= 255_000_000
  {
    capsLow / 0x100 % 0x100 * 1_000_000
  }

  /** Whatever the other capability bits, the clock is the one the byte states. */
  lemma CapabilityClock(upper: u16, mhz: u8, lower: u8)
    ensures BaseClockHz(upper * 0x1_0000 + mhz * 0x100 + lower) == mhz * 1_000_000
  {
    var caps := upper as nat * 0x1_0000 + mhz as nat * 0x100 + lower as nat;
    assert caps / 0x100 == upper as nat * 0x100 + mhz as nat;
    RemainderIs(caps / 0x100, 0x100, upper, mhz);
  }

  /** A target in Hz is a whole number of 400 kHz steps and no clock of whole MHz can land in
      the remainder window of any divider in reach. */
  lemma {:induction false} CapabilityExact(mhz: u8, speed: ClockSpeed, n: nat)
    requires mhz > 0 && Chosen(mhz * 1_000_000, TargetHz(speed), n)
    ensures Bounded(mhz * 1_000_000, TargetHz(speed), n)
  {
    var base, target := mhz * 1_000_000, TargetHz(speed);
    CapabilityInReach(mhz, speed);
    InReachIff(base, target);
    if base > target {
      SlowEnoughIff(base, target, n);
      NoWindow(base, target, n);
      if n > 1 {
        OneLessIsTooFast(base, target, n);
      }
    }
  }

  lemma CapabilityInReach(mhz: u8, speed: ClockSpeed)
    ensures mhz * 1_000_000 % 200_000 == 0 && TargetHz(speed) % 200_000 == 0
    ensures mhz * 1_000_000 < 2046 * (TargetHz(speed) + 1)
  {
  }

  lemma OneLessIsTooFast(base: nat, target: nat, n: nat)
    requires n > 1 && base > target && InReach(base, target) && Chosen(base, target, n)
    ensures 2 * (n - 1) * target < base
  {
    assert !SlowEnough(base, target, n - 1);
    SlowEnoughIff(base, target, n - 1);
    assert 2 * (n - 1) * (target + 1) == 2 * (n - 1) * target + 2 * (n - 1);
  }

  /** Both sides are multiples of 200 kHz, so less than 2046 apart means not above. */
  lemma {:induction false} NoWindow(base: nat, target: nat, n: nat)
    requires base % 200_000 == 0 && target % 200_000 == 0
    requires 0 < n <= DIVIDER_MAX && base < 2 * n * (target + 1)
    ensures base <= 2 * n * target
  {
    var a, t := base / 200_000, target / 200_000;
    assert 2 * n * (target + 1) == 2 * n * target + 2 * n;
    assert 2 * n * target == 2 * n * t * 200_000;
    assert 200_000 * a < 200_000 * (2 * n * t) + 2 * n;
    assert a <= 2 * n * t;
  }

  // ----- The register -----

  function ClockControl(div: bv16): bv16 {
    ((div & 0xFF) << 8) | ((div & 0x300) >> 2) | INTERNAL_ENABLE
  }

  /** Section 2.2.14: bits 15..8 hold the low eight bits of the divider, bits 7..6 the upper two. */
  function FieldOf(control: bv16): bv16 {
    (control >> 8) | ((control & 0xC0) << 2)
  }

  function Stabilised(control: bv16): bv16 { control | INTERNAL_STABLE }

  function Running(control: bv16): bv16 { control | SD_ENABLE }

  predicate IsStable(control: bv16) { control & INTERNAL_STABLE != 0 }

  predicate IsRunning(control: bv16) { control & SD_ENABLE != 0 }

  /** Every 10-bit divider survives the encoding, whatever the two status bits. */
  lemma FieldDecodes(div: bv16)
    requires div <= 0x3FF
    ensures FieldOf(ClockControl(div)) == div
    ensures FieldOf(Stabilised(ClockControl(div))) == div
    ensures FieldOf(Running(Stabilised(ClockControl(div)))) == div
  {
  }

  lemma StatusBits(div: bv16)
    ensures var c := ClockControl(div);
            && !IsStable(c) && !IsRunning(c) && c & INTERNAL_ENABLE != 0
            && !IsRunning(Stabilised(c)) && IsRunning(Running(Stabilised(c)))
            && Stabilised(Stabilised(c)) == Stabilised(c)
  {
  }

  function Value(n: bv16): nat { n as nat }

  lemma NextValue(n: bv16, m: bv16)
    requires n <= 0x3FF && m == n + 1
    ensures Value(m) == Value(n) + 1
  {
  }

  lemma ValueBound(n: bv16)
    ensures n <= 0x3FF <==> Value(n) <= DIVIDER_MAX
    ensures n == 0 <==> Value(n) == 0
  {
  }

  /** The register divides the base clock by 2n. */
  predicate Divides(control: bv16, n: nat) {
    Value(FieldOf(control)) == n
  }

  class Sdhci {
    var clockControl: bv16
    ghost var writes: seq<bv16>
    ghost var looks: nat

    method Write(v: bv16)
      modifies this`clockControl, this`writes
      ensures clockControl == v && writes == old(writes) + [v]
    {
      clockControl := v;
      writes := writes + [v];
    }

    /** A read; the controller may have raised the stable bit in the meantime. */
    method Read() returns (v: bv16)
      modifies this`clockControl, this`looks
      ensures looks == old(looks) + 1
      ensures v == clockControl && (v == old(clockControl) || v == Stabilised(old(clockControl)))
    {
      var stable: bool := *;
      if stable {
        clockControl := Stabilised(clockControl);
      }
      v := clockControl;
      looks := looks + 1;
    }

    /** The internal clock first; the SD clock only once it is stable, the divider unchanged. */
    method Start(div: bv16) returns (r: Result<()>)
      requires div <= 0x3FF
      modifies this
      ensures Divides(clockControl, Value(div)) && (IsRunning(clockControl) <==> r.Ok?)
      ensures var c := ClockControl(div);
              writes == old(writes) + [c] + (if r.Ok? then [Running(Stabilised(c))] else [])
      ensures r.Err? ==> r == Err(Timeout(At(Phase.Init))) && !IsStable(clockControl) && looks == old(looks) + STABLE_POLLS
    {
      var control := ClockControl(div);
      FieldDecodes(div);
      StatusBits(div);
      Write(control);
      var i := 0;
      while i < STABLE_POLLS
        invariant clockControl == control && 0 <= i <= STABLE_POLLS && looks == old(looks) + i
        invariant writes == old(writes) + [control]
      {
        var v := Read();
        if IsStable(v) {
          var stable := Read();
          Write(Running(stable));
          return Ok(());
        }
        i := i + 1;
      }
      return Err(Timeout(At(Phase.Init)));
    }

    /** The first divider that passes the test, least first. */
    method PickDivider(base: u32, target: u32) returns (div: bv16)
      ensures div <= 0x3FF && Chosen(base, target, Value(div))
    {
      div := 0;
      ValueBound(0);
      if base > target {
        var n: bv16 := 1;
        ghost var k := 1;
        NextValue(0, n);
        while n <= 0x3FF
          invariant 0 < k <= DIVIDER_MAX + 1 && Value(n) == k && div == 0
          invariant forall m | 0 < m < k :: !SlowEnough(base, target, m)
          decreases DIVIDER_MAX + 1 - k
        {
          if base / (2 * Value(n)) <= target {
            assert SlowEnough(base, target, k);
            ValueBound(n);
            return n;
          }
          NextValue(n, n + 1);
          ValueBound(n);
          n := n + 1;
          k := k + 1;
        }
        ValueBound(n);
      }
    }

    method EnableClock(base: u32, target: u32) returns (r: Result<()>)
      modifies this
      ensures target == 0 ==> r == Ok(()) && clockControl == 0 && writes == old(writes) + [0]
      ensures target > 0 ==>
                (exists n: nat :: Chosen(base, target, n) && Divides(clockControl, n)) && (IsRunning(clockControl) <==> r.Ok?)
      ensures r.Err? ==> r == Err(Timeout(At(Phase.Init))) && looks == old(looks) + STABLE_POLLS
    {
      Write(0);
      if target == 0 {
        return Ok(());
      }
      var div := PickDivider(base, target);
      r := Start(div);
    }

    /** set_clock without an external clock source: an accepted clock never exceeds the
        target, and no smaller divider would do. */
    method SetClock(speed: ClockSpeed, capsLow: u32) returns (r: Result<()>)
      modifies this
      ensures BaseClockHz(capsLow) == 0 ==> r == Err(BadResponse(At(Phase.Init))) && clockControl == old(clockControl)
      ensures BaseClockHz(capsLow) != 0 ==>
                exists n: nat :: Divides(clockControl, n) && Bounded(BaseClockHz(capsLow), TargetHz(speed), n)
      ensures IsRunning(clockControl) && r.Err? ==> BaseClockHz(capsLow) == 0
      ensures r.Ok? ==> IsRunning(clockControl)
    {
      var base := BaseClockHz(capsLow);
      if base == 0 {
        return Err(BadResponse(At(Phase.Init)));
      }
      r := EnableClock(base, TargetHz(speed));
      ghost var n: nat :| Chosen(base, TargetHz(speed), n) && Divides(clockControl, n);
      CapabilityBound(capsLow, speed, n);
    }
  }

  lemma CapabilityBound(capsLow: u32, speed: ClockSpeed, n: nat)
    requires BaseClockHz(capsLow) != 0 && Chosen(BaseClockHz(capsLow), TargetHz(speed), n)
    ensures Bounded(BaseClockHz(capsLow), TargetHz(speed), n)
  {
    var mhz := BaseClockHz(capsLow) / 1_000_000;
    CapabilityExact(mhz, speed, n);
  }

  /** The least divider that keeps base / 2n at or below the target; 0, no division, exactly
      when the base already is. */
  predicate Bounded(base: nat, target: nat, n: nat) {
    && (n == 0 <==> base <= target)
    && (n > 0 ==> base <= 2 * n * target && 2 * (n - 1) * target < base)
  }
}
