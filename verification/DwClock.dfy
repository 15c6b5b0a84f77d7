/** DW_mshc bus clock: the three-step update of registers that the card interface unit only
    sees when it latches them. */
module DwClock {
  import opened Errors
  import opened MachineInts
  import opened SdioEvents

  /** What the CIU runs on: clock enable of card 0 and divider. */
  datatype Latch = Latch(enable: bool, divider: u8)

  const UPDATE_POLLS: nat := 1_000_000
  const DIVIDER_MAX: u8 := 0xFF

  /** A divider never changes on a running clock: both latches around a change are gated. */
  ghost predicate Glitchless(h: seq<Latch>) {
    forall i | 0 < i < |h| :: h[i - 1].divider != h[i].divider ==> !h[i - 1].enable && !h[i].enable
  }

  /** Bypass when the reference is slow enough or unknown; else the least divider that keeps
      ref / 2d at or below the target; 255 when none does. */
  predicate BestDivider(ref: nat, target: nat, d: nat) {
    if ref == 0 || target == 0 || target >= ref then d == 0
    else if ref <= 510 * target then 0 < d && ref <= 2 * d * target && 2 * (d - 1) * target < ref
    else d == DIVIDER_MAX
  }

  lemma {:induction false} LeastDivider(ref: nat, target: nat, d: nat, other: nat)
    requires 0 < target < ref && BestDivider(ref, target, d) && 0 < other && ref <= 2 * other * target
    ensures d <= other
    ensures ref <= 510 * target <==> ref <= 2 * d * target
  {
    if other < d {
      Monotone(other, if ref <= 510 * target then d - 1 else DIVIDER_MAX, target);
    }
  }

  lemma Monotone(a: nat, b: nat, t: nat)
    requires a <= b
    ensures 2 * a * t <= 2 * b * t
  {
  }

  /** The ceiling the driver computes is that divider, saturated or not. */
  lemma {:induction false} CeilingIsBest(ref: u32, target: u32)
    requires 0 < target < ref
    ensures BestDivider(ref, target, Min(CeilDiv(ref, 2 * target), DIVIDER_MAX))
  {
    var q := CeilDiv(ref, 2 * target);
    assert q * (2 * target) == 2 * q * target;
    assert 2 * (q - 1) * target == q * (2 * target) - 2 * target;
    if ref <= 510 * target {
      if q > DIVIDER_MAX {
        Monotone(DIVIDER_MAX, q - 1, target);
      }
    } else if q < DIVIDER_MAX {
      Monotone(q, DIVIDER_MAX, target);
    }
  }

  class DwMmc {
    var refClockHz: u32
    // registers
    var clkena: bool
    var clkdiv: u8
    var startCmd: bool
    // the card interface unit
    var ciu: Latch
    ghost var history: seq<Latch>

    ghost predicate Valid()
      reads this
    {
      && history != [] && history[|history| - 1] == ciu
      && Glitchless(history)
      && (ciu.enable || clkena ==> ciu.divider == clkdiv)
    }

    constructor ()
      ensures Valid() && refClockHz == 0 && !ciu.enable && history == [ciu]
    {
      refClockHz := 0;
      clkena := false;
      clkdiv := 0;
      startCmd := false;
      ciu := Latch(false, 0);
      history := [Latch(false, 0)];
    }

    /** Time passes: an update still outstanding, timed out or not, may be latched now. */
    method Elapse()
      requires Valid()
      modifies this`startCmd, this`ciu, this`history
      ensures Valid() && old(history) <= history
      ensures startCmd ==> old(startCmd)
      ensures (ciu == old(ciu) && startCmd == old(startCmd)) || (old(startCmd) && !startCmd && ciu == Latch(clkena, clkdiv))
    {
      var latched: bool := *;
      if startCmd && latched {
        startCmd := false;
        ciu := Latch(clkena, clkdiv);
        history := history + [ciu];
      }
    }

    /** Ok exactly when the CIU took the registers over. */
    method SendUpdateClock() returns (r: Result<()>)
      requires Valid()
      modifies this`startCmd, this`ciu, this`history
      ensures Valid() && old(history) <= history
      ensures r == if startCmd then Err(Timeout(At(Phase.Init))) else Ok(())
      ensures r.Ok? ==> ciu == Latch(clkena, clkdiv)
      ensures r.Err? ==> ciu == old(ciu) || ciu == Latch(clkena, clkdiv)
    {
      Elapse();
      startCmd := true;
      var i := 0;
      while i < UPDATE_POLLS
        invariant Valid() && old(history) <= history && startCmd
        invariant ciu == old(ciu) || ciu == Latch(clkena, clkdiv)
      {
        Elapse();
        if !startCmd {
          return Ok(());
        }
        i := i + 1;
      }
      return Err(Timeout(At(Phase.Init)));
    }

    /** Whatever earlier calls left behind. */
    method ProgramClock(target: u32) returns (r: Result<()>)
      requires Valid()
      requires target >= refClockHz || 2 * target < U32_LIMIT
      modifies this`clkena, this`clkdiv, this`startCmd, this`ciu, this`history
      ensures Valid() && old(history) <= history
      ensures r.Ok? ==> ciu.enable && clkena && !startCmd && BestDivider(refClockHz, target, ciu.divider)
      ensures r.Err? ==> r == Err(Timeout(At(Phase.Init))) && startCmd
    {
      Elapse();
      clkena := false;
      r := SendUpdateClock();
      if r.Err? {
        return;
      }
      var div: u8 := 0;
      if refClockHz != 0 && target != 0 && target < refClockHz {
        CeilingIsBest(refClockHz, target);
        var raw := CeilDiv(refClockHz, 2 * target);
        div := Min(raw, DIVIDER_MAX);
      }
      Elapse();
      clkdiv := div;
      r := SendUpdateClock();
      if r.Err? {
        return;
      }
      Elapse();
      clkena := true;
      r := SendUpdateClock();
    }

    /** set_clock: every clock of the table is in range. */
    method SetClock(speed: ClockSpeed) returns (r: Result<()>)
      requires Valid()
      modifies this`clkena, this`clkdiv, this`startCmd, this`ciu, this`history
      ensures Valid() && old(history) <= history
      ensures r.Ok? ==> ciu.enable && BestDivider(refClockHz, TargetHz(speed), ciu.divider)
    {
      r := ProgramClock(TargetHz(speed));
    }
  }
}
