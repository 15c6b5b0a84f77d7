/** What a speed selection means for a card that only sees arguments and sends status bytes. */
module LadderTrace {
  import opened Errors
  import opened MachineInts
  import opened Arithmetic
  import opened SdioEvents
  import opened SdLadder

  // Function numbers of access mode group 1, as sections 4.3.10 and 3.9.4 of the SD Physical
  // Layer Specification assign them: 1 high speed, 2 SDR50, 3 SDR104, 4 DDR50.

  /** A CMD6 that switches group 1 to function f and keeps the other groups. */
  predicate Switches(e: Event, f: nat) {
    e.DataIn? && e.c.cmd == 6 && e.c.arg == 0x80FF_FFF0 + f
  }

  /** Byte 13 of the query has the bit of function f, and the voltage permits it. */
  predicate Permitted(status: seq<u8>, f: nat, s18a: bool) {
    |status| == 64 && 1 <= f <= 4 && status[13] / Pow2(f) % 2 == 1 && (f == 1 || s18a)
  }

  function SpeedOf(f: nat): ClockSpeed
    requires 1 <= f <= 4
  {
    if f == 1 then HighSpeed else if f == 2 then Sdr50 else if f == 3 then Sdr104 else Ddr50
  }

  /** The order in which functions are tried: 3, 2, 4, 1. */
  function Turn(f: nat): nat {
    if f == 3 then 0 else if f == 2 then 1 else if f == 4 then 2 else 3
  }

  function ModeOf(f: nat): Mode
    requires 1 <= f <= 4
  {
    if f == 1 then HighSpeedMode else if f == 2 then Sdr50Mode else if f == 3 then Sdr104Mode else Ddr50Mode
  }

  /** A mode entered: for a 1.8 V function CMD11 and the voltage first; the switch to f,
      reported; its clock; a status in tran; for 2 and 3 tuning by CMD19. */
  predicate Entered(ev: seq<Event>, f: nat)
    requires 1 <= f <= 4
  {
    var k := if f == 1 then 0 else 2;
    && |ev| == k + (if f == 2 || f == 3 then 4 else 3)
    && (f != 1 ==>
          && ev[0].Cmd? && ev[0].c.cmd == 11 && ev[0].reply.Ok?
          && ev[1].SetVoltage? && ev[1].voltage == V180 && ev[1].answer.Ok?)
    && SwitchedBy(ev[k], f) && ev[k + 1] == SetClock(SpeedOf(f), true)
    && ev[k + 2].Cmd? && ev[k + 2].c.cmd == 13 && ev[k + 2].reply.Ok?
    && ev[k + 2].reply.value.R1? && ev[k + 2].reply.value.raw / 0x200 % 16 == 4
    && (f == 2 || f == 3 ==> ev[k + 3] == Tune(19, true))
  }

  predicate SwitchedBy(e: Event, f: nat) {
    Switches(e, f) && e.data.Ok? && |e.data.value| == 64 && e.data.value[16] % 16 == f
  }

  /** f was switched to, or, for a 1.8 V function, CMD11 or the voltage switch failed first. */
  ghost predicate Tried(ev: seq<Event>, f: nat) {
    || (exists j :: 0 <= j < |ev| && Switches(ev[j], f))
    || (f != 1 && |ev| == 1 && ev[0].Cmd? && ev[0].c.cmd == 11 && ev[0].reply.Err?)
    || (f != 1 && |ev| == 2 && ev[1].SetVoltage? && ev[1].voltage == V180 && ev[1].answer.Err?)
  }

  /** The mode of function f is all that f says. */
  lemma ModeFits(f: nat)
    requires 1 <= f <= 4
    ensures ModeOf(f).Function() == f && ModeOf(f).Clock() == SpeedOf(f) && Rank(ModeOf(f)) == Turn(f)
    ensures ModeOf(f) == HighSpeedMode <==> f == 1
  {
  }

  lemma FunctionFits(m: Mode)
    ensures 1 <= m.Function() <= 4 && ModeOf(m.Function()) == m
  {
  }

  lemma PermittedIsCandidate(status: seq<u8>, f: nat, s18a: bool)
    requires |status| == STATUS_LEN && 1 <= f <= 4
    ensures Permitted(status, f, s18a) <==> ModeOf(f) in Candidates(status, s18a)
  {
    ModeFits(f);
    CandidateIff(status, s18a, ModeOf(f));
  }

  // ----- Scripts, event by event -----

  /** Events that do not go wrong are the first actions of their script. */
  lemma {:induction false} RunDoes(s: seq<Action>, e: seq<Event>, rca: u16, j: nat)
    requires Run(s, e, rca) != Wrong && j < |e|
    ensures j < |s| && Does(e[j], s[j], rca)
    decreases |s|
  {
    if j > 0 {
      RunDoes(s[1..], e[1..], rca, j - 1);
      assert e[1..][j - 1] == e[j] && s[1..][j - 1] == s[j];
    }
  }

  lemma ScriptSwitches(m: Mode, j: nat)
    requires j < |Script(m)| && Script(m)[j].SwitchTo?
    ensures Script(m)[j] == SwitchTo(m.Function())
  {
  }

  lemma AttemptSwitches(a: Attempt, rca: u16, j: nat)
    requires Follows(a, rca) && j < |a.events| && a.events[j].DataIn?
    ensures Switches(a.events[j], a.mode.Function())
  {
    RunDoes(Script(a.mode), a.events, rca, j);
    ScriptSwitches(a.mode, j);
  }

  /** A failed access script got as far as its switch. */
  lemma FailedAccess(m: Mode, tail: seq<Action>, e: seq<Event>, rca: u16)
    requires Run(AccessScript(m) + tail, e, rca) == Failed
    ensures e != [] && Switches(e[0], m.Function())
  {
    assert (AccessScript(m) + tail)[0] == SwitchTo(m.Function());
  }

  lemma FailedIsTried(a: Attempt, rca: u16)
    requires Follows(a, rca) && !a.passed
    ensures Tried(a.events, a.mode.Function())
  {
    var m, e := a.mode, a.events;
    if m == HighSpeedMode {
      assert AccessScript(m) + [] == Script(m);
      FailedAccess(m, [], e, rca);
    } else {
      UhsSplit(m);
      var s := UhsScript(m);
      assert s[0] == Announce && s[1..] == [GoTo18] + (AccessScript(m) + Tuning(m));
      if Effective(e[0], Announce) {
        assert Run(s[1..], e[1..], rca) == Failed;
        assert s[1..][0] == GoTo18 && s[1..][1..] == AccessScript(m) + Tuning(m);
        if Effective(e[1..][0], GoTo18) {
          FailedAccess(m, Tuning(m), e[1..][1..], rca);
          assert e[2] == e[1..][1..][0];
        }
      }
    }
  }

  lemma PassedIsEntered(a: Attempt, rca: u16)
    requires Follows(a, rca) && a.passed
    ensures 1 <= a.mode.Function() <= 4 && Entered(a.events, a.mode.Function())
  {
    PassedIsComplete(a.mode, a.events, rca);
    FunctionFits(a.mode);
    ModeFits(a.mode.Function());
    var k := if a.mode == HighSpeedMode then 0 else 2;
    assert SwitchedBy(a.events[k], a.mode.Function());
  }

  // ----- The whole selection -----

  lemma {:induction false} FlattenAt(attempts: seq<Attempt>, i: nat) returns (k: nat, j: nat)
    requires i < |Flatten(attempts)|
    ensures k < |attempts| && j < |attempts[k].events| && Flatten(attempts)[i] == attempts[k].events[j]
    decreases |attempts|
  {
    var n := |attempts| - 1;
    var front := Flatten(attempts[..n]);
    if i < |front| {
      k, j := FlattenAt(attempts[..n], i);
    } else {
      k, j := n, i - |front|;
    }
  }

  /** After its query a selection switches only to functions the card's bits permit. */
  lemma OnlyPermittedSwitched(t: seq<Event>, before: seq<Event>, status: seq<u8>, attempts: seq<Attempt>,
                              s18a: bool, rca: u16, speed: Option<ClockSpeed>, i: nat) returns (f: nat)
    requires Selection(t, before, status, attempts, s18a, rca, speed)
    requires |before| < i < |t| && t[i].DataIn?
    ensures Permitted(status, f, s18a) && Switches(t[i], f)
  {
    var k, j := FlattenAt(attempts, i - |before| - 1);
    assert t[i] == attempts[k].events[j];
    AttemptSwitches(attempts[k], rca, j);
    f := attempts[k].mode.Function();
    FunctionFits(attempts[k].mode);
    PermittedIsCandidate(status, f, s18a);
  }

  /** A selected speed is that of a permitted function, switched to and clocked in the last
      attempt; every permitted function before it in turn was tried in an earlier one. */
  lemma FasterTried(t: seq<Event>, before: seq<Event>, status: seq<u8>, attempts: seq<Attempt>,
                    s18a: bool, rca: u16, s: ClockSpeed) returns (f: nat)
    requires Selection(t, before, status, attempts, s18a, rca, Some(s))
    ensures Permitted(status, f, s18a) && s == SpeedOf(f)
    ensures attempts != [] && Entered(attempts[|attempts| - 1].events, f)
    ensures forall g | Permitted(status, g, s18a) && Turn(g) < Turn(f) ::
              exists k :: 0 <= k < |attempts| - 1 && Tried(attempts[k].events, g)
  {
    var n := |attempts| - 1;
    f := attempts[n].mode.Function();
    FunctionFits(attempts[n].mode);
    ModeFits(f);
    PermittedIsCandidate(status, f, s18a);
    PassedIsEntered(attempts[n], rca);
    CandidatesOrdered(status, s18a);
    forall g | Permitted(status, g, s18a) && Turn(g) < Turn(f)
      ensures exists k :: 0 <= k < |attempts| - 1 && Tried(attempts[k].events, g)
    {
      ModeFits(g);
      PermittedIsCandidate(status, g, s18a);
      EarlierTried(attempts, Candidates(status, s18a), rca, ModeOf(g));
      var a :| a in attempts[..n] && a.mode == ModeOf(g) && Run(Script(ModeOf(g)), a.events, rca) == Failed;
      var k :| 0 <= k < n && attempts[k] == a;
      FailedIsTried(Attempt(a.mode, a.events, false), rca);
    }
  }

  /** Without a selected speed every permitted function was tried. */
  lemma AllTried(t: seq<Event>, before: seq<Event>, status: seq<u8>, attempts: seq<Attempt>, s18a: bool, rca: u16, g: nat)
    requires Selection(t, before, status, attempts, s18a, rca, None) && Permitted(status, g, s18a)
    ensures exists k :: 0 <= k < |attempts| && Tried(attempts[k].events, g)
  {
    ModeFits(g);
    PermittedIsCandidate(status, g, s18a);
    var c := Candidates(status, s18a);
    var k :| 0 <= k < |c| && c[k] == ModeOf(g);
    assert attempts[k] in attempts;
    FailedIsTried(attempts[k], rca);
  }
}
