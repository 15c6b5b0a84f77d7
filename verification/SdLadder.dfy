/** SD speed selection: access modes, the script each attempt follows, and what a completed
    selection says about the trace. */
module SdLadder {
  import opened Errors
  import opened MachineInts
  import opened Arithmetic
  import opened Commands
  import opened SdioEvents

  datatype Mode = HighSpeedMode | Sdr50Mode | Sdr104Mode | Ddr50Mode {
    function Function(): u8 {
      match this
      case HighSpeedMode => 1
      case Sdr50Mode => 2
      case Sdr104Mode => 3
      case Ddr50Mode => 4
    }

    function Clock(): ClockSpeed {
      match this
      case HighSpeedMode => HighSpeed
      case Sdr50Mode => Sdr50
      case Sdr104Mode => Sdr104
      case Ddr50Mode => Ddr50
    }

    predicate NeedsTuning() {
      this == Sdr50Mode || this == Sdr104Mode
    }
  }

  const UHS_LADDER: seq<Mode> := [Sdr104Mode, Sdr50Mode, Ddr50Mode]

  // ----- The 64-byte switch status -----

  const STATUS_LEN: nat := 64

  /** access_mode_supported: group 1 advertises a function by its bit of byte 13. */
  predicate Advertised(status: seq<u8>, mode: Mode)
    requires |status| == STATUS_LEN
  {
    Bit(status[13], Pow2(mode.Function()))
  }

  /** The function group 1 is set to. */
  function Selected(status: seq<u8>): u8
    requires |status| == STATUS_LEN
  {
    status[16] % 16
  }

  // ----- Attempts -----

  datatype Action = Announce | GoTo18 | SwitchTo(f: u8) | ClockAt(speed: ClockSpeed) | CheckState | TuneBlock

  function AccessScript(mode: Mode): seq<Action> {
    [SwitchTo(mode.Function()), ClockAt(mode.Clock()), CheckState]
  }

  function UhsScript(mode: Mode): seq<Action> {
    [Announce, GoTo18] + AccessScript(mode) + Tuning(mode)
  }

  function Script(mode: Mode): seq<Action> {
    if mode == HighSpeedMode then AccessScript(mode) else UhsScript(mode)
  }

  /** The event is this action, whatever came of it. */
  predicate Does(e: Event, a: Action, rca: u16) {
    match a
    case Announce => e.Cmd? && e.c == Cmd11
    case GoTo18 => e.SetVoltage? && e.voltage == V180
    case SwitchTo(f) => e.DataIn? && e.c == Cmd6AccessMode(true, f)
    case ClockAt(speed) => e.SetClock? && e.speed == speed
    case CheckState => e.Cmd? && e.c == Cmd13(rca)
    case TuneBlock => e.Tune? && e.index == 19
  }

  /** The action had the effect the script needs. */
  predicate Effective(e: Event, a: Action) {
    match a
    case Announce => e.Cmd? && e.reply.Ok?
    case GoTo18 => e.SetVoltage? && e.answer.Ok?
    case SwitchTo(f) => e.DataIn? && e.data.Ok? && |e.data.value| == STATUS_LEN && Selected(e.data.value) == f
    case ClockAt(_) => e.SetClock? && e.ok
    case CheckState => e.Cmd? && e.reply.Ok? && e.reply.value.R1? && InTransfer(e.reply.value.raw)
    case TuneBlock => e.Tune? && e.ok
  }

  datatype Verdict = Passed | Failed | Wrong

  /** Events against a script: passed if all of it was done with effect, failed if the last
      event is the first action without effect, wrong if they do not follow the script. */
  function Run(script: seq<Action>, events: seq<Event>, rca: u16): Verdict {
    if script == [] then (if events == [] then Passed else Wrong)
    else if events == [] || !Does(events[0], script[0], rca) then Wrong
    else if !Effective(events[0], script[0]) then (if |events| == 1 then Failed else Wrong)
    else Run(script[1..], events[1..], rca)
  }

  lemma {:induction false} RunOn(s: seq<Action>, s': seq<Action>, e: seq<Event>, e': seq<Event>, rca: u16)
    requires Run(s, e, rca) == Passed
    ensures Run(s + s', e + e', rca) == Run(s', e', rca)
    decreases |s|
  {
    if s == [] {
      assert s + s' == s' && e + e' == e';
    } else {
      RunOn(s[1..], s', e[1..], e', rca);
      assert (s + s')[1..] == s[1..] + s' && (e + e')[1..] == e[1..] + e';
    }
  }

  lemma {:induction false} FailsEarly(s: seq<Action>, s': seq<Action>, e: seq<Event>, rca: u16)
    requires Run(s, e, rca) == Failed
    ensures Run(s + s', e, rca) == Failed
    decreases |s|
  {
    if Effective(e[0], s[0]) {
      FailsEarly(s[1..], s', e[1..], rca);
    }
    assert (s + s')[1..] == s[1..] + s';
  }

  lemma RunOne(a: Action, e: Event, rca: u16)
    requires Does(e, a, rca)
    ensures Run([a], [e], rca) == if Effective(e, a) then Passed else Failed
  {
    assert [e][1..] == [] && [a][1..] == [];
  }

  /** One more action after a passed part. */
  lemma RunNext(s: seq<Action>, a: Action, rest: seq<Action>, ev: seq<Event>, e: Event, rca: u16)
    requires Run(s, ev, rca) == Passed && Does(e, a, rca)
    ensures Effective(e, a) ==> Run(s + [a], ev + [e], rca) == Passed
    ensures !Effective(e, a) ==> Run(s + [a] + rest, ev + [e], rca) == Failed
  {
    RunOne(a, e, rca);
    RunOn(s, [a], ev, [e], rca);
    if !Effective(e, a) {
      FailsEarly(s + [a], rest, ev + [e], rca);
    }
  }

  lemma Regroup(t: seq<Event>, e1: Event, e2: Event, more: seq<Event>)
    ensures t + [e1] + [e2] == t + [e1, e2]
    ensures t + [e1] + [e2] + more == t + ([e1, e2] + more)
  {
  }

  lemma RegroupLast(t: seq<Event>, ev: seq<Event>, e: Event)
    ensures t + ev + [e] == t + (ev + [e])
  {
  }

  // The four ways an attempt at a UHS-I mode can end.

  lemma UhsSplit(mode: Mode)
    ensures UhsScript(mode) == [Announce] + ([GoTo18] + AccessScript(mode) + Tuning(mode))
    ensures UhsScript(mode) == [Announce, GoTo18] + (AccessScript(mode) + Tuning(mode))
  {
  }

  function Tuning(mode: Mode): seq<Action> {
    if mode.NeedsTuning() then [TuneBlock] else []
  }

  lemma UhsFailsAtOnce(mode: Mode, e1: Event, rca: u16)
    requires Does(e1, Announce, rca) && !Effective(e1, Announce)
    ensures Run(UhsScript(mode), [e1], rca) == Failed
  {
    UhsSplit(mode);
    RunOne(Announce, e1, rca);
    FailsEarly([Announce], [GoTo18] + AccessScript(mode) + Tuning(mode), [e1], rca);
  }

  lemma RunTwo(e1: Event, e2: Event, rca: u16)
    requires Does(e1, Announce, rca) && Effective(e1, Announce) && Does(e2, GoTo18, rca)
    ensures Run([Announce, GoTo18], [e1, e2], rca) == if Effective(e2, GoTo18) then Passed else Failed
  {
    RunOne(GoTo18, e2, rca);
    assert [Announce, GoTo18][1..] == [GoTo18] && [e1, e2][1..] == [e2];
  }

  lemma UhsFailsAtVoltage(mode: Mode, e1: Event, e2: Event, rca: u16)
    requires Does(e1, Announce, rca) && Effective(e1, Announce) && Does(e2, GoTo18, rca) && !Effective(e2, GoTo18)
    ensures Run(UhsScript(mode), [e1, e2], rca) == Failed
  {
    UhsSplit(mode);
    RunTwo(e1, e2, rca);
    FailsEarly([Announce, GoTo18], AccessScript(mode) + Tuning(mode), [e1, e2], rca);
  }

  lemma UhsAccess(mode: Mode, e1: Event, e2: Event, more: seq<Event>, rca: u16)
    requires Does(e1, Announce, rca) && Effective(e1, Announce) && Does(e2, GoTo18, rca) && Effective(e2, GoTo18)
    ensures Run(AccessScript(mode), more, rca) == Failed ==> Run(UhsScript(mode), [e1, e2] + more, rca) == Failed
    ensures Run(AccessScript(mode), more, rca) == Passed && !mode.NeedsTuning() ==>
              Run(UhsScript(mode), [e1, e2] + more, rca) == Passed
  {
    UhsSplit(mode);
    RunTwo(e1, e2, rca);
    RunOn([Announce, GoTo18], AccessScript(mode) + Tuning(mode), [e1, e2], more, rca);
    if Run(AccessScript(mode), more, rca) == Failed {
      FailsEarly(AccessScript(mode), Tuning(mode), more, rca);
    } else {
      assert AccessScript(mode) + [] == AccessScript(mode);
    }
  }

  lemma UhsTuned(mode: Mode, e1: Event, e2: Event, more: seq<Event>, e: Event, rca: u16)
    requires Does(e1, Announce, rca) && Effective(e1, Announce) && Does(e2, GoTo18, rca) && Effective(e2, GoTo18)
    requires Run(AccessScript(mode), more, rca) == Passed && mode.NeedsTuning() && Does(e, TuneBlock, rca)
    ensures Run(UhsScript(mode), [e1, e2] + more + [e], rca) == if Effective(e, TuneBlock) then Passed else Failed
  {
    UhsSplit(mode);
    RunTwo(e1, e2, rca);
    RunOne(TuneBlock, e, rca);
    RunOn(AccessScript(mode), [TuneBlock], more, [e], rca);
    RunOn([Announce, GoTo18], AccessScript(mode) + [TuneBlock], [e1, e2], more + [e], rca);
    assert [e1, e2] + more + [e] == [e1, e2] + (more + [e]);
  }

  // ----- The ladder -----

  datatype Attempt = Attempt(mode: Mode, events: seq<Event>, passed: bool)

  /** What the card advertises out of a list of modes, in its order. */
  function Offered(modes: seq<Mode>, status: seq<u8>): seq<Mode>
    requires |status| == STATUS_LEN
  {
    if modes == [] then []
    else Offered(modes[..|modes| - 1], status)
         + (if Advertised(status, modes[|modes| - 1]) then [modes[|modes| - 1]] else [])
  }

  /** UHS-I modes only with S18A, HighSpeed last. */
  function Candidates(status: seq<u8>, s18a: bool): seq<Mode>
    requires |status| == STATUS_LEN
  {
    (if s18a then Offered(UHS_LADDER, status) else []) + Offered([HighSpeedMode], status)
  }

  function Flatten(attempts: seq<Attempt>): seq<Event> {
    if attempts == [] then [] else Flatten(attempts[..|attempts| - 1]) + attempts[|attempts| - 1].events
  }

  predicate Follows(a: Attempt, rca: u16) {
    Run(Script(a.mode), a.events, rca) == if a.passed then Passed else Failed
  }

  /** Attempts are the first candidates, in order; only the last can have passed. */
  predicate Climbs(attempts: seq<Attempt>, candidates: seq<Mode>, rca: u16) {
    && |attempts| <= |candidates|
    && forall i | 0 <= i < |attempts| ::
         attempts[i].mode == candidates[i] && Follows(attempts[i], rca) && (attempts[i].passed ==> i == |attempts| - 1)
  }

  /** The outcome of a selection: the clock of the attempt that passed, or none once every
      candidate has failed. */
  predicate Selects(attempts: seq<Attempt>, candidates: seq<Mode>, rca: u16, speed: Option<ClockSpeed>) {
    && Climbs(attempts, candidates, rca)
    && match speed
       case Some(s) => attempts != [] && attempts[|attempts| - 1].passed && s == attempts[|attempts| - 1].mode.Clock()
       case None => |attempts| == |candidates| && AllFailed(attempts)
  }

  predicate AllFailed(attempts: seq<Attempt>) {
    forall a | a in attempts :: !a.passed
  }

  lemma OfferedGrows(modes: seq<Mode>, i: nat, status: seq<u8>)
    requires i < |modes| && |status| == STATUS_LEN
    ensures Offered(modes[..i + 1], status) == Offered(modes[..i], status) + (if Advertised(status, modes[i]) then [modes[i]] else [])
  {
    assert modes[..i + 1][..i] == modes[..i];
  }

  lemma {:induction false} OfferedPrefix(modes: seq<Mode>, i: nat, status: seq<u8>)
    requires i <= |modes| && |status| == STATUS_LEN
    ensures Offered(modes[..i], status) <= Offered(modes, status)
    decreases |modes| - i
  {
    if i < |modes| {
      OfferedGrows(modes, i, status);
      OfferedPrefix(modes, i + 1, status);
    } else {
      assert modes[..i] == modes;
    }
  }

  lemma OneOffered(status: seq<u8>, m: Mode)
    requires |status| == STATUS_LEN
    ensures Offered([m], status) == if Advertised(status, m) then [m] else []
  {
    assert [m][..0] == [];
  }

  lemma NoneOffered(modes: seq<Mode>, status: seq<u8>)
    requires |status| == STATUS_LEN
    ensures Offered(modes[..0], status) == [] && modes[..|modes|] == modes
  {
  }

  lemma FlattenNone(start: seq<Event>)
    ensures start + Flatten([]) == start
  {
  }

  lemma FlattenGrows(start: seq<Event>, attempts: seq<Attempt>, a: Attempt)
    ensures start + Flatten(attempts + [a]) == start + Flatten(attempts) + a.events
  {
    assert (attempts + [a])[..|attempts|] == attempts;
  }

  /** One more attempt, after failures only. */
  lemma ClimbsOn(attempts: seq<Attempt>, candidates: seq<Mode>, a: Attempt, rca: u16)
    requires Climbs(attempts, candidates, rca) && |attempts| == |candidates| && AllFailed(attempts)
    requires Follows(a, rca)
    ensures Climbs(attempts + [a], candidates + [a.mode], rca)
    ensures !a.passed ==> AllFailed(attempts + [a])
  {
  }

  lemma ClimbsLonger(attempts: seq<Attempt>, c: seq<Mode>, c': seq<Mode>, rca: u16)
    requires Climbs(attempts, c, rca) && c <= c'
    ensures Climbs(attempts, c', rca)
  {
  }

  /** One mode further down a list, advertised and attempted. */
  lemma ClimbStep(modes: seq<Mode>, i: nat, status: seq<u8>, attempts: seq<Attempt>, a: Attempt, rca: u16)
    requires i < |modes| && |status| == STATUS_LEN
    requires Selects(attempts, Offered(modes[..i], status), rca, None)
    requires a.mode == modes[i] && Advertised(status, modes[i]) && Follows(a, rca)
    ensures a.passed ==> Selects(attempts + [a], Offered(modes, status), rca, Some(a.mode.Clock()))
    ensures !a.passed ==> Selects(attempts + [a], Offered(modes[..i + 1], status), rca, None)
  {
    OfferedGrows(modes, i, status);
    ClimbsOn(attempts, Offered(modes[..i], status), a, rca);
    OfferedPrefix(modes, i + 1, status);
    if a.passed {
      ClimbsLonger(attempts + [a], Offered(modes[..i + 1], status), Offered(modes, status), rca);
    }
  }

  /** A run that ends with a whole selection: the query, then the attempts it leads to. */
  ghost predicate Selection(t: seq<Event>, before: seq<Event>, status: seq<u8>, attempts: seq<Attempt>,
                            s18a: bool, rca: u16, speed: Option<ClockSpeed>) {
    && |status| == STATUS_LEN
    && t == before + [DataIn(Cmd6AccessMode(false, 0), Ok(status))] + Flatten(attempts)
    && Selects(attempts, Candidates(status, s18a), rca, speed)
  }

  ghost predicate EndsSelected(t: seq<Event>, s18a: bool, rca: u16) {
    exists before, status, attempts, speed :: Selection(t, before, status, attempts, s18a, rca, speed)
  }

  // ----- What a selection means on the trace -----

  /** The last clock the host accepted. */
  function LastClock(t: seq<Event>): Option<ClockSpeed> {
    if t == [] then None
    else
      var e := t[|t| - 1];
      if e.SetClock? && e.ok then Some(e.speed) else LastClock(t[..|t| - 1])
  }

  /** The status of the last CMD6 that switched. */
  function LastSwitch(t: seq<Event>): Option<Result<seq<u8>>> {
    if t == [] then None
    else
      var e := t[|t| - 1];
      if e.DataIn? && e.c.cmd == 6 && e.c.arg >= 0x8000_0000 then Some(e.data) else LastSwitch(t[..|t| - 1])
  }

  lemma {:induction false} LastClockAt(t: seq<Event>, i: nat, speed: ClockSpeed)
    requires i < |t| && t[i] == SetClock(speed, true)
    requires forall j | i < j < |t| :: !t[j].SetClock?
    ensures LastClock(t) == Some(speed)
    decreases |t|
  {
    if i < |t| - 1 {
      LastClockAt(t[..|t| - 1], i, speed);
    }
  }

  lemma {:induction false} LastSwitchAt(t: seq<Event>, i: nat, f: u8, data: Result<seq<u8>>)
    requires i < |t| && t[i] == DataIn(Cmd6AccessMode(true, f), data)
    requires forall j | i < j < |t| :: !t[j].DataIn?
    ensures LastSwitch(t) == Some(data)
    decreases |t|
  {
    if i < |t| - 1 {
      LastSwitchAt(t[..|t| - 1], i, f, data);
    }
  }

  /** A passed attempt, step by step: for UHS-I modes CMD11 and the voltage switch first;
      then the CMD6 status that reports the mode, its clock, tran; then tuning. */
  predicate Complete(ev: seq<Event>, mode: Mode, rca: u16) {
    var k := if mode == HighSpeedMode then 0 else 2;
    && |ev| == k + 3 + (if mode.NeedsTuning() then 1 else 0)
    && (k == 2 ==> ev[0].Cmd? && ev[0].c == Cmd11 && ev[0].reply.Ok? && Does(ev[1], GoTo18, rca) && Effective(ev[1], GoTo18))
    && ev[k].DataIn? && ev[k].c == Cmd6AccessMode(true, mode.Function())
    && Effective(ev[k], SwitchTo(mode.Function()))
    && ev[k + 1] == SetClock(mode.Clock(), true)
    && ev[k + 2].Cmd? && ev[k + 2].c == Cmd13(rca) && Effective(ev[k + 2], CheckState)
    && (mode.NeedsTuning() ==> ev[k + 3] == Tune(19, true))
  }

  /** One step of a passed run. */
  lemma PassedStep(s: seq<Action>, e: seq<Event>, rca: u16)
    requires Run(s, e, rca) == Passed && s != []
    ensures e != [] && Does(e[0], s[0], rca) && Effective(e[0], s[0]) && Run(s[1..], e[1..], rca) == Passed
  {
  }

  lemma PassedAccess(mode: Mode, tail: seq<Action>, e: seq<Event>, rca: u16)
    requires Run(AccessScript(mode) + tail, e, rca) == Passed
    ensures |e| >= 3
    ensures Does(e[0], SwitchTo(mode.Function()), rca) && Effective(e[0], SwitchTo(mode.Function()))
    ensures e[1] == SetClock(mode.Clock(), true)
    ensures Does(e[2], CheckState, rca) && Effective(e[2], CheckState)
    ensures Run(tail, e[3..], rca) == Passed
  {
    var s := AccessScript(mode) + tail;
    PassedStep(s, e, rca);
    PassedStep(s[1..], e[1..], rca);
    PassedStep(s[1..][1..], e[1..][1..], rca);
    assert s[1..][1..][1..] == tail && e[1..][1..][1..] == e[3..];
  }

  lemma PassedIsComplete(mode: Mode, e: seq<Event>, rca: u16)
    requires Run(Script(mode), e, rca) == Passed
    ensures Complete(e, mode, rca)
  {
    var tail := Tuning(mode);
    var rest := e;
    if mode == HighSpeedMode {
      assert Script(mode) == AccessScript(mode) + tail;
    } else {
      var s := Script(mode);
      PassedStep(s, e, rca);
      PassedStep(s[1..], e[1..], rca);
      rest := e[1..][1..];
      assert rest == e[2..];
      assert s[1..][1..] == AccessScript(mode) + tail;
    }
    PassedAccess(mode, tail, rest, rca);
    if mode.NeedsTuning() {
      PassedStep(tail, rest[3..], rca);
    }
  }

  lemma {:induction false} OfferedIff(modes: seq<Mode>, status: seq<u8>, m: Mode)
    requires |status| == STATUS_LEN
    ensures m in Offered(modes, status) <==> m in modes && Advertised(status, m)
    decreases |modes|
  {
    if modes != [] {
      OfferedIff(modes[..|modes| - 1], status, m);
      assert modes == modes[..|modes| - 1] + [modes[|modes| - 1]];
    }
  }

  /** A mode is a candidate exactly when the card advertises it and its voltage is permitted. */
  lemma CandidateIff(status: seq<u8>, s18a: bool, m: Mode)
    requires |status| == STATUS_LEN
    ensures m in Candidates(status, s18a) <==> Advertised(status, m) && (m == HighSpeedMode || s18a)
  {
    OfferedIff(UHS_LADDER, status, m);
    OfferedIff([HighSpeedMode], status, m);
  }

  /** Rank in the ladder: fastest first. */
  function Rank(m: Mode): nat {
    match m
    case Sdr104Mode => 0
    case Sdr50Mode => 1
    case Ddr50Mode => 2
    case HighSpeedMode => 3
  }

  predicate Ordered(s: seq<Mode>) {
    forall i, j | 0 <= i < j < |s| :: Rank(s[i]) < Rank(s[j])
  }

  lemma OrderedConcat(a: seq<Mode>, b: seq<Mode>)
    requires Ordered(a) && Ordered(b)
    requires forall x, y | x in a && y in b :: Rank(x) < Rank(y)
    ensures Ordered(a + b)
  {
    var s := a + b;
    forall i, j | 0 <= i < j < |s|
      ensures Rank(s[i]) < Rank(s[j])
    {
      if i < |a| <= j {
        assert s[i] == a[i] && a[i] in a && s[j] == b[j - |a|] && b[j - |a|] in b;
      }
    }
  }

  lemma {:induction false} OfferedOrdered(modes: seq<Mode>, status: seq<u8>)
    requires |status| == STATUS_LEN && Ordered(modes)
    ensures Ordered(Offered(modes, status))
    decreases |modes|
  {
    if modes != [] {
      var rest, last := modes[..|modes| - 1], modes[|modes| - 1];
      OfferedOrdered(rest, status);
      forall m | m in Offered(rest, status)
        ensures Rank(m) < Rank(last)
      {
        OfferedIff(rest, status, m);
      }
      OrderedConcat(Offered(rest, status), if Advertised(status, last) then [last] else []);
    }
  }

  lemma CandidatesOrdered(status: seq<u8>, s18a: bool)
    requires |status| == STATUS_LEN
    ensures Ordered(Candidates(status, s18a))
  {
    OfferedOrdered(UHS_LADDER, status);
    OfferedOrdered([HighSpeedMode], status);
    forall x, y | x in Offered(UHS_LADDER, status) && y in Offered([HighSpeedMode], status)
      ensures Rank(x) < Rank(y)
    {
      OfferedIff(UHS_LADDER, status, x);
      OfferedIff([HighSpeedMode], status, y);
    }
    OrderedConcat(if s18a then Offered(UHS_LADDER, status) else [], Offered([HighSpeedMode], status));
  }

  /** The last CMD6 that switched answered with group 1 set to f. */
  predicate SwitchReported(t: seq<Event>, f: u8) {
    && LastSwitch(t).Some? && LastSwitch(t).value.Ok?
    && |LastSwitch(t).value.value| == STATUS_LEN && Selected(LastSwitch(t).value.value) == f
  }

  predicate TriedInVain(attempts: seq<Attempt>, m: Mode, rca: u16) {
    exists a | a in attempts :: a.mode == m && Run(Script(m), a.events, rca) == Failed
  }

  /** A selected speed is the last accepted clock; the last switch reported its function;
      and, fastest first, every mode advertised and permitted before it was tried and failed. */
  lemma {:induction false} SelectedSpeed(before: seq<Event>, attempts: seq<Attempt>, status: seq<u8>, s18a: bool, rca: u16, s: ClockSpeed)
    requires |status| == STATUS_LEN && Selects(attempts, Candidates(status, s18a), rca, Some(s))
    ensures var t := before + Flatten(attempts);
            var last := attempts[|attempts| - 1];
            && s == last.mode.Clock() && Complete(last.events, last.mode, rca)
            && LastClock(t) == Some(s) && SwitchReported(t, last.mode.Function())
            && (last.mode != HighSpeedMode ==> s18a)
            && forall m: Mode | Rank(m) < Rank(last.mode) && Advertised(status, m) && (m == HighSpeedMode || s18a) ::
                 TriedInVain(attempts[..|attempts| - 1], m, rca)
  {
    var n := |attempts| - 1;
    var last := attempts[n];
    var c := Candidates(status, s18a);
    PassedIsComplete(last.mode, last.events, rca);
    OnTheTrace(before, attempts, last, rca);
    assert last.mode == c[n];
    CandidateIff(status, s18a, last.mode);
    CandidatesOrdered(status, s18a);
    forall m: Mode | Rank(m) < Rank(last.mode) && Advertised(status, m) && (m == HighSpeedMode || s18a)
      ensures TriedInVain(attempts[..n], m, rca)
    {
      CandidateIff(status, s18a, m);
      EarlierTried(attempts, c, rca, m);
    }
  }

  lemma EarlierTried(attempts: seq<Attempt>, c: seq<Mode>, rca: u16, m: Mode)
    requires attempts != [] && Climbs(attempts, c, rca) && Ordered(c)
    requires m in c && Rank(m) < Rank(attempts[|attempts| - 1].mode)
    ensures TriedInVain(attempts[..|attempts| - 1], m, rca)
  {
    var n := |attempts| - 1;
    var i :| 0 <= i < |c| && c[i] == m;
    assert c[n] == attempts[n].mode;
    assert i < n;
    var a := attempts[i];
    assert a.mode == m && Follows(a, rca) && !a.passed;
    assert a in attempts[..n];
  }

  lemma {:induction false} LastAfter(before: seq<Event>, ev: seq<Event>)
    ensures LastClock(ev).Some? ==> LastClock(before + ev) == LastClock(ev)
    ensures LastSwitch(ev).Some? ==> LastSwitch(before + ev) == LastSwitch(ev)
    decreases |ev|
  {
    if ev != [] {
      LastAfter(before, ev[..|ev| - 1]);
      assert (before + ev)[..|before + ev| - 1] == before + ev[..|ev| - 1];
    }
  }

  lemma OnTheTrace(before: seq<Event>, attempts: seq<Attempt>, last: Attempt, rca: u16)
    requires attempts != [] && last == attempts[|attempts| - 1] && Complete(last.events, last.mode, rca)
    ensures LastClock(before + Flatten(attempts)) == Some(last.mode.Clock())
    ensures SwitchReported(before + Flatten(attempts), last.mode.Function())
  {
    var k := if last.mode == HighSpeedMode then 0 else 2;
    var front := before + Flatten(attempts[..|attempts| - 1]);
    assert before + Flatten(attempts) == front + last.events;
    ReportedAt(last.events, k, last.mode, rca);
    LastAfter(front, last.events);
  }

  lemma ReportedAt(ev: seq<Event>, k: nat, mode: Mode, rca: u16)
    requires Complete(ev, mode, rca) && k == if mode == HighSpeedMode then 0 else 2
    ensures LastClock(ev) == Some(mode.Clock()) && SwitchReported(ev, mode.Function())
  {
    LastClockAt(ev, k + 1, mode.Clock());
    LastSwitchAt(ev, k, mode.Function(), ev[k].data);
  }
}
