/** The SDIO-mode driver: detection, RCA, bus width and speed selection of SD cards and eMMC. */
module SdioDriver {
  import opened Errors
  import opened MachineInts
  import opened Commands
  import opened SdioEvents
  import opened SdioProtocol
  import opened SdioHost
  import opened SdLadder
  import opened Hs200Entry
  import opened MmcOutcome
  import SdioGrammar

  const INIT_TIMEOUT_MS: u32 := 1_000
  const INIT_POLL_MS: u32 := 10
  const SWITCH_TIMEOUT_MS: u32 := 250

  datatype CardInfo = CardInfo(kind: Kind, sdV2: bool, highCapacity: bool, ocr: u32, rca: u16)

  // ----- Specification vocabulary -----

  /** At most so many commands and milliseconds more. */
  predicate Within(s: Seen, s': Seen, commands: nat, ms: nat) {
    s.commands <= s'.commands <= s.commands + commands && s.ms <= s'.ms <= s.ms + ms
  }

  /** Only clocks and voltages have been asked for. */
  predicate SameCard(l: Link, l': Link) {
    && l'.width == l.width && l'.cardWidth == l.cardWidth
    && l'.ocr == l.ocr && l'.echoed == l.echoed && l'.address == l.address
  }

  /** After a successful detection. */
  function Detected(sdV2: bool, ocr: u32): Link {
    NOTHING.link.(widths := [(Bit1, true)], width := Some(Bit1), clocks := [(Identification, true)],
                  clock := Some(Identification), ocr := Some(ocr), echoed := sdV2)
  }

  /** What a fresh driver's eMMC run leaves: driver and host have the same width exactly if the
      card confirmed one or the host took none after the first; an HS200 clock has its timing
      exactly if HS200 was entered or there was nothing to fall back to; a HighSpeed clock has
      its timing. */
  lemma MmcRunAgreesIff(p: MmcPath, sdV2: bool, ocr: u32, rca: u16)
    requires Consistent(p, Bit1)
    ensures var l, recorded := LinkAfter(p, Detected(sdV2, ocr).(address := Some(rca)), Bit1), RecordedWidth(p.w, Bit1);
            && (l.width == Some(recorded) <==> l.cardWidth.Some? || TookNone(l, 1))
            && (l.cardWidth.Some? ==> l.cardWidth == Some(recorded))
            && (l.clock == Some(Hs200) ==> (TimingIs(l, 2) <==> Fast(p.s) || !SupportsHs52(p.ext)))
            && (l.clock == Some(HighSpeed) ==> TimingIs(l, 1))
  {
    var before := Detected(sdV2, ocr).(address := Some(rca));
    WidthsAgreeIff(p, before);
    if LinkAfter(p, before, Bit1).clock == Some(Hs200) {
      Hs200TimingIff(p, before, Bit1);
    } else if LinkAfter(p, before, Bit1).clock == Some(HighSpeed) {
      HighSpeedTiming(p, before, Bit1);
    }
  }

  /** A trace ends with the events of an entry that followed a confirmed HS_TIMING 2. */
  ghost predicate EntryAtEnd(t: seq<Event>, end: Ending, rca: u16) {
    var n := |EventsOf(end, rca)|;
    |t| >= n && t[|t| - n..] == EventsOf(end, rca) && TimingIs(Fold(t[..|t| - n]).link, 2)
  }

  lemma EntryIsAtEnd(t: seq<Event>, end: Ending, rca: u16)
    requires TimingIs(Fold(t).link, 2)
    ensures EntryAtEnd(t + EventsOf(end, rca), end, rca)
  {
    var ev := EventsOf(end, rca);
    var u := t + ev;
    assert u[|u| - |ev|..] == ev && u[..|u| - |ev|] == t;
  }

  /** The run ends with the HS200 entry: HS_TIMING 2 confirmed before it, then clock, tuning
      and a CMD13 that says ready and tran, and nothing after. */
  ghost predicate Hs200Entered(t: seq<Event>, rca: u16) {
    && |t| >= 3
    && t[|t| - 3] == SetClock(Hs200, true)
    && t[|t| - 2] == Tune(21, true)
    && t[|t| - 1].Cmd? && t[|t| - 1].c == Cmd13(rca) && Settled(t[|t| - 1].reply)
    && TimingIs(Fold(t[..|t| - 3]).link, 2)
  }

  lemma EnteredBy(t: seq<Event>, end: Ending, rca: u16)
    requires EntryAtEnd(t, end, rca) && Possible(end) && end.Entered?
    ensures Hs200Entered(t, rca)
  {
    var ev := EventsOf(end, rca);
    assert t[|t| - 3] == t[|t| - 3..][0] && t[|t| - 2] == t[|t| - 3..][1] && t[|t| - 1] == t[|t| - 3..][2];
  }

  /** The last event shows why: the host's error, or CMD13's SWITCH_ERROR. */
  predicate Complains(t: seq<Event>, e: Error) {
    t != [] && t[|t| - 1].Cmd?
    && (t[|t| - 1].reply == Err(e)
        || (&& t[|t| - 1].reply.Ok? && t[|t| - 1].reply.value.R1? && SwitchError(t[|t| - 1].reply.value.raw)
            && e == IllegalCommand))
  }

  lemma AppendThree(t: seq<Event>, a: Event, b: Event, c: Event)
    ensures t + [a] + [b] == t + [a, b] && t + [a] + [b] + [c] == t + [a, b, c]
  {
  }

  lemma AppendLast(t: seq<Event>, s: seq<Event>, e: Event)
    ensures t + s + [e] == t + (s + [e])
  {
  }

  /** What ends a run of init early: a width or clock the host refused, an answer that ends
      the protocol, or an eMMC that did not power up in time. */
  predicate Excused(s: Seen, t: seq<Event>) {
    || s.stage == Over || s.stage.AwaitMmcOpCond?
    || (t != [] && ((t[|t| - 1].SetWidth? && !t[|t| - 1].ok) || (t[|t| - 1].SetClock? && !t[|t| - 1].ok)))
  }

  class SdioSdmmc {
    const host: Host
    var rca: u16
    var highCapacity: bool
    var busWidth: BusWidth
    var kind: Kind
    var speedSelection: bool

    constructor (host: Host)
      ensures this.host == host && rca == 0 && !highCapacity && busWidth == Bit1 && kind == Sd && speedSelection
    {
      this.host := host;
      rca := 0;
      highCapacity := false;
      busWidth := Bit1;
      kind := Sd;
      speedSelection := true;
    }

    // ----- Detection -----

    method CheckCmd8() returns (r: Result<bool>)
      requires host.seen.stage == AwaitProbe
      requires host.Valid()
      modifies host
      ensures host.Valid()
      ensures host.seen.pending == old(host.seen.pending)
      ensures host.seen.stage == AwaitApp(r.Ok? && r.value, false)
      ensures Within(old(host.seen), host.seen, 1, 0)
      ensures host.seen.link == old(host.seen.link).(echoed := r.Ok? && r.value)
    {
      var reply := host.SendCommand(Cmd8(1, 0xAA));
      match reply
      case Ok(R7(raw)) =>
        return Ok(Echoes(raw, 1, 0xAA));
      case Ok(_) =>
        return Ok(false);
      case Err(e) =>
        if e.Timeout? || e.BadResponse? || e.CrcMismatch? {
          return Ok(false);
        }
        return Err(e);
    }

    /** One CMD55 and ACMD41: the OCR it reports. */
    method AskSd(v2: bool) returns (r: Result<u32>)
      requires host.seen.stage.AwaitApp? && host.seen.stage.v2 == v2
      requires host.Valid()
      modifies host
      ensures host.Valid()
      ensures host.seen.pending == old(host.seen.pending)
      ensures r.Ok? ==>
                && host.seen.stage == (if PoweredUp(r.value) then AwaitCid(Sd) else AwaitApp(v2, true))
                && host.seen.commands == old(host.seen.commands) + 2
                && host.trace != [] && host.trace[|host.trace| - 1] == Cmd(Cmd41(v2, OCR_WINDOW, true), Ok(R3(r.value)))
      ensures r.Err? ==> host.seen.stage == AwaitMmcProbe
      ensures Within(old(host.seen), host.seen, 2, 0)
      ensures host.seen.link == old(host.seen.link).(ocr := if r.Ok? then Some(r.value) else old(host.seen.link.ocr))
    {
      var app := host.SendCommand(Cmd55(0));
      if app.Err? {
        return Err(app.error);
      }
      var reply := host.SendCommand(Cmd41(v2, OCR_WINDOW, true));
      match reply
      case Ok(R3(ocr)) => return Ok(ocr);
      case Ok(_) => return Err(BadResponse(ForCmd(Phase.Init, 41)));
      case Err(e) => return Err(e);
    }

    method WaitReadySd(v2: bool) returns (r: Result<u32>)
      requires host.seen.stage == AwaitApp(v2, false)
      requires host.Valid()
      modifies host
      ensures host.Valid()
      ensures host.seen.pending == old(host.seen.pending)
      ensures r.Ok? ==>
                && host.seen.stage == AwaitCid(Sd) && PoweredUp(r.value)
                && host.trace != [] && host.trace[|host.trace| - 1] == Cmd(Cmd41(v2, OCR_WINDOW, true), Ok(R3(r.value)))
      ensures r.Err? ==>
                || host.seen.stage == AwaitMmcProbe
                || (&& host.seen.stage == AwaitApp(v2, true) && r == Err(Timeout(ForCmd(Phase.Init, 41)))
                    && host.seen.ms == old(host.seen.ms) + INIT_TIMEOUT_MS)
      ensures Within(old(host.seen), host.seen, 202, INIT_TIMEOUT_MS)
      ensures host.seen.link == old(host.seen.link).(ocr := host.seen.link.ocr) && (r.Ok? ==> host.seen.link.ocr == Some(r.value))
    {
      var elapsed := 0;
      ghost var polls := 0;
      while true
        invariant host.Valid()
        invariant host.seen.pending == old(host.seen.pending)
        invariant elapsed == INIT_POLL_MS * polls && elapsed <= INIT_TIMEOUT_MS
        invariant host.seen.stage == AwaitApp(v2, elapsed > 0)
        invariant host.seen.commands == old(host.seen).commands + 2 * polls
        invariant host.seen.ms == old(host.seen).ms + elapsed
        invariant host.seen.link == old(host.seen.link).(ocr := host.seen.link.ocr)
        decreases INIT_TIMEOUT_MS - elapsed
      {
        r := AskSd(v2);
        if r.Err? || PoweredUp(r.value) {
          return;
        }
        if elapsed >= INIT_TIMEOUT_MS {
          return Err(Timeout(ForCmd(Phase.Init, 41)));
        }
        host.DelayMs(INIT_POLL_MS);
        elapsed := SaturatingAddU32(elapsed, INIT_POLL_MS);
        polls := polls + 1;
      }
    }

    method WaitReadyMmc() returns (r: Result<u32>)
      requires host.seen.stage == AwaitMmcProbe || (exists v2 :: host.seen.stage == AwaitApp(v2, true))
      requires host.Valid()
      modifies host
      ensures host.Valid()
      ensures host.seen.pending == old(host.seen.pending)
      ensures r.Ok? ==> host.seen.stage == AwaitCid(Mmc) && PoweredUp(r.value)
      ensures r.Err? ==>
                || host.seen.stage == Over
                || (&& host.seen.stage.AwaitMmcOpCond? && r == Err(Timeout(ForCmd(Phase.Init, 1)))
                    && host.seen.ms == old(host.seen.ms) + INIT_TIMEOUT_MS)
      ensures Within(old(host.seen), host.seen, 102, INIT_TIMEOUT_MS)
      ensures host.seen.link == old(host.seen.link).(ocr := host.seen.link.ocr) && (r.Ok? ==> host.seen.link.ocr == Some(r.value))
    {
      var reply := host.SendCommand(Cmd1(0));
      if reply.Err? {
        return Err(reply.error);
      }
      if !reply.value.R3? {
        return Err(BadResponse(ForCmd(Phase.Init, 1)));
      }
      var first := reply.value.raw;
      if PoweredUp(first) {
        return Ok(first);
      }
      var arg := MmcOpCondArg(first);
      var elapsed := 0;
      ghost var polls := 0;
      while true
        invariant host.Valid()
        invariant host.seen.pending == old(host.seen.pending)
        invariant elapsed == INIT_POLL_MS * polls && elapsed <= INIT_TIMEOUT_MS
        invariant host.seen.stage == AwaitMmcOpCond(arg)
        invariant host.seen.commands == old(host.seen).commands + 1 + polls
        invariant host.seen.ms == old(host.seen).ms + elapsed
        invariant host.seen.link == old(host.seen.link).(ocr := host.seen.link.ocr)
        decreases INIT_TIMEOUT_MS - elapsed
      {
        reply := host.SendCommand(Cmd1(arg));
        match reply {
          case Ok(R3(ocr)) =>
            if PoweredUp(ocr) {
              return Ok(ocr);
            }
          case Ok(_) =>
            return Err(BadResponse(ForCmd(Phase.Init, 1)));
          case Err(e) =>
            return Err(e);
        }
        if elapsed >= INIT_TIMEOUT_MS {
          return Err(Timeout(ForCmd(Phase.Init, 1)));
        }
        host.DelayMs(INIT_POLL_MS);
        elapsed := SaturatingAddU32(elapsed, INIT_POLL_MS);
        polls := polls + 1;
      }
    }

    method GetRcaSd() returns (r: Result<u16>)
      requires host.seen.stage == AwaitRca(Sd)
      requires host.Valid()
      modifies host
      ensures host.Valid()
      ensures host.seen.pending == old(host.seen.pending)
      ensures host.seen.stage == if r.Ok? then AwaitCsd(Sd, r.value) else Over
      ensures Within(old(host.seen), host.seen, 1, 0)
      ensures host.seen.link == old(host.seen.link).(address := host.seen.link.address) && (r.Ok? ==> host.seen.link.address == Some(r.value))
    {
      var reply := host.SendCommand(Cmd3Sd);
      match reply
      case Ok(R6(raw)) => return Ok(PublishedRca(raw));
      case Ok(_) => return Err(BadResponse(ForCmd(Phase.Init, 3)));
      case Err(e) => return Err(e);
    }

    method AssignRcaMmc(rca: u16) returns (r: Result<u16>)
      requires host.seen.stage == AwaitRca(Mmc) && rca == 1
      requires host.Valid()
      modifies host
      ensures host.Valid()
      ensures host.seen.pending == old(host.seen.pending)
      ensures host.seen.stage == if r.Ok? then AwaitCsd(Mmc, rca) else Over
      ensures r.Ok? ==> r.value == rca
      ensures Within(old(host.seen), host.seen, 1, 0)
      ensures host.seen.link == old(host.seen.link).(address := host.seen.link.address) && (r.Ok? ==> host.seen.link.address == Some(r.value))
    {
      var reply := host.SendCommand(Cmd3Mmc(rca));
      match reply
      case Ok(R1(_)) => return Ok(rca);
      case Ok(_) => return Err(BadResponse(ForCmd(Phase.Init, 3)));
      case Err(e) => return Err(e);
    }

    // ----- eMMC: EXT_CSD, SWITCH, width and HS200 -----

    method ReadExtCsd() returns (r: Result<seq<u8>>)
      requires host.seen.stage == AwaitExtCsd(rca)
      requires host.Valid()
      modifies host
      ensures host.Valid()
      ensures r.Ok? ==> |r.value| == EXT_CSD_LEN
      ensures host.seen.stage == if r.Ok? then MmcSwitching(rca) else Over
      ensures Within(old(host.seen), host.seen, 1, 0) && host.seen.link == old(host.seen.link)
    {
      r := host.ReadData(Cmd8Mmc, EXT_CSD_LEN);
    }

    /** Writes one EXT_CSD byte and polls CMD13: Ok exactly when the write was confirmed;
        otherwise the last answer or the whole time limit is to blame. */
    method MmcSwitchWriteByte(index: u8, value: u8) returns (r: Result<()>)
      requires host.seen.stage == MmcSwitching(rca)
      requires index == HS_TIMING || (index == BUS_WIDTH && ByteWidth(value).Some?)
      requires host.Valid()
      modifies host
      ensures host.Valid()
      ensures host.seen.stage == MmcSwitching(rca)
      ensures Within(old(host.seen), host.seen, 27, SWITCH_TIMEOUT_MS)
      ensures r.Err? ==>
                || Complains(host.trace, r.error)
                || (r == Err(Timeout(ForCmd(Phase.Init, 6))) && host.seen.ms == old(host.seen.ms) + SWITCH_TIMEOUT_MS)
      ensures r.Ok? ==> host.seen.pending == None
      ensures host.seen.link == AfterSwitch(old(host.seen.link), index, value, r.Ok?)
    {
      SwitchDecodes(index, value);
      var reply := host.SendCommand(Cmd6MmcSwitch(WRITE_BYTE, index, value));
      if reply.Err? {
        return Err(reply.error);
      }
      r := AwaitSwitch(index, value);
    }

    /** The CMD13 loop of mmc_switch. */
    method AwaitSwitch(index: u8, value: u8) returns (r: Result<()>)
      requires host.seen.stage == MmcSwitching(rca) && host.seen.pending == Some(Write(index, value))
      requires host.Valid()
      modifies host
      ensures host.Valid()
      ensures host.seen.stage == MmcSwitching(rca)
      ensures Within(old(host.seen), host.seen, 26, SWITCH_TIMEOUT_MS)
      ensures r.Err? ==>
                || Complains(host.trace, r.error)
                || (r == Err(Timeout(ForCmd(Phase.Init, 6))) && host.seen.ms == old(host.seen.ms) + SWITCH_TIMEOUT_MS)
      ensures r.Ok? ==> host.seen.pending == None
      ensures host.seen.link == if r.Ok? then Confirmed(old(host.seen.link), Write(index, value)) else old(host.seen.link)
    {
      var elapsed := 0;
      ghost var polls := 0;
      while true
        invariant host.Valid()
        invariant elapsed == INIT_POLL_MS * polls && elapsed <= SWITCH_TIMEOUT_MS
        invariant host.seen.stage == MmcSwitching(rca) && host.seen.pending == Some(Write(index, value))
        invariant host.seen.commands == old(host.seen).commands + polls
        invariant host.seen.ms == old(host.seen).ms + elapsed
        invariant host.seen.link == old(host.seen.link)
        decreases SWITCH_TIMEOUT_MS - elapsed
      {
        var reply := host.SendCommand(Cmd13(rca));
        if reply.Err? {
          return Err(reply.error);
        }
        if reply.value.R1? {
          if SwitchError(reply.value.raw) {
            return Err(IllegalCommand);
          }
          if ReadyForData(reply.value.raw) && InTransfer(reply.value.raw) {
            return Ok(());
          }
        }
        if elapsed >= SWITCH_TIMEOUT_MS {
          return Err(Timeout(ForCmd(Phase.Init, 6)));
        }
        host.DelayMs(INIT_POLL_MS);
        elapsed := SaturatingAddU32(elapsed, INIT_POLL_MS);
        polls := polls + 1;
      }
    }

    /** Ok: host and card agree on the width the driver records. The card is asked only once
        the host has `taken` the width. */
    method SetBusWidthMmc(width: BusWidth) returns (r: Result<()>, ghost taken: bool)
      requires host.seen.stage == MmcSwitching(rca)
      requires host.Valid()
      modifies this`busWidth, host
      ensures host.Valid()
      ensures host.seen.stage == MmcSwitching(rca)
      ensures Within(old(host.seen), host.seen, 27, SWITCH_TIMEOUT_MS)
      ensures busWidth == if r.Ok? then width else old(busWidth)
      ensures r.Ok? ==> taken
      ensures host.seen.link == AfterWidening(old(host.seen.link), width, taken, r.Ok?)
    {
      var value := WidthByte(width);
      r := host.SetBusWidth(width);
      taken := r.Ok?;
      if r.Err? {
        return;
      }
      r := MmcSwitchWriteByte(BUS_WIDTH, value);
      if r.Err? {
        return;
      }
      busWidth := width;
    }

    method RollbackToHsCompat() returns (ghost back: bool)
      requires host.Valid()
      modifies host
      ensures host.Valid()
      ensures host.trace == old(host.trace) + [SetClock(DefaultSpeed, back)]
      ensures host.seen == old(host.seen).(link := AfterClock(old(host.seen.link), DefaultSpeed, back))
    {
      var r := host.SetClockSpeed(DefaultSpeed);
      back := r.Ok?;
    }

    /** `volt` is the host's answer to 1.8 V, `end` how the entry ended once HS_TIMING 2 was
        confirmed. A host that does not support the voltage switch is tolerated, no other
        error. */
    method TryHs200(width: BusWidth) returns (r: Result<()>, ghost volt: Result<()>, ghost end: Option<Ending>)
      requires host.seen.stage == MmcSwitching(rca)
      requires host.Valid()
      modifies host
      ensures host.Valid()
      ensures host.seen.stage == MmcSwitching(rca)
      ensures Within(old(host.seen), host.seen, 28, SWITCH_TIMEOUT_MS)
      ensures width == Bit1 ==> r.Err? && host.seen == old(host.seen) && end == None
      ensures width != Bit1 ==>
                host.seen.link == AfterHs200(old(host.seen.link), volt, end)
      ensures end.Some? ==>
                && Tolerated(volt) && Possible(end.value) && r == ResultOf(end.value)
                && EntryAtEnd(host.trace, end.value, rca)
      ensures end.None? ==> r.Err?
    {
      end := None;
      volt := Ok(());
      if width == Bit1 {
        return Err(UnsupportedCommand), volt, end;
      }
      r := host.SwitchVoltage(V180);
      volt := r;
      if r.Err? && r.error != UnsupportedCommand {
        return;
      }
      r := MmcSwitchWriteByte(HS_TIMING, 2);
      if r.Err? {
        return;
      }
      ghost var e, t := NoStatus(UnsupportedCommand), host.trace;
      host.Audit();
      r, e := FollowToHs200();
      EntryIsAtEnd(t, e, rca);
      end := Some(e);
    }

    /** Clock, tuning and check, once the card has switched: exactly the events of the ending,
        the roll-backs among them. */
    method FollowToHs200() returns (r: Result<()>, ghost end: Ending)
      requires host.seen.stage == MmcSwitching(rca) && host.seen.pending == None
      requires host.Valid()
      modifies host
      ensures host.Valid()
      ensures Possible(end) && r == ResultOf(end)
      ensures host.trace == old(host.trace) + EventsOf(end, rca)
      ensures host.seen.stage == MmcSwitching(rca) && Within(old(host.seen), host.seen, 1, 0)
      ensures host.seen.link == AfterEntry(old(host.seen.link), end)
    {
      ghost var t := host.trace;
      ghost var back;
      r := host.SetClockSpeed(Hs200);
      if r.Err? {
        back := RollbackToHsCompat();
        end := ClockRefused(r.error, back);
        AppendThree(t, SetClock(Hs200, false), SetClock(DefaultSpeed, back), SetClock(DefaultSpeed, back));
        return;
      }
      r := host.ExecuteTuning(21);
      if r.Err? {
        back := RollbackToHsCompat();
        end := NotTuned(r.error, back);
        AppendThree(t, SetClock(Hs200, true), Tune(21, false), SetClock(DefaultSpeed, back));
        return;
      }
      var reply := host.SendCommand(Cmd13(rca));
      AppendThree(t, SetClock(Hs200, true), Tune(21, true), Cmd(Cmd13(rca), reply));
      if reply.Err? {
        end := NoStatus(reply.error);
        return Err(reply.error), end;
      }
      if reply.value.R1? && ReadyForData(reply.value.raw) && InTransfer(reply.value.raw) {
        end := Entered(reply.value);
        return Ok(()), end;
      }
      back := RollbackToHsCompat();
      end := NotSettled(reply.value, back);
      AppendLast(t, [SetClock(Hs200, true), Tune(21, true), Cmd(Cmd13(rca), reply)], SetClock(DefaultSpeed, back));
      return Err(BadResponse(ForCmd(Phase.Init, 13))), end;
    }

    // ----- SD: width and speed ladder -----

    method SetBusWidthSd(width: BusWidth) returns (r: Result<()>)
      requires host.seen.stage == AwaitWidthApp(rca)
      requires host.Valid()
      modifies this`busWidth, host
      ensures host.Valid()
      ensures host.seen.stage == AwaitQuery(rca) || (r.Err? && (host.seen.stage == AwaitWidth(rca) || host.seen.stage == Over))
      ensures r.Err? && width != Bit8 ==> Excused(host.seen, host.trace)
      ensures Within(old(host.seen), host.seen, 2, 0)
      ensures busWidth == if r.Ok? then width else old(busWidth)
      ensures r.Ok? ==> host.seen.link.width == Some(width) && host.seen.link.cardWidth == Some(width)
      ensures var l := host.seen.link;
              l == old(host.seen.link).(widths := l.widths, width := l.width, cardWidth := l.cardWidth)
      ensures r.Ok? ==> host.seen.link.widths == old(host.seen.link.widths) + [(width, true)]
      ensures old(host.seen.pending) == None ==> host.seen.pending == None
    {
      var reply := host.SendCommand(Cmd55(rca));
      if reply.Err? {
        return Err(reply.error);
      }
      if width == Bit8 {
        return Err(UnsupportedCommand);
      }
      reply := host.SendCommand(Acmd6(if width == Bit1 then 0 else 2));
      if reply.Err? {
        return Err(reply.error);
      }
      r := host.SetBusWidth(width);
      if r.Err? {
        return;
      }
      busWidth := width;
    }

    /** status: CURRENT_STATE is tran, or not. */
    method InTransferState() returns (r: Result<bool>)
      requires host.seen.stage == SdSpeed(rca)
      requires host.seen.pending == None
      requires host.Valid()
      modifies host
      ensures host.Valid()
      ensures host.seen.stage == old(host.seen.stage) && Within(old(host.seen), host.seen, 1, 0)
      ensures SameCard(old(host.seen.link), host.seen.link) && host.seen.pending == None
      ensures |host.trace| == |old(host.trace)| + 1
      ensures var e := host.trace[|host.trace| - 1];
              && host.trace == old(host.trace) + [e] && Does(e, CheckState, rca)
              && (Effective(e, CheckState) <==> r == Ok(true))
    {
      var reply := host.SendCommand(Cmd13(rca));
      match reply
      case Ok(R1(raw)) => return Ok(InTransfer(raw));
      case Ok(_) => return Err(BadResponse(ForCmd(Phase.ResponseWait, 13)));
      case Err(e) => return Err(e);
    }

    /** The switch, the clock and the check; the events are what the script of the mode asks. */
    method TrySdAccessMode(mode: Mode) returns (r: Result<()>, ghost ev: seq<Event>)
      requires host.seen.stage == SdSpeed(rca)
      requires host.seen.pending == None
      requires host.Valid()
      modifies host
      ensures host.Valid()
      ensures host.seen.stage == SdSpeed(rca) && Within(old(host.seen), host.seen, 2, 0)
      ensures SameCard(old(host.seen.link), host.seen.link) && host.seen.pending == None
      ensures host.trace == old(host.trace) + ev
      ensures Run(AccessScript(mode), ev, rca) == if r.Ok? then Passed else Failed
    {
      var f := mode.Function();
      ghost var s := [SwitchTo(f), ClockAt(mode.Clock()), CheckState];
      var status := host.ReadData(Cmd6AccessMode(true, f), STATUS_LEN);
      ev := [DataIn(Cmd6AccessMode(true, f), status)];
      RunNext([], s[0], s[1..], [], ev[0], rca);
      assert [] + [s[0]] + s[1..] == s && [] + ev == ev && [] + [s[0]] == [s[0]];
      if status.Err? {
        return Err(status.error), ev;
      }
      if Selected(status.value) != f {
        return Err(BadResponse(ForCmd(Phase.Init, 6))), ev;
      }
      r := host.SetClockSpeed(mode.Clock());
      RunNext([s[0]], s[1], [s[2]], ev, SetClock(mode.Clock(), r.Ok?), rca);
      assert [s[0]] + [s[1]] + [s[2]] == s;
      ev := ev + [SetClock(mode.Clock(), r.Ok?)];
      if r.Err? {
        return;
      }
      var ready := InTransferState();
      ghost var e := host.trace[|host.trace| - 1];
      RunNext([s[0]] + [s[1]], s[2], [], ev, e, rca);
      assert [s[0]] + [s[1]] + [s[2]] + [] == s;
      ev := ev + [e];
      if ready.Err? {
        r := Err(ready.error);
      } else if !ready.value {
        r := Err(BadResponse(ForCmd(Phase.Init, 13)));
      } else {
        r := Ok(());
      }
    }

    method TrySdUhsMode(mode: Mode) returns (r: Result<()>, ghost ev: seq<Event>)
      requires host.seen.stage == SdSpeed(rca)
      requires host.seen.pending == None
      requires host.Valid()
      modifies host
      ensures host.Valid()
      ensures host.seen.stage == SdSpeed(rca) && Within(old(host.seen), host.seen, 3, 0)
      ensures SameCard(old(host.seen.link), host.seen.link) && host.seen.pending == None
      ensures host.trace == old(host.trace) + ev
      ensures Run(UhsScript(mode), ev, rca) == if r.Ok? then Passed else Failed
    {
      var reply := host.SendCommand(Cmd11);
      ghost var e1 := Cmd(Cmd11, reply);
      ev := [e1];
      if reply.Err? {
        UhsFailsAtOnce(mode, e1, rca);
        return Err(reply.error), ev;
      }
      r := host.SwitchVoltage(V180);
      ghost var e2 := SetVoltage(V180, r);
      ev := [e1, e2];
      Regroup(old(host.trace), e1, e2, []);
      if r.Err? {
        UhsFailsAtVoltage(mode, e1, e2, rca);
        return;
      }
      ghost var more;
      r, more := TrySdAccessMode(mode);
      ev := [e1, e2] + more;
      Regroup(old(host.trace), e1, e2, more);
      UhsAccess(mode, e1, e2, more, rca);
      if r.Err? {
        return;
      }
      if mode.NeedsTuning() {
        r := host.ExecuteTuning(19);
        ghost var e := Tune(19, r.Ok?);
        UhsTuned(mode, e1, e2, more, e, rca);
        RegroupLast(old(host.trace), ev, e);
        ev := ev + [e];
      }
    }

    /** One UHS-I mode, if the card advertises it; whether it passed. */
    method TryCandidate(mode: Mode, i: nat, status: seq<u8>, ghost start: seq<Event>, ghost before: seq<Attempt>)
      returns (passed: bool, ghost attempts: seq<Attempt>)
      requires i < |UHS_LADDER| && mode == UHS_LADDER[i] && |status| == STATUS_LEN
      requires host.Valid() && host.seen.stage == SdSpeed(rca) && host.seen.pending == None
      requires host.trace == start + Flatten(before) && Selects(before, Offered(UHS_LADDER[..i], status), rca, None)
      modifies host
      ensures host.Valid()
      ensures host.seen.stage == SdSpeed(rca) && Within(old(host.seen), host.seen, 3, 0)
      ensures SameCard(old(host.seen.link), host.seen.link) && host.seen.pending == None
      ensures host.trace == start + Flatten(attempts)
      ensures passed ==> Selects(attempts, Offered(UHS_LADDER, status), rca, Some(mode.Clock()))
      ensures !passed ==> Selects(attempts, Offered(UHS_LADDER[..i + 1], status), rca, None)
    {
      OfferedGrows(UHS_LADDER, i, status);
      passed, attempts := false, before;
      if Advertised(status, mode) {
        var tried, ev := TrySdUhsMode(mode);
        ghost var a := Attempt(mode, ev, tried.Ok?);
        FlattenGrows(start, before, a);
        ClimbStep(UHS_LADDER, i, status, before, a, rca);
        attempts := before + [a];
        passed := tried.Ok?;
      }
    }

    /** The UHS-I part: every advertised mode in turn until one passes. */
    method ClimbUhs(status: seq<u8>) returns (speed: Option<ClockSpeed>, ghost attempts: seq<Attempt>)
      requires host.seen.stage == SdSpeed(rca) && |status| == STATUS_LEN
      requires host.seen.pending == None
      requires host.Valid()
      modifies host
      ensures host.Valid()
      ensures host.seen.stage == SdSpeed(rca) && Within(old(host.seen), host.seen, 9, 0)
      ensures SameCard(old(host.seen.link), host.seen.link) && host.seen.pending == None
      ensures host.trace == old(host.trace) + Flatten(attempts)
      ensures Selects(attempts, Offered(UHS_LADDER, status), rca, speed)
    {
      attempts := [];
      FlattenNone(host.trace);
      NoneOffered(UHS_LADDER, status);
      var i := 0;
      while i < |UHS_LADDER|
        invariant host.Valid()
        invariant 0 <= i <= 3
        invariant host.seen.stage == SdSpeed(rca)
        invariant Within(old(host.seen), host.seen, 3 * i, 0)
        invariant SameCard(old(host.seen.link), host.seen.link) && host.seen.pending == None
        invariant host.trace == old(host.trace) + Flatten(attempts)
        invariant Selects(attempts, Offered(UHS_LADDER[..i], status), rca, None)
      {
        var mode := UHS_LADDER[i];
        var tried;
        tried, attempts := TryCandidate(mode, i, status, old(host.trace), attempts);
        if tried {
          return Some(mode.Clock()), attempts;
        }
        i := i + 1;
      }
      speed := None;
    }

    /** The last rung: HighSpeed, if the card advertises it. */
    method TryHighSpeed(ghost uhs: seq<Mode>, status: seq<u8>, ghost start: seq<Event>, ghost before: seq<Attempt>)
      returns (speed: Option<ClockSpeed>, ghost attempts: seq<Attempt>)
      requires |status| == STATUS_LEN
      requires host.Valid() && host.seen.stage == SdSpeed(rca) && host.seen.pending == None
      requires host.trace == start + Flatten(before) && Selects(before, uhs, rca, None)
      modifies host
      ensures host.Valid()
      ensures host.seen.stage == SdSpeed(rca) && Within(old(host.seen), host.seen, 2, 0)
      ensures SameCard(old(host.seen.link), host.seen.link) && host.seen.pending == None
      ensures host.trace == start + Flatten(attempts)
      ensures Selects(attempts, uhs + Offered([HighSpeedMode], status), rca, speed)
    {
      speed, attempts := None, before;
      OneOffered(status, HighSpeedMode);
      if Advertised(status, HighSpeedMode) {
        var tried, ev := TrySdAccessMode(HighSpeedMode);
        ghost var a := Attempt(HighSpeedMode, ev, tried.Ok?);
        FlattenGrows(start, before, a);
        ClimbsOn(before, uhs, a, rca);
        attempts := before + [a];
        speed := if tried.Ok? then Some(HighSpeed) else None;
      }
    }

    /** The ladder, fastest first, over what the card advertises and its voltage permits. */
    method TrySdBestSpeedInner(ocr: u32) returns (r: Result<Option<ClockSpeed>>, ghost status: seq<u8>, ghost attempts: seq<Attempt>)
      requires host.seen.stage == AwaitQuery(rca)
      requires host.seen.pending == None
      requires host.Valid()
      modifies host
      ensures host.Valid()
      ensures host.seen.stage == (if r.Ok? then SdSpeed(rca) else Over) && Within(old(host.seen), host.seen, 12, 0)
      ensures SameCard(old(host.seen.link), host.seen.link) && host.seen.pending == None
      ensures r.Ok? ==> Selection(host.trace, old(host.trace), status, attempts, Accepts18(ocr), rca, r.value)
    {
      var q := host.ReadData(Cmd6AccessMode(false, 0), STATUS_LEN);
      attempts := [];
      status := [];
      if q.Err? {
        return Err(q.error), status, attempts;
      }
      status := q.value;
      ghost var start := host.trace;
      FlattenNone(start);
      ghost var uhs := if Accepts18(ocr) then Offered(UHS_LADDER, status) else [];
      if Accepts18(ocr) {
        var speed;
        speed, attempts := ClimbUhs(q.value);
        if speed.Some? {
          ClimbsLonger(attempts, uhs, Candidates(status, true), rca);
          return Ok(speed), status, attempts;
        }
      }
      var speed;
      speed, attempts := TryHighSpeed(uhs, q.value, start, attempts);
      return Ok(speed), status, attempts;
    }

    method TrySdBestSpeed(ocr: u32)
      requires host.seen.stage == AwaitQuery(rca)
      requires host.seen.pending == None
      requires host.Valid()
      modifies host
      ensures host.Valid()
      ensures host.seen.stage == Over || (host.seen.stage == SdSpeed(rca) && EndsSelected(host.trace, Accepts18(ocr), rca))
      ensures Within(old(host.seen), host.seen, 12, 0)
      ensures SameCard(old(host.seen.link), host.seen.link) && host.seen.pending == None
    {
      var r, status, attempts := TrySdBestSpeedInner(ocr);
    }

    // ----- Bring-up -----

    /** One bit, the identification clock, CMD0. */
    method Reset() returns (r: Result<()>)
      requires host.Valid() && host.seen == NOTHING
      modifies host
      ensures host.Valid()
      ensures host.seen.stage != Illegal && Within(NOTHING, host.seen, 1, 0) && host.seen.pending == None
      ensures r.Err? ==> Excused(host.seen, host.trace)
      ensures r.Ok? ==> host.seen.stage == AwaitProbe
      ensures r.Ok? ==> host.seen.link == AfterClock(AfterWidth(NOTHING.link, Bit1, true), Identification, true)
    {
      r := host.SetBusWidth(Bit1);
      if r.Err? {
        return;
      }
      r := host.SetClockSpeed(Identification);
      if r.Err? {
        return;
      }
      var reset := host.SendCommand(Cmd0);
      if reset.Err? {
        return Err(reset.error);
      }
    }

    /** CMD0, CMD8, ACMD41, and CMD1 if ACMD41 does not bring an SD card up. The operating
        conditions are the last the card reported, v2 whether it echoed CMD8. */
    method Detect() returns (r: Result<(Kind, bool, u32)>)
      requires host.seen == NOTHING
      requires host.Valid()
      modifies host
      ensures host.Valid()
      ensures host.seen.pending == old(host.seen.pending)
      ensures host.seen.stage != Illegal && Within(NOTHING, host.seen, 306, 2 * INIT_TIMEOUT_MS)
      ensures r.Err? ==> Excused(host.seen, host.trace)
      ensures r.Ok? ==> host.seen.stage == AwaitCid(r.value.0) && PoweredUp(r.value.2)
      ensures r.Ok? ==> host.seen.link == Detected(r.value.1, r.value.2)
    {
      var reset := Reset();
      if reset.Err? {
        return Err(reset.error);
      }
      var probe := CheckCmd8();
      var sdV2 := probe.Ok? && probe.value;
      var sd := WaitReadySd(sdV2);
      if sd.Ok? {
        return Ok((Sd, sdV2, sd.value));
      }
      var mmc := WaitReadyMmc();
      if mmc.Err? {
        return Err(mmc.error);
      }
      return Ok((Mmc, sdV2, mmc.value));
    }

    /** CMD2 and CMD3. */
    method Address(kind: Kind) returns (r: Result<()>)
      requires host.seen.stage == AwaitCid(kind)
      requires host.Valid()
      modifies this`rca, host
      ensures host.Valid()
      ensures host.seen.pending == old(host.seen.pending)
      ensures host.seen.stage == if r.Ok? then AwaitCsd(kind, rca) else Over
      ensures r.Ok? && kind == Mmc ==> rca == 1
      ensures Within(old(host.seen), host.seen, 2, 0)
      ensures host.seen.link == old(host.seen.link).(address := host.seen.link.address) && (r.Ok? ==> host.seen.link.address == Some(rca))
    {
      var cid := host.SendCommand(Cmd2);
      if cid.Err? {
        return Err(cid.error);
      }
      var address;
      if kind == Sd {
        address := GetRcaSd();
      } else {
        address := AssignRcaMmc(1);
      }
      if address.Err? {
        return Err(address.error);
      }
      rca := address.value;
      r := Ok(());
    }

    /** CMD2, CMD3, CMD9, CMD7. */
    method Identify(kind: Kind) returns (r: Result<()>)
      requires host.seen.stage == AwaitCid(kind)
      requires host.Valid()
      modifies this`rca, host
      ensures host.Valid()
      ensures host.seen.pending == old(host.seen.pending)
      ensures host.seen.stage != Illegal && Within(old(host.seen), host.seen, 4, 0)
      ensures r.Err? ==> Excused(host.seen, host.trace)
      ensures r.Ok? ==> host.seen.stage == if kind == Sd then AwaitWidthApp(rca) else AwaitExtCsd(rca)
      ensures r.Ok? && kind == Mmc ==> rca == 1
      ensures host.seen.link == old(host.seen.link).(address := host.seen.link.address) && (r.Ok? ==> host.seen.link.address == Some(rca))
    {
      r := Address(kind);
      if r.Err? {
        return;
      }
      var csd := host.SendCommand(Cmd9(rca));
      if csd.Err? {
        return Err(csd.error);
      }
      var selected := host.SendCommand(Cmd7(rca));
      if selected.Err? {
        return Err(selected.error);
      }
      r := Ok(());
    }

    /** Speed selection was carried through, or its query failed; switched off, the clock is
        the default one. */
    ghost predicate SdConfigured(ocr: u32)
      reads this, host
    {
      if speedSelection then
        host.seen.stage == Over || (host.seen.stage == SdSpeed(rca) && EndsSelected(host.trace, Accepts18(ocr), rca))
      else host.seen.stage == AwaitQuery(rca) && host.seen.link.clock == Some(DefaultSpeed)
    }

    /** Host, card and driver at four bits. */
    method ConfigureSd(ocr: u32) returns (r: Result<()>)
      requires host.seen.stage == AwaitWidthApp(rca) && host.seen.pending == None
      requires host.Valid()
      modifies this`busWidth, host
      ensures host.Valid()
      ensures host.seen.stage != Illegal && Within(old(host.seen), host.seen, 14, 0)
      ensures r.Err? ==> Excused(host.seen, host.trace)
      ensures r.Ok? ==> busWidth == Bit4 && host.seen.link.width == Some(Bit4) && host.seen.link.cardWidth == Some(Bit4)
      ensures r.Ok? ==> SdConfigured(ocr) && host.seen.link.ocr == old(host.seen.link.ocr) && host.seen.link.echoed == old(host.seen.link.echoed)
      ensures r.Ok? ==> host.seen.link.address == old(host.seen.link.address)
    {
      r := SetBusWidthSd(Bit4);
      if r.Err? {
        return;
      }
      if speedSelection {
        TrySdBestSpeed(ocr);
      } else {
        r := host.SetClockSpeed(DefaultSpeed);
      }
    }

    /** 8 bits, or else 4, as far as host and card go along. */
    method WidenMmc() returns (ghost w: Widening)
      requires host.seen.stage == MmcSwitching(rca)
      requires host.Valid()
      modifies this`busWidth, host
      ensures host.Valid()
      ensures host.seen.stage == MmcSwitching(rca) && Within(old(host.seen), host.seen, 54, 2 * SWITCH_TIMEOUT_MS)
      ensures Ordered8(w) && busWidth == RecordedWidth(w, old(busWidth))
      ensures host.seen.link == LinkWidened(w, old(host.seen.link))
    {
      ghost var taken8, taken4 := false, false;
      var wide;
      wide, taken8 := SetBusWidthMmc(Bit8);
      if wide.Ok? {
        return Widening(taken8, true, false, false);
      }
      var half;
      half, taken4 := SetBusWidthMmc(Bit4);
      w := Widening(taken8, false, taken4, half.Ok?);
    }

    /** HS200 on a wide bus if the card has it, or else 52 MHz. */
    method SpeedUpMmc(ext: seq<u8>) returns (ghost s: Speeding)
      requires host.seen.stage == MmcSwitching(rca) && |ext| == EXT_CSD_LEN
      requires host.Valid()
      modifies host
      ensures host.Valid()
      ensures host.seen.stage == MmcSwitching(rca) && Within(old(host.seen), host.seen, 55, 2 * SWITCH_TIMEOUT_MS)
      ensures OrderedSpeed(s, ext, busWidth)
      ensures host.seen.link == LinkSpeeded(s, ext, busWidth, old(host.seen.link))
      ensures Fast(s) ==> Hs200Entered(host.trace, rca)
    {
      var hs200 := false;
      ghost var volt: Result<()>, end: Option<Ending> := Ok(()), None;
      if SupportsHs200(ext) {
        var entered;
        entered, volt, end := TryHs200(busWidth);
        hs200 := entered.Ok?;
        if hs200 {
          EnteredBy(host.trace, end.value, rca);
        }
      }
      s := Speeding(volt, end, false, false);
      if !hs200 && SupportsHs52(ext) {
        var high := MmcSwitchWriteByte(HS_TIMING, 1);
        if high.Ok? {
          var clocked := host.SetClockSpeed(HighSpeed);
          s := s.(high := true, clocked := clocked.Ok?);
        }
      }
    }

    /** EXT_CSD, then the widest bus host and card agree on, then HS200 or 52 MHz if the card
        has them. */
    method ConfigureMmc() returns (r: Result<()>, ghost p: MmcPath)
      requires host.seen.stage == AwaitExtCsd(rca)
      requires host.Valid()
      modifies this`busWidth, host
      ensures host.Valid()
      ensures host.seen.stage != Illegal && Within(old(host.seen), host.seen, 110, 4 * SWITCH_TIMEOUT_MS)
      ensures r.Err? ==> Excused(host.seen, host.trace)
      ensures r.Ok? ==> MmcLeft(p, old(host.seen.link), old(busWidth))
    {
      p := MmcPath([], Widening(false, false, false, false), Speeding(Ok(()), None, false, false));
      var read := ReadExtCsd();
      if read.Err? {
        return Err(read.error), p;
      }
      ghost var w := WidenMmc();
      ghost var s := SpeedUpMmc(read.value);
      p := MmcPath(read.value, w, s);
      r := Ok(());
    }

    /** What an eMMC run has left behind, by the path it took. */
    ghost predicate MmcLeft(p: MmcPath, before: Link, width: BusWidth)
      reads this, host
    {
      && Consistent(p, width)
      && host.seen.link == LinkAfter(p, before, width)
      && busWidth == RecordedWidth(p.w, width)
      && (Fast(p.s) ==> Hs200Entered(host.trace, rca))
    }

    /** Every run, whatever the host answers, keeps to the protocol and within 420 commands
        and three seconds of requested delay, and what it reports is what the card answered.
        An SD run that succeeds has host, card and driver at four bits; what an eMMC run
        leaves is a function of its path (LinkAfter, RecordedWidth). */
    method Init() returns (r: Result<CardInfo>, ghost p: MmcPath)
      modifies this, host
      ensures host.Valid() && host.seen == Fold(host.trace) && Legal(host.trace)
      ensures host.seen.commands <= 420 && host.seen.ms <= 3_000
      ensures r.Err? ==> Excused(host.seen, host.trace)
      ensures speedSelection == old(speedSelection)
      ensures r.Ok? ==> Reported(r.value) && Left(p, r.value, old(busWidth))
      ensures r.Ok? ==> SdioGrammar.GivenIn(host.trace, r.value.rca)
    {
      host.StartRun();
      r, p := BringUp();
      host.Audit();
      if r.Ok? {
        SdioGrammar.AddressIsGiven(host.trace, r.value.rca);
      }
    }

    /** The same from the start of a run. */
    method BringUp() returns (r: Result<CardInfo>, ghost p: MmcPath)
      requires host.Valid() && host.seen == NOTHING
      modifies this, host
      ensures host.Valid() && host.seen.stage != Illegal
      ensures host.seen.commands <= 420 && host.seen.ms <= 3_000
      ensures r.Err? ==> Excused(host.seen, host.trace)
      ensures speedSelection == old(speedSelection)
      ensures r.Ok? ==> Reported(r.value) && Left(p, r.value, old(busWidth))
    {
      var found := Recognise();
      if found.Err? {
        p := MmcPath([], Widening(false, false, false, false), Speeding(Ok(()), None, false, false));
        return Err(found.error), p;
      }
      r, p := Configure(found.value);
    }

    /** Detection and selection: the card's kind, address and operating conditions. */
    method Recognise() returns (r: Result<CardInfo>)
      requires host.Valid() && host.seen == NOTHING
      modifies this`kind, this`rca, this`highCapacity, host
      ensures host.Valid() && host.seen.stage != Illegal && host.seen.pending == None
      ensures Within(NOTHING, host.seen, 310, 2 * INIT_TIMEOUT_MS)
      ensures r.Err? ==> Excused(host.seen, host.trace)
      ensures r.Ok? ==>
                && Reported(r.value) && host.seen.link == Detected(r.value.sdV2, r.value.ocr).(address := Some(rca))
                && host.seen.stage == (if kind == Sd then AwaitWidthApp(rca) else AwaitExtCsd(rca))
                && (kind == Mmc ==> rca == 1)
    {
      var found := Detect();
      if found.Err? {
        return Err(found.error);
      }
      var (k, sdV2, ocr) := found.value;
      kind := k;
      var selected := Identify(k);
      if selected.Err? {
        return Err(selected.error);
      }
      highCapacity := HighCapacity(ocr);
      r := Ok(CardInfo(k, sdV2, highCapacity, ocr, rca));
    }

    /** Width and speed, by the card's kind. */
    method Configure(info: CardInfo) returns (r: Result<CardInfo>, ghost p: MmcPath)
      requires host.Valid() && Reported(info) && host.seen.link == Detected(info.sdV2, info.ocr).(address := Some(rca)) && host.seen.pending == None
      requires host.seen.stage == if kind == Sd then AwaitWidthApp(rca) else AwaitExtCsd(rca)
      requires kind == Mmc ==> rca == 1
      modifies this`busWidth, host
      ensures host.Valid() && host.seen.stage != Illegal
      ensures Within(old(host.seen), host.seen, 110, 4 * SWITCH_TIMEOUT_MS)
      ensures r.Err? ==> Excused(host.seen, host.trace)
      ensures r.Ok? ==> r.value == info && Reported(info) && Left(p, info, old(busWidth))
    {
      p := MmcPath([], Widening(false, false, false, false), Speeding(Ok(()), None, false, false));
      var configured;
      if kind == Sd {
        configured := ConfigureSd(info.ocr);
      } else {
        configured, p := ConfigureMmc();
        KeepsAnswers(p, Detected(info.sdV2, info.ocr).(address := Some(rca)), old(busWidth));
      }
      r := if configured.Ok? then Ok(info) else Err(configured.error);
    }

    /** The driver's fields are what it reports, and that is what the card answered. */
    ghost predicate Reported(info: CardInfo)
      reads this, host
    {
      && kind == info.kind && rca == info.rca && highCapacity == info.highCapacity
      && PoweredUp(info.ocr) && highCapacity == HighCapacity(info.ocr)
      && host.seen.link.ocr == Some(info.ocr) && host.seen.link.echoed == info.sdV2 && host.seen.link.address == Some(info.rca)
    }

    /** SD: host, card and driver at four bits. eMMC: what its path leaves. */
    ghost predicate Left(p: MmcPath, info: CardInfo, before: BusWidth)
      reads this, host
    {
      if kind == Sd then
        && busWidth == Bit4 && host.seen.link.width == Some(Bit4) && host.seen.link.cardWidth == Some(Bit4)
        && SdConfigured(info.ocr)
      else rca == 1 && MmcLeft(p, Detected(info.sdV2, info.ocr).(address := Some(rca)), before)
    }
  }
}
