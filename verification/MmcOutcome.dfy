/** What an eMMC run leaves behind, as a function of the answers it got; when host, card and
    driver agree on width and timing, and when they do not. */
module MmcOutcome {
  import opened Errors
  import opened MachineInts
  import opened Commands
  import opened SdioEvents
  import opened SdioProtocol
  import opened Hs200Entry

  // ----- EXT_CSD -----

  const EXT_CSD_LEN: nat := 512
  const DEVICE_TYPE: nat := 196

  predicate SupportsHs52(extCsd: seq<u8>)
    requires |extCsd| == EXT_CSD_LEN
  {
    Bit(extCsd[DEVICE_TYPE], 2)
  }

  predicate SupportsHs200(extCsd: seq<u8>)
    requires |extCsd| == EXT_CSD_LEN
  {
    Bit(extCsd[DEVICE_TYPE], 16) || Bit(extCsd[DEVICE_TYPE], 32)
  }

  // ----- The link after each step -----

  /** One EXT_CSD write, confirmed or not. */
  function AfterSwitch(l: Link, index: u8, value: u8, ok: bool): Link {
    if index == BUS_WIDTH then l.(cardWidth := if ok then ByteWidth(value) else l.cardWidth)
    else l.(timings := l.timings + [value], timingConfirmed := ok)
  }

  /** A width the host took or not, then confirmed by the card or not. */
  function AfterWidening(l: Link, w: BusWidth, taken: bool, ok: bool): Link {
    AfterWidth(l, w, taken).(cardWidth := if ok then Some(w) else l.cardWidth)
  }

  /** The voltage answers that HS200 goes on after. */
  predicate Tolerated(volt: Result<()>) {
    volt.Ok? || volt.error == UnsupportedCommand
  }

  /** The HS200 attempt: 1.8 V; then, if tolerated, HS_TIMING 2; then, if confirmed, the entry. */
  function AfterHs200(l: Link, volt: Result<()>, end: Option<Ending>): Link {
    var l1 := l.(volts := l.volts + [(V180, volt)]);
    var l2 := if Tolerated(volt) then l1.(timings := l.timings + [2], timingConfirmed := end.Some?) else l1;
    if end.Some? then AfterEntry(l2, end.value) else l2
  }

  // ----- A whole configuration -----

  /** Whether the host took 8 and 4 bits and the card confirmed them. */
  datatype Widening = Widening(taken8: bool, done8: bool, taken4: bool, done4: bool)

  predicate Ordered8(w: Widening) {
    (w.done8 ==> w.taken8 && !w.taken4) && (w.done4 ==> w.taken4)
  }

  /** The width the driver records. */
  function RecordedWidth(w: Widening, before: BusWidth): BusWidth {
    if w.done8 then Bit8 else if w.done4 then Bit4 else before
  }

  function LinkWidened(w: Widening, l: Link): Link {
    var l1 := AfterWidening(l, Bit8, w.taken8, w.done8);
    if w.done8 then l1 else AfterWidening(l1, Bit4, w.taken4, w.done4)
  }

  /** The HS200 attempt, and whether HS_TIMING 1 was confirmed and the host took HighSpeed. */
  datatype Speeding = Speeding(volt: Result<()>, end: Option<Ending>, high: bool, clocked: bool)

  predicate Fast(s: Speeding) {
    s.end.Some? && ResultOf(s.end.value).Ok?
  }

  predicate TriesHs200(ext: seq<u8>, width: BusWidth)
    requires |ext| == EXT_CSD_LEN
  {
    SupportsHs200(ext) && width != Bit1
  }

  predicate TriesHigh(s: Speeding, ext: seq<u8>)
    requires |ext| == EXT_CSD_LEN
  {
    SupportsHs52(ext) && !Fast(s)
  }

  /** Steps happen only after the steps they depend on. */
  predicate OrderedSpeed(s: Speeding, ext: seq<u8>, width: BusWidth)
    requires |ext| == EXT_CSD_LEN
  {
    && (s.end.Some? ==> TriesHs200(ext, width) && Tolerated(s.volt) && Possible(s.end.value))
    && (s.high ==> TriesHigh(s, ext)) && (s.clocked ==> s.high)
  }

  /** Nothing the card offers is skipped: HS200 on a wide bus, 52 MHz timing and clock
      otherwise. */
  function LinkSpeeded(s: Speeding, ext: seq<u8>, width: BusWidth, l: Link): Link
    requires |ext| == EXT_CSD_LEN
  {
    var l1 := if TriesHs200(ext, width) then AfterHs200(l, s.volt, s.end) else l;
    var l2 := if TriesHigh(s, ext) then AfterSwitch(l1, HS_TIMING, 1, s.high) else l1;
    if s.high then AfterClock(l2, HighSpeed, s.clocked) else l2
  }

  /** The answers that decide an eMMC configuration. */
  datatype MmcPath = MmcPath(ext: seq<u8>, w: Widening, s: Speeding)

  predicate Consistent(p: MmcPath, before: BusWidth) {
    |p.ext| == EXT_CSD_LEN && Ordered8(p.w) && OrderedSpeed(p.s, p.ext, RecordedWidth(p.w, before))
  }

  function LinkAfter(p: MmcPath, l: Link, before: BusWidth): Link
    requires |p.ext| == EXT_CSD_LEN
  {
    LinkSpeeded(p.s, p.ext, RecordedWidth(p.w, before), LinkWidened(p.w, l))
  }

  /** A configuration does not touch what detection found out. */
  lemma KeepsAnswers(p: MmcPath, l: Link, before: BusWidth)
    ensures |p.ext| == EXT_CSD_LEN ==> LinkAfter(p, l, before).ocr == l.ocr && LinkAfter(p, l, before).echoed == l.echoed
                                         && LinkAfter(p, l, before).address == l.address
  {
    if |p.ext| == EXT_CSD_LEN {
      SpeedingKeeps(p.s, p.ext, RecordedWidth(p.w, before), LinkWidened(p.w, l));
    }
  }

  /** Speed selection leaves widths and answers alone. */
  lemma SpeedingKeeps(s: Speeding, ext: seq<u8>, width: BusWidth, l: Link)
    requires |ext| == EXT_CSD_LEN
    ensures var l' := LinkSpeeded(s, ext, width, l);
            l'.ocr == l.ocr && l'.echoed == l.echoed && l'.address == l.address && l'.widths == l.widths && l'.width == l.width && l'.cardWidth == l.cardWidth
  {
    Hs200Keeps(l, s.volt, s.end);
  }

  lemma Hs200Keeps(l: Link, volt: Result<()>, end: Option<Ending>)
    ensures var l' := AfterHs200(l, volt, end);
            l'.ocr == l.ocr && l'.echoed == l.echoed && l'.address == l.address && l'.widths == l.widths && l'.width == l.width && l'.cardWidth == l.cardWidth
  {
    var l1 := l.(volts := l.volts + [(V180, volt)]);
    var l2 := if Tolerated(volt) then l1.(timings := l.timings + [2], timingConfirmed := end.Some?) else l1;
    if end.Some? {
      EntryKeeps(l2, end.value);
    }
  }

  lemma EntryKeeps(l: Link, end: Ending)
    ensures AfterEntry(l, end) == l.(clocks := AfterEntry(l, end).clocks, clock := AfterEntry(l, end).clock)
  {
  }

  /** The host is asked for 8 lines first, and for 4 only if that did not work out. */
  lemma WidestFirst(w: Widening, l: Link)
    ensures LinkWidened(w, l).widths == l.widths + [(Bit8, w.taken8)] + (if w.done8 then [] else [(Bit4, w.taken4)])
  {
  }

  /** HS_TIMING 2 is written only on a wide bus of a card with an HS200 bit, after 1.8 V; 1 only
      and always for a card with the 52 MHz bit that is not at HS200; and the HighSpeed clock
      is asked for last, once that is confirmed. */
  lemma SpeedSteps(s: Speeding, ext: seq<u8>, width: BusWidth, l: Link)
    requires |ext| == EXT_CSD_LEN && OrderedSpeed(s, ext, width)
    ensures var l' := LinkSpeeded(s, ext, width, l);
            var try200 := (ext[196] / 16 % 2 == 1 || ext[196] / 32 % 2 == 1) && width != Bit1;
            var try52 := ext[196] / 2 % 2 == 1 && !Fast(s);
            && l'.volts == l.volts + (if try200 then [(V180, s.volt)] else [])
            && l'.timings == l.timings + (if try200 && Tolerated(s.volt) then [2] else []) + (if try52 then [1] else [])
            && (s.high ==> l'.clocks != [] && l'.clocks[|l'.clocks| - 1] == (HighSpeed, s.clocked))
  {
    if TriesHs200(ext, width) {
      AttemptSteps(l, s.volt, s.end);
    }
  }

  lemma AttemptSteps(l: Link, volt: Result<()>, end: Option<Ending>)
    ensures var l' := AfterHs200(l, volt, end);
            l'.volts == l.volts + [(V180, volt)] && l'.timings == l.timings + if Tolerated(volt) then [2] else []
  {
  }

  // ----- Agreement -----

  /** HS_TIMING was last written with a value, and the card confirmed it. */
  predicate TimingIs(l: Link, value: u8) {
    l.timings != [] && l.timings[|l.timings| - 1] == value && l.timingConfirmed
  }

  /** The widths the host took since `n` answers ago. */
  predicate TookNone(l: Link, n: nat) {
    forall i | n <= i < |l.widths| :: !l.widths[i].1
  }

  /** A fresh driver's record is the width the host last took exactly if the card confirmed a
      width or the host took none but the first; and a confirmed width is the recorded one. */
  lemma WidthsAgreeIff(p: MmcPath, l: Link)
    requires Consistent(p, Bit1) && l.width == Some(Bit1) && l.cardWidth == None
    ensures var l', w := LinkAfter(p, l, Bit1), RecordedWidth(p.w, Bit1);
            && (l'.width == Some(w) <==> l'.cardWidth.Some? || TookNone(l', |l.widths|))
            && (l'.cardWidth.Some? ==> l'.cardWidth == Some(w))
  {
    SpeedingKeeps(p.s, p.ext, RecordedWidth(p.w, Bit1), LinkWidened(p.w, l));
    WideningAgreesIff(p.w, l);
  }

  lemma WideningAgreesIff(w: Widening, l: Link)
    requires Ordered8(w) && l.width == Some(Bit1) && l.cardWidth == None
    ensures var l' := LinkWidened(w, l);
            && (l'.width == Some(RecordedWidth(w, Bit1)) <==> l'.cardWidth.Some? || TookNone(l', |l.widths|))
            && (l'.cardWidth.Some? ==> l'.cardWidth == Some(RecordedWidth(w, Bit1)))
  {
    var l', n := LinkWidened(w, l), |l.widths|;
    assert l'.widths[n] == (Bit8, w.taken8);
    if !w.done8 {
      assert l'.widths[n + 1] == (Bit4, w.taken4);
    }
  }

  /** An HS200 clock left running goes with HS_TIMING 2, confirmed, exactly if HS200 was
      entered or the card has no 52 MHz timing to fall back to. */
  lemma Hs200TimingIff(p: MmcPath, l: Link, before: BusWidth)
    requires Consistent(p, before) && l.clock != Some(Hs200)
    requires LinkAfter(p, l, before).clock == Some(Hs200)
    ensures TimingIs(LinkAfter(p, l, before), 2) <==> Fast(p.s) || !SupportsHs52(p.ext)
  {
  }

  /** A HighSpeed clock goes with HS_TIMING 1, confirmed. */
  lemma HighSpeedTiming(p: MmcPath, l: Link, before: BusWidth)
    requires Consistent(p, before) && l.clock != Some(HighSpeed)
    requires LinkAfter(p, l, before).clock == Some(HighSpeed)
    ensures TimingIs(LinkAfter(p, l, before), 1)
  {
    var wide := LinkWidened(p.w, l);
    assert wide.clock == l.clock;
    AttemptClock(wide, p.s.volt, p.s.end);
    assert p.s.high;
  }

  /** An HS200 attempt leaves the clock alone, at 200 MHz, or at the default. */
  lemma AttemptClock(l: Link, volt: Result<()>, end: Option<Ending>)
    ensures AfterHs200(l, volt, end).clock in {l.clock, Some(Hs200), Some(DefaultSpeed)}
  {
  }

  // ----- Runs that end in disagreement -----

  /** The host takes 8 bits, the card does not answer CMD6, the host refuses 4 bits: the run
      goes on with a wide host, and the driver records what it had before. */
  lemma WidthLeftBehind(t: seq<Event>, rca: u16, e: Error)
    requires Fold(t).stage == MmcSwitching(rca)
    ensures var u := t + [SetWidth(Bit8, true), Cmd(Cmd6MmcSwitch(WRITE_BYTE, BUS_WIDTH, 2), Err(e)), SetWidth(Bit4, false)];
            var w := Widening(true, false, false, false);
            && Fold(u).stage == MmcSwitching(rca) && Ordered8(w) && Fold(u).link == LinkWidened(w, Fold(t).link)
            && Fold(u).link.width == Some(Bit8) && RecordedWidth(w, Bit1) == Bit1
  {
    var a, b, c := SetWidth(Bit8, true), Cmd(Cmd6MmcSwitch(WRITE_BYTE, BUS_WIDTH, 2), Err(e)), SetWidth(Bit4, false);
    SwitchDecodes(BUS_WIDTH, 2);
    FoldThree(t, a, b, c);
  }

  lemma FoldThree(t: seq<Event>, a: Event, b: Event, c: Event)
    ensures Fold(t + [a, b, c]) == Step(Step(Step(Fold(t), a), b), c)
  {
    FoldStep(t, a);
    FoldStep(t + [a], b);
    FoldStep(t + [a] + [b], c);
    assert t + [a] + [b] + [c] == t + [a, b, c];
  }

  /** After an HS200 attempt that lost its CMD13, HS_TIMING 1 is confirmed and the host refuses
      HighSpeed: a 200 MHz host and a 52 MHz card. */
  lemma ClockLeftBehind(t: seq<Event>, rca: u16, status: u32)
    requires Fold(t).stage == MmcSwitching(rca) && Fold(t).link.clock == Some(Hs200)
    requires Confirms(Ok(R1(status)))
    ensures var u := t + [Cmd(Cmd6MmcSwitch(WRITE_BYTE, HS_TIMING, 1), Ok(R1(0))), Cmd(Cmd13(rca), Ok(R1(status))), SetClock(HighSpeed, false)];
            && Fold(u).stage == MmcSwitching(rca)
            && Fold(u).link == AfterClock(AfterSwitch(Fold(t).link, HS_TIMING, 1, true), HighSpeed, false)
            && Fold(u).link.clock == Some(Hs200) && TimingIs(Fold(u).link, 1)
  {
    var a := Cmd(Cmd6MmcSwitch(WRITE_BYTE, HS_TIMING, 1), Ok(R1(0)));
    var b, c := Cmd(Cmd13(rca), Ok(R1(status))), SetClock(HighSpeed, false);
    SwitchDecodes(HS_TIMING, 1);
    FoldThree(t, a, b, c);
  }
}
