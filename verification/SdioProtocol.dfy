/** What a run of card bring-up may do: a protocol automaton over host events, a tally of
    commands and delays, and the link state an observer of the bus can tell. */
module SdioProtocol {
  import opened Errors
  import opened MachineInts
  import opened Commands
  import opened SdioEvents

  datatype Kind = Sd | Mmc

  const BUS_WIDTH: u8 := 183
  const HS_TIMING: u8 := 185
  const WRITE_BYTE: u8 := 3

  const OCR_WINDOW: u32 := 0xFF_8000

  // ----- The automaton: which command may come next -----

  datatype Stage =
    | AwaitReset
    | AwaitProbe
    | AwaitApp(v2: bool, tried: bool)
    | AwaitSdOpCond(v2: bool)
    | AwaitMmcProbe
    | AwaitMmcOpCond(arg: u32)
    | AwaitCid(kind: Kind)
    | AwaitRca(kind: Kind)
    | AwaitCsd(kind: Kind, rca: u16)
    | AwaitSelect(kind: Kind, rca: u16)
    | AwaitWidthApp(rca: u16)
    | AwaitWidth(rca: u16)
    | AwaitQuery(rca: u16)
    | SdSpeed(rca: u16)
    | AwaitExtCsd(rca: u16)
    | MmcSwitching(rca: u16)
    | Over
    | Illegal

  /** CMD1 repeats the voltages the card offered, asks for sector mode and keeps bit 29. */
  function MmcOpCondArg(ocr: u32): u32 {
    0x4000_0000
    + (if Bit(ocr, 0x2000_0000) then 0x2000_0000 else 0)
    + (var window := ocr / 0x8000 % 0x200 * 0x8000; if window == 0 then OCR_WINDOW else window)
  }

  function AfterMmcProbe(reply: Result<Response>): Stage {
    if reply.Ok? && reply.value.R3? then
      if PoweredUp(reply.value.raw) then AwaitCid(Mmc) else AwaitMmcOpCond(MmcOpCondArg(reply.value.raw))
    else Over
  }

  /** The stage after a command without data; an answer may end the run, and only a command
      the protocol does not call for is illegal. */
  function Next(s: Stage, c: Command, reply: Result<Response>): Stage {
    match s
    case AwaitReset => if c == Cmd0 then if reply.Ok? then AwaitProbe else Over else Illegal
    case AwaitProbe =>
      if c == Cmd8(1, 0xAA) then AwaitApp(Echoed(reply), false)
      else Illegal
    case AwaitApp(v2, tried) =>
      if c == Cmd55(0) then if reply.Ok? then AwaitSdOpCond(v2) else AwaitMmcProbe
      else if tried && c == Cmd1(0) then AfterMmcProbe(reply)
      else Illegal
    case AwaitSdOpCond(v2) =>
      if c == Cmd41(v2, OCR_WINDOW, true) then
        if reply.Ok? && reply.value.R3? then
          if PoweredUp(reply.value.raw) then AwaitCid(Sd) else AwaitApp(v2, true)
        else AwaitMmcProbe
      else Illegal
    case AwaitMmcProbe => if c == Cmd1(0) then AfterMmcProbe(reply) else Illegal
    case AwaitMmcOpCond(arg) =>
      if c == Cmd1(arg) then
        if reply.Ok? && reply.value.R3? then
          if PoweredUp(reply.value.raw) then AwaitCid(Mmc) else s
        else Over
      else Illegal
    case AwaitCid(kind) => if c == Cmd2 then if reply.Ok? then AwaitRca(kind) else Over else Illegal
    case AwaitRca(Sd) =>
      if c == Cmd3Sd then
        if reply.Ok? && reply.value.R6? then AwaitCsd(Sd, PublishedRca(reply.value.raw)) else Over
      else Illegal
    case AwaitRca(Mmc) =>
      if c == Cmd3Mmc(1) then
        if reply.Ok? && reply.value.R1? then AwaitCsd(Mmc, 1) else Over
      else Illegal
    case AwaitCsd(kind, rca) => if c == Cmd9(rca) then if reply.Ok? then AwaitSelect(kind, rca) else Over else Illegal
    case AwaitSelect(kind, rca) =>
      if c == Cmd7(rca) then
        if reply.Err? then Over else if kind == Sd then AwaitWidthApp(rca) else AwaitExtCsd(rca)
      else Illegal
    case AwaitWidthApp(rca) => if c == Cmd55(rca) then if reply.Ok? then AwaitWidth(rca) else Over else Illegal
    case AwaitWidth(rca) => if c == Acmd6(0) || c == Acmd6(2) then if reply.Ok? then AwaitQuery(rca) else Over else Illegal
    case SdSpeed(rca) => if c == Cmd11 || c == Cmd13(rca) then s else Illegal
    case MmcSwitching(rca) => if IsSwitch(c) || c == Cmd13(rca) then s else Illegal
    case _ => Illegal
  }

  /** The stage after a command with a data phase to the host. */
  function NextRead(s: Stage, c: Command, ok: bool): Stage {
    match s
    case AwaitQuery(rca) => if c == Cmd6AccessMode(false, 0) then if ok then SdSpeed(rca) else Over else Illegal
    case SdSpeed(rca) => if exists f: u8 | 1 <= f <= 4 :: c == Cmd6AccessMode(true, f) then s else Illegal
    case AwaitExtCsd(rca) => if c == Cmd8Mmc then if ok then MmcSwitching(rca) else Over else Illegal
    case _ => Illegal
  }

  // ----- The link state -----

  datatype Write = Write(index: u8, value: u8)

  /** What an observer of host and card can tell: every width, clock and voltage asked of the
      host, in order, with its answer, and the last width and clock accepted; the operating
      conditions last reported, whether CMD8 was echoed, and the address the last CMD3 gave; the width the card last confirmed;
      the HS_TIMING values written, and whether the last one was confirmed. */
  datatype Link = Link(
    widths: seq<(BusWidth, bool)>, width: Option<BusWidth>,
    clocks: seq<(ClockSpeed, bool)>, clock: Option<ClockSpeed>,
    volts: seq<(Voltage, Result<()>)>,
    ocr: Option<u32>, echoed: bool, address: Option<u16>,
    cardWidth: Option<BusWidth>,
    timings: seq<u8>, timingConfirmed: bool)

  function AfterWidth(l: Link, w: BusWidth, ok: bool): Link {
    l.(widths := l.widths + [(w, ok)], width := if ok then Some(w) else l.width)
  }

  function AfterClock(l: Link, c: ClockSpeed, ok: bool): Link {
    l.(clocks := l.clocks + [(c, ok)], clock := if ok then Some(c) else l.clock)
  }

  /** The BUS_WIDTH byte of a width, and back. */
  function WidthByte(w: BusWidth): u8 {
    match w
    case Bit1 => 0
    case Bit4 => 1
    case Bit8 => 2
  }

  function ByteWidth(b: u8): Option<BusWidth> {
    if b == 0 then Some(Bit1) else if b == 1 then Some(Bit4) else if b == 2 then Some(Bit8) else None
  }

  /** The width an ACMD6 argument stands for. */
  function Acmd6Width(arg: u32): Option<BusWidth> {
    if arg == 0 then Some(Bit1) else if arg == 2 then Some(Bit4) else None
  }

  /** The EXT_CSD byte a command writes. */
  function SwitchOf(c: Command): Option<Write> {
    if c.cmd == 6 && c.resp == RespR1b && c.arg / 0x100_0000 == WRITE_BYTE then
      Some(Write(c.arg / 0x1_0000 % 0x100, c.arg / 0x100 % 0x100))
    else None
  }

  predicate IsSwitch(c: Command) {
    && SwitchOf(c).Some?
    && (SwitchOf(c).value.index == BUS_WIDTH || SwitchOf(c).value.index == HS_TIMING)
    && c.arg % 0x100 == 0
  }

  lemma SwitchDecodes(index: u8, value: u8)
    ensures SwitchOf(Cmd6MmcSwitch(WRITE_BYTE, index, value)) == Some(Write(index, value))
    ensures Cmd6MmcSwitch(WRITE_BYTE, index, value).arg % 0x100 == 0
  {
    var arg := Cmd6MmcSwitch(WRITE_BYTE, index, value).arg;
    assert arg / 0x100 == 0x3_0000 + index * 0x100 + value;
    assert arg / 0x1_0000 == 0x300 + index;
  }

  /** CMD13 says the switch went through: no error, ready, back in tran. */
  predicate Confirms(reply: Result<Response>) {
    reply.Ok? && reply.value.R1? && !SwitchError(reply.value.raw) && Settled(reply)
  }

  predicate Settled(reply: Result<Response>) {
    reply.Ok? && reply.value.R1? && ReadyForData(reply.value.raw) && InTransfer(reply.value.raw)
  }

  /** The EXT_CSD write that still waits for its confirmation. */
  function NextPending(pending: Option<Write>, c: Command, reply: Result<Response>): Option<Write> {
    if SwitchOf(c).Some? then (if reply.Ok? then SwitchOf(c) else None)
    else if c.cmd == 13 && pending.Some? && Decides(reply) then None
    else pending
  }

  /** CMD13 settles the fate of a switch, one way or the other. */
  predicate Decides(reply: Result<Response>) {
    reply.Ok? && reply.value.R1? && (SwitchError(reply.value.raw) || Settled(reply))
  }

  /** The link once the card has confirmed a write. */
  function Confirmed(l: Link, w: Write): Link {
    if w.index == BUS_WIDTH then l.(cardWidth := ByteWidth(w.value))
    else if w.index == HS_TIMING then l.(timingConfirmed := true)
    else l
  }

  function AfterCommand(l: Link, pending: Option<Write>, c: Command, reply: Result<Response>): Link {
    if SwitchOf(c).Some? then
      if SwitchOf(c).value.index == HS_TIMING then l.(timings := l.timings + [SwitchOf(c).value.value], timingConfirmed := false) else l
    else if c.cmd == 13 && pending.Some? then
      if Confirms(reply) then Confirmed(l, pending.value) else l
    else if c.cmd == 6 && c.resp == RespR1 && reply.Ok? then l.(cardWidth := Acmd6Width(c.arg))
    else if (c.cmd == 41 || c.cmd == 1) && reply.Ok? && reply.value.R3? then l.(ocr := Some(reply.value.raw))
    else if c.cmd == 8 && c.resp == RespR7 then l.(echoed := Echoed(reply))
    else if c.cmd == 3 then l.(address := AddressGiven(c, reply))
    else l
  }

  /** The address CMD3 gives: published by an SD card, assigned to an eMMC. */
  function AddressGiven(c: Command, reply: Result<Response>): Option<u16> {
    if reply.Err? then None
    else if reply.value.R6? then Some(PublishedRca(reply.value.raw))
    else Some(c.arg / 0x1_0000)
  }

  predicate Echoed(reply: Result<Response>) {
    reply.Ok? && reply.value.R7? && Echoes(reply.value.raw, 1, 0xAA)
  }

  // ----- Everything seen so far -----

  datatype Seen = Seen(stage: Stage, commands: nat, ms: nat, pending: Option<Write>, link: Link)

  const NOTHING := Seen(AwaitReset, 0, 0, None, Link([], None, [], None, [], None, false, None, None, [], false))

  function Step(s: Seen, e: Event): Seen {
    match e
    case Cmd(c, reply) =>
      Seen(Next(s.stage, c, reply), s.commands + 1, s.ms, NextPending(s.pending, c, reply),
           AfterCommand(s.link, s.pending, c, reply))
    case DataIn(c, data) => s.(stage := NextRead(s.stage, c, data.Ok?), commands := s.commands + 1)
    case SetWidth(w, ok) => s.(link := AfterWidth(s.link, w, ok))
    case SetClock(v, ok) => s.(link := AfterClock(s.link, v, ok))
    case SetVoltage(v, answer) => s.(link := s.link.(volts := s.link.volts + [(v, answer)]))
    case Delay(ms) => s.(ms := s.ms + ms)
    case _ => s
  }

  /** After the first n events. */
  function FoldTo(t: seq<Event>, n: nat): Seen
    requires n <= |t|
  {
    if n == 0 then NOTHING else Step(FoldTo(t, n - 1), t[n - 1])
  }

  lemma FoldNext(t: seq<Event>, n: nat)
    requires n < |t|
    ensures FoldTo(t, n + 1) == Step(FoldTo(t, n), t[n])
  {
  }

  function Fold(t: seq<Event>): Seen {
    FoldTo(t, |t|)
  }

  lemma {:induction false} FoldSame(t: seq<Event>, u: seq<Event>, n: nat)
    requires n <= |t| && n <= |u| && t[..n] == u[..n]
    ensures FoldTo(t, n) == FoldTo(u, n)
  {
    if n > 0 {
      assert t[..n - 1] == t[..n][..n - 1] == u[..n - 1];
      assert t[..n][n - 1] == u[..n][n - 1];
      FoldSame(t, u, n - 1);
    }
  }

  lemma FoldStep(t: seq<Event>, e: Event)
    ensures Fold(t + [e]) == Step(Fold(t), e)
  {
    FoldSame(t, t + [e], |t|);
    FoldNext(t + [e], |t|);
    assert (t + [e])[|t|] == e && |t + [e]| == |t| + 1;
  }

  lemma FoldLast(t: seq<Event>)
    requires t != []
    ensures Fold(t) == Step(Fold(t[..|t| - 1]), t[|t| - 1])
  {
    assert t[..|t| - 1] + [t[|t| - 1]] == t;
    FoldStep(t[..|t| - 1], t[|t| - 1]);
  }

  predicate Legal(t: seq<Event>) {
    Fold(t).stage != Illegal
  }

  // ----- The grammar behind the automaton -----

  function IndexOf(e: Event): seq<nat> {
    if e.Cmd? || e.DataIn? then [e.c.cmd] else []
  }

  /** Command indices of a trace, in order. */
  function Indices(t: seq<Event>): seq<nat> {
    if t == [] then [] else Indices(t[..|t| - 1]) + IndexOf(t[|t| - 1])
  }

  function Polls(n: nat): seq<nat> {
    if n == 0 then [] else Polls(n - 1) + [55, 41]
  }

  function Ones(n: nat): seq<nat> {
    if n == 0 then [] else Ones(n - 1) + [1]
  }

  /** Index words: CMD0 CMD8 (CMD55 ACMD41)^polls, a lone CMD55 if its answer was an error,
      CMD1^ones if the card is not taken for an SD card, then CMD2 CMD3 CMD9 CMD7, then
      widening and speed selection. */
  datatype Word = Word(polls: nat, lone: bool, ones: nat, tail: seq<nat>)

  function Head(w: Word): seq<nat> {
    [0, 8] + Polls(w.polls) + (if w.lone then [55] else [])
  }

  /** Up to the answer that tells the card's kind. */
  function Front(w: Word): seq<nat> {
    Head(w) + Ones(w.ones)
  }

  function Spell(w: Word): seq<nat> {
    Front(w) + ([2, 3, 9, 7] + w.tail)
  }

  predicate SdTail(s: seq<nat>) {
    && s[..Min(|s|, 3)] <= [55, 6, 6]
    && forall i | 3 <= i < |s| :: s[i] in {11, 6, 13}
  }

  predicate MmcTail(s: seq<nat>) {
    && s[..Min(|s|, 1)] <= [8]
    && forall i | 1 <= i < |s| :: s[i] in {6, 13}
  }

  predicate Identified(w: Word, kind: Kind) {
    && (w.polls > 0 || w.lone)
    && (w.lone ==> w.ones > 0)
    && (kind == Sd <==> w.ones == 0)
  }

  predicate InGrammar(w: Word) {
    || (Identified(w, Sd) && SdTail(w.tail))
    || (Identified(w, Mmc) && MmcTail(w.tail))
  }

  /** What a selecting stage has behind it, after the card's kind is known. */
  function Progress(s: Stage): seq<nat> {
    match s
    case AwaitRca(_) => [2]
    case AwaitCsd(_, _) => [2, 3]
    case AwaitSelect(_, _) => [2, 3, 9]
    case AwaitWidthApp(_) => [2, 3, 9, 7]
    case AwaitExtCsd(_) => [2, 3, 9, 7]
    case AwaitWidth(_) => [2, 3, 9, 7, 55]
    case AwaitQuery(_) => [2, 3, 9, 7, 55, 6]
    case _ => []
  }

  /** How far into a word of the grammar each stage is. */
  predicate Reached(s: Stage, k: seq<nat>, w: Word) {
    match s
    case AwaitReset => k == []
    case AwaitProbe => k == [0]
    case AwaitApp(_, tried) => k == [0, 8] + Polls(w.polls) && (tried <==> w.polls > 0)
    case AwaitSdOpCond(_) => k == [0, 8] + Polls(w.polls) + [55]
    case AwaitMmcProbe => k == Head(w) && (w.polls > 0 || w.lone)
    case AwaitMmcOpCond(_) => k == Front(w) && Identified(w, Mmc)
    case AwaitCid(kind) => k == Front(w) + Progress(s) && Identified(w, kind)
    case AwaitRca(kind) => k == Front(w) + Progress(s) && Identified(w, kind)
    case AwaitCsd(kind, _) => k == Front(w) + Progress(s) && Identified(w, kind)
    case AwaitSelect(kind, _) => k == Front(w) + Progress(s) && Identified(w, kind)
    case AwaitWidthApp(_) => k == Front(w) + Progress(s) && Identified(w, Sd)
    case AwaitWidth(_) => k == Front(w) + Progress(s) && Identified(w, Sd)
    case AwaitQuery(_) => k == Front(w) + Progress(s) && Identified(w, Sd)
    case AwaitExtCsd(_) => k == Front(w) + Progress(s) && Identified(w, Mmc)
    case SdSpeed(_) => k == Spell(w) && Identified(w, Sd) && SdTail(w.tail) && |w.tail| >= 3
    case MmcSwitching(_) => k == Spell(w) && Identified(w, Mmc) && MmcTail(w.tail) && |w.tail| >= 1
    case Over => k <= Spell(w) && InGrammar(w)
    case Illegal => false
  }

  const FIRST := Word(0, false, 0, [])
}
