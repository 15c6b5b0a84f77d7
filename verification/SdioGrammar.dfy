/** Every legal run is a prefix of a word of the bring-up grammar, and addresses the card by
    the RCA that CMD3 gave in the same run. */
module SdioGrammar {
  import opened Errors
  import opened MachineInts
  import opened Commands
  import opened SdioEvents
  import opened SdioProtocol

  lemma LegalPrefix(t: seq<Event>, k: nat)
    requires k <= |t| && Legal(t)
    ensures Legal(t[..k])
    decreases |t|
  {
    if k < |t| {
      FoldLast(t);
      LegalPrefix(t[..|t| - 1], k);
      assert t[..|t| - 1][..k] == t[..k];
    } else {
      assert t[..k] == t;
    }
  }

  lemma Snoc(front: seq<nat>, rest: seq<nat>, x: nat)
    ensures (front + rest) + [x] == front + (rest + [x])
  {
  }

  lemma PrefixAfter(front: seq<nat>, rest: seq<nat>, more: seq<nat>)
    requires rest <= more
    ensures front + rest <= front + more
  {
  }

  /** CMD1 once more. */
  lemma OneMore(w: Word) returns (w': Word)
    requires w.polls > 0 || w.lone
    ensures w' == w.(ones := w.ones + 1, tail := [])
    ensures Front(w') == Front(w) + [1] && Identified(w', Mmc) && InGrammar(w') && Front(w') <= Spell(w')
  {
    w' := w.(ones := w.ones + 1, tail := []);
    Snoc(Head(w), Ones(w.ones), 1);
    assert Head(w') == Head(w);
  }

  lemma NoOnes(w: Word)
    requires w.ones == 0
    ensures Front(w) == Head(w)
    ensures !w.lone ==> Head(w) == [0, 8] + Polls(w.polls)
  {
  }

  lemma PollMore(polls: nat)
    ensures [0, 8] + Polls(polls) + [55] + [41] == [0, 8] + Polls(polls + 1)
  {
  }

  predicate Detecting(s: Stage) {
    s.AwaitReset? || s.AwaitProbe? || s.AwaitApp? || s.AwaitSdOpCond? || s.AwaitMmcProbe? || s.AwaitMmcOpCond?
  }

  /** What the word is before a CMD1. */
  function BeforeMmc(s: Stage, w: Word): Word {
    if s.AwaitApp? then Word(w.polls, false, 0, []) else if s.AwaitMmcProbe? then w.(ones := 0) else w
  }

  lemma BeforeMmcReached(s: Stage, k: seq<nat>, w: Word)
    requires s.AwaitApp? || s.AwaitMmcProbe? || s.AwaitMmcOpCond?
    requires Reached(s, k, w) && (s.AwaitApp? ==> s.tried)
    ensures k == Front(BeforeMmc(s, w)) && (BeforeMmc(s, w).polls > 0 || BeforeMmc(s, w).lone)
  {
    if !s.AwaitMmcOpCond? {
      NoOnes(BeforeMmc(s, w));
    }
  }

  lemma MmcStep(s: Stage, s': Stage, k: seq<nat>, w: Word) returns (w': Word)
    requires s.AwaitApp? || s.AwaitMmcProbe? || s.AwaitMmcOpCond?
    requires Reached(s, k, w) && (s.AwaitApp? ==> s.tried)
    requires s' == AwaitCid(Mmc) || s'.AwaitMmcOpCond? || s' == Over
    ensures Reached(s', k + [1], w')
  {
    BeforeMmcReached(s, k, w);
    w' := OneMore(BeforeMmc(s, w));
  }

  /** Detection: from reset to the answer that tells the card's kind. */
  lemma DetectionStep(s: Stage, s': Stage, k: seq<nat>, w: Word, c: Command, reply: Result<Response>) returns (w': Word)
    requires Detecting(s)
    requires Reached(s, k, w) && s' == Next(s, c, reply) && s' != Illegal
    ensures Reached(s', k + [c.cmd as nat], w')
  {
    if c.cmd == 1 {
      w' := MmcStep(s, s', k, w);
    } else {
      w' := FirstStep(s, s', k, w, c, reply);
    }
  }

  lemma FirstStep(s: Stage, s': Stage, k: seq<nat>, w: Word, c: Command, reply: Result<Response>) returns (w': Word)
    requires s.AwaitReset? || s.AwaitProbe? || s.AwaitApp? || s.AwaitSdOpCond?
    requires Reached(s, k, w) && s' == Next(s, c, reply) && s' != Illegal && c.cmd != 1
    ensures Reached(s', k + [c.cmd as nat], w')
  {
    if s.AwaitReset? {
      w' := Word(1, false, 0, []);
      assert Spell(w')[..1] == [0];
    } else if s.AwaitProbe? {
      w' := FIRST;
      assert [0] + [8] == [0, 8] + Polls(0);
    } else if s.AwaitSdOpCond? {
      w' := Word(w.polls + 1, false, 0, []);
      PollMore(w.polls);
      NoOnes(w');
    } else {
      w' := Word(w.polls, reply.Err?, 0, []);
    }
  }

  predicate Selecting(s: Stage) {
    s.AwaitCid? || s.AwaitRca? || s.AwaitCsd? || s.AwaitSelect? || s.AwaitWidthApp? || s.AwaitWidth?
  }

  /** The word a selecting stage is on its way to. */
  function Ahead(s: Stage, w: Word): Word {
    w.(tail := if s.AwaitWidthApp? || s.AwaitWidth? || s.AwaitQuery? then [55, 6] else [])
  }

  /** From identification on. */
  lemma SelectionStep(s: Stage, s': Stage, k: seq<nat>, w: Word, c: Command, reply: Result<Response>)
    requires Selecting(s)
    requires Reached(s, k, w) && s' == Next(s, c, reply) && s' != Illegal
    ensures Reached(s', k + [c.cmd as nat], Ahead(s, w))
  {
    Snoc(Front(w), Progress(s), c.cmd);
    var w' := Ahead(s, w);
    assert Front(w') == Front(w);
    if s' == Over {
      PrefixAfter(Front(w), Progress(s) + [c.cmd as nat], [2, 3, 9, 7] + w'.tail);
    }
  }

  lemma SpeedStep(s: Stage, s': Stage, k: seq<nat>, w: Word, x: nat) returns (w': Word)
    requires s.AwaitQuery? || s.SdSpeed? || s.AwaitExtCsd? || s.MmcSwitching?
    requires Reached(s, k, w)
    requires s.AwaitQuery? ==> x == 6 && (s' == SdSpeed(s.rca) || s' == Over)
    requires s.SdSpeed? ==> x in {11, 6, 13} && s' == s
    requires s.AwaitExtCsd? ==> x == 8 && (s' == MmcSwitching(s.rca) || s' == Over)
    requires s.MmcSwitching? ==> x in {6, 13} && s' == s
    ensures Reached(s', k + [x], w')
  {
    if s.AwaitQuery? || s.AwaitExtCsd? {
      w' := w.(tail := if s.AwaitQuery? then [55, 6, 6] else [8]);
      assert Progress(s) + [x] == [2, 3, 9, 7] + w'.tail;
      Snoc(Front(w), Progress(s), x);
    } else {
      w' := w.(tail := w.tail + [x]);
      Snoc(Front(w), [2, 3, 9, 7] + w.tail, x);
      Snoc([2, 3, 9, 7], w.tail, x);
    }
    assert Front(w') == Front(w);
  }

  /** Any event. */
  lemma EventStep(s: Stage, s': Stage, k: seq<nat>, w: Word, e: Event) returns (w': Word)
    requires e.Cmd? || e.DataIn?
    requires Reached(s, k, w) && s' != Illegal
    requires e.Cmd? ==> s' == Next(s, e.c, e.reply)
    requires e.DataIn? ==> s' == NextRead(s, e.c, e.data.Ok?)
    ensures Reached(s', k + [e.c.cmd as nat], w')
  {
    if e.DataIn? || s.SdSpeed? || s.MmcSwitching? {
      w' := SpeedStep(s, s', k, w, e.c.cmd);
    } else if Detecting(s) {
      w' := DetectionStep(s, s', k, w, e.c, e.reply);
    } else {
      SelectionStep(s, s', k, w, e.c, e.reply);
      w' := Ahead(s, w);
    }
  }

  lemma {:induction false} StageInGrammar(t: seq<Event>) returns (w: Word)
    requires Legal(t)
    ensures Reached(Fold(t).stage, Indices(t), w)
    decreases |t|
  {
    if t == [] {
      return FIRST;
    }
    var before, e := t[..|t| - 1], t[|t| - 1];
    var s, s' := Fold(before).stage, Fold(t).stage;
    FoldLast(t);
    LegalPrefix(t, |t| - 1);
    w := StageInGrammar(before);
    if e.Cmd? || e.DataIn? {
      w := EventStep(s, s', Indices(before), w, e);
    } else {
      assert Indices(t) == Indices(before);
    }
  }

  /** Polling once more completes a probe, a poll, or half a poll. */
  lemma PollAhead(polls: nat)
    ensures var w := Word(polls + 1, false, 0, []);
            && [0, 8] + Polls(polls) + [55] <= Head(w) <= Spell(w)
            && [0] <= [0, 8] + Polls(polls) <= [0, 8] + Polls(polls) + [55]
  {
    var w := Word(polls + 1, false, 0, []);
    assert Head(w) == [0, 8] + Polls(polls) + [55] + [41];
    assert Spell(w) == Head(w) + (Ones(0) + [2, 3, 9, 7]);
  }

  lemma DetectionPrefix(s: Stage, k: seq<nat>, w: Word) returns (w': Word)
    requires Detecting(s) && Reached(s, k, w)
    ensures InGrammar(w') && k <= Spell(w')
  {
    if s.AwaitMmcProbe? {
      w' := w.(ones := 1, tail := []);
      assert Head(w') == Head(w) && Spell(w') == Head(w') + (Ones(1) + [2, 3, 9, 7]);
    } else if s.AwaitMmcOpCond? {
      w' := w.(tail := []);
      assert Front(w') == Front(w);
    } else {
      w' := Word(w.polls + 1, false, 0, []);
      PollAhead(w.polls);
    }
  }

  lemma PrefixOfWord(s: Stage, k: seq<nat>, w: Word) returns (w': Word)
    requires Reached(s, k, w)
    ensures InGrammar(w') && k <= Spell(w')
  {
    if s.Over? || s.SdSpeed? || s.MmcSwitching? {
      w' := w;
    } else if Selecting(s) || s.AwaitQuery? || s.AwaitExtCsd? {
      w' := Ahead(s, w);
      assert Front(w') == Front(w);
      PrefixAfter(Front(w), Progress(s), [2, 3, 9, 7] + w'.tail);
    } else {
      w' := DetectionPrefix(s, k, w);
    }
  }

  /** The commands of a legal run, complete or cut short, are a prefix of a grammar word. */
  lemma RunIsPrefix(t: seq<Event>)
    requires Legal(t)
    ensures exists w :: InGrammar(w) && Indices(t) <= Spell(w)
  {
    var w := StageInGrammar(t);
    var w' := PrefixOfWord(Fold(t).stage, Indices(t), w);
  }

  // ----- The relative card address -----

  /** The address the last CMD3 gave. */
  function Published(t: seq<Event>): Option<u16> {
    if t == [] then None
    else
      var e := t[|t| - 1];
      if e.Cmd? && e.c.cmd == 3 then AddressGiven(e.c, e.reply) else Published(t[..|t| - 1])
  }

  predicate Addressed(c: Command) {
    c.cmd == 7 || c.cmd == 9 || c.cmd == 13
  }

  /** A command that addresses the card carries the published RCA; CMD55 carries it too once
      there is one, and 0 before. */
  predicate RcaRight(t: seq<Event>, i: nat)
    requires i < |t|
  {
    t[i].Cmd? ==>
      (var rca := Published(t[..i]);
       && (Addressed(t[i].c) ==> rca.Some? && t[i].c.arg == RcaArg(rca.value))
       && (t[i].c.cmd == 55 ==> t[i].c.arg == (if rca.Some? then RcaArg(rca.value) else 0)))
  }

  function StageRca(s: Stage): Option<u16> {
    match s
    case AwaitCsd(_, rca) => Some(rca)
    case AwaitSelect(_, rca) => Some(rca)
    case AwaitWidthApp(rca) => Some(rca)
    case AwaitWidth(rca) => Some(rca)
    case AwaitQuery(rca) => Some(rca)
    case SdSpeed(rca) => Some(rca)
    case AwaitExtCsd(rca) => Some(rca)
    case MmcSwitching(rca) => Some(rca)
    case _ => None
  }

  lemma {:induction false} PublishedIsStage(t: seq<Event>)
    requires Legal(t) && Fold(t).stage != Over
    ensures Published(t) == StageRca(Fold(t).stage)
    decreases |t|
  {
    if t != [] {
      FoldLast(t);
      LegalPrefix(t, |t| - 1);
      PublishedIsStage(t[..|t| - 1]);
    }
  }

  lemma {:induction false} RcaEverywhere(t: seq<Event>, i: nat)
    requires Legal(t) && i < |t|
    ensures RcaRight(t, i)
  {
    LegalPrefix(t, i);
    LegalPrefix(t, i + 1);
    assert t[..i + 1][..i] == t[..i];
    FoldLast(t[..i + 1]);
    if Fold(t[..i]).stage != Over {
      PublishedIsStage(t[..i]);
    }
  }

  // ----- The same by the words on the wire -----

  /** R6: the address in the upper half, status in the lower. */
  function R6Word(rca: u16, status: u16): Response {
    R6(rca * 0x1_0000 + status)
  }

  predicate IsCmd3(e: Event) {
    e.Cmd? && e.c.cmd == 3
  }

  /** The last CMD3 up to event j. */
  predicate LastCmd3(t: seq<Event>, i: nat, j: nat) {
    i < j <= |t| && IsCmd3(t[i]) && forall k | i < k < j :: !IsCmd3(t[k])
  }

  lemma {:induction false} PublishedAt(t: seq<Event>, i: nat, j: nat)
    requires LastCmd3(t, i, j)
    ensures Published(t[..j]) == AddressGiven(t[i].c, t[i].reply)
    decreases j
  {
    assert t[..j][..j - 1] == t[..j - 1];
    if i < j - 1 {
      PublishedAt(t, i, j - 1);
    }
  }

  /** After a CMD3 answered with an address in the upper half of R6, every CMD7, CMD9, CMD13
      and CMD55 of a legal run has that address in the upper half of its argument, and
      nothing in the lower. */
  lemma RcaOnTheWire(t: seq<Event>, i: nat, j: nat, rca: u16, status: u16)
    requires Legal(t) && LastCmd3(t, i, j) && j < |t| && t[i].reply == Ok(R6Word(rca, status))
    requires t[j].Cmd? && t[j].c.cmd in {7, 9, 13, 55}
    ensures t[j].c.arg == rca * 0x1_0000
  {
    PublishedAt(t, i, j);
    RcaEverywhere(t, j);
    UpperHalf(rca, status);
  }

  lemma UpperHalf(rca: u16, status: u16)
    ensures PublishedRca(rca * 0x1_0000 + status) == rca
  {
  }

  /** The address an eMMC is assigned is the one it is addressed by. */
  lemma AssignedOnTheWire(t: seq<Event>, i: nat, j: nat, status: u32)
    requires Legal(t) && LastCmd3(t, i, j) && j < |t| && t[i].reply == Ok(R1(status))
    requires t[j].Cmd? && t[j].c.cmd in {7, 9, 13, 55}
    ensures t[j].c.arg == t[i].c.arg == 0x1_0000
  {
    PublishedAt(t, i, j);
    RcaEverywhere(t, j);
    LegalPrefix(t, i + 1);
    FoldLast(t[..i + 1]);
    assert t[..i + 1][..i] == t[..i];
    StaysOver(t, i + 1, j);
    AssignedIsOne(Fold(t[..i]).stage, t[i].c, t[i].reply);
  }

  lemma AssignedIsOne(s: Stage, c: Command, reply: Result<Response>)
    requires c.cmd == 3 && reply.Ok? && reply.value.R1? && Next(s, c, reply) != Illegal && Next(s, c, reply) != Over
    ensures c.arg == 0x1_0000
  {
  }

  /** Nothing may follow the end of a run but what needs no command. */
  lemma {:induction false} StaysOver(t: seq<Event>, i: nat, j: nat)
    requires i <= j < |t| && Legal(t) && (t[j].Cmd? || t[j].DataIn?)
    ensures Fold(t[..i]).stage != Over
    decreases j - i
  {
    LegalPrefix(t, i + 1);
    FoldLast(t[..i + 1]);
    assert t[..i + 1][..i] == t[..i];
    if Fold(t[..i]).stage == Over {
      AfterOver(Fold(t[..i]), t[i]);
      if i < j {
        StaysOver(t, i + 1, j);
      }
    }
  }

  lemma AfterOver(s: Seen, e: Event)
    requires s.stage == Over
    ensures Step(s, e).stage == if e.Cmd? || e.DataIn? then Illegal else Over
  {
  }

  /** The event gave the address: by R6, or by its own argument. */
  ghost predicate Gives(e: Event, rca: u16) {
    && IsCmd3(e) && e.reply.Ok?
    && (forall a: u16, s: u16 | e.reply.value == R6Word(a, s) :: a == rca)
    && (e.reply.value.R1? ==> e.c.arg / 0x1_0000 == rca)
  }

  /** The last CMD3 of the run gave the address. */
  ghost predicate GivenIn(t: seq<Event>, rca: u16) {
    exists i: nat :: LastCmd3(t, i, |t|) && Gives(t[i], rca)
  }

  /** What the observer notes as address is what the last CMD3 gave. */
  lemma {:induction false} AddressIsGiven(t: seq<Event>, rca: u16)
    requires Fold(t).link.address == Some(rca)
    ensures GivenIn(t, rca)
    decreases |t|
  {
    if t == [] {
      return;
    }
    var n := |t| - 1;
    var front := t[..n];
    FoldLast(t);
    if IsCmd3(t[n]) {
      GivesAddress(t[n], rca);
      assert LastCmd3(t, n, |t|);
    } else {
      AddressKept(Fold(front), t[n]);
      AddressIsGiven(front, rca);
      var i: nat :| LastCmd3(front, i, n) && Gives(front[i], rca);
      assert LastCmd3(t, i, |t|);
    }
  }

  lemma AddressKept(s: Seen, e: Event)
    requires !IsCmd3(e)
    ensures Step(s, e).link.address == s.link.address
  {
  }

  lemma GivesAddress(e: Event, rca: u16)
    requires IsCmd3(e) && AddressGiven(e.c, e.reply) == Some(rca)
    ensures Gives(e, rca)
  {
    forall a: u16, s: u16 | e.reply.value == R6Word(a, s)
      ensures a == rca
    {
      UpperHalf(a, s);
    }
  }

  // ----- The arguments of detection -----

  /** The card echoed 2.7-3.6 V and the check pattern 0xAA. */
  predicate EchoEvent(e: Event) {
    e.Cmd? && e.c.cmd == 8 && e.reply.Ok? && e.reply.value.R7? && e.reply.value.raw % 0x1000 == 0x1AA
  }

  predicate EchoSeen(t: seq<Event>) {
    t != [] && (EchoEvent(t[|t| - 1]) || EchoSeen(t[..|t| - 1]))
  }

  /** In the ACMD41 loop the automaton remembers just that. */
  lemma {:induction false} EchoIsStage(t: seq<Event>)
    requires Legal(t)
    ensures var s := Fold(t).stage;
            && (s.AwaitReset? || s.AwaitProbe? ==> !EchoSeen(t))
            && (s.AwaitApp? || s.AwaitSdOpCond? ==> (s.v2 <==> EchoSeen(t)))
    decreases |t|
  {
    if t != [] {
      var front, e := t[..|t| - 1], t[|t| - 1];
      FoldLast(t);
      LegalPrefix(t, |t| - 1);
      EchoIsStage(front);
      EchoStep(Fold(front), e);
    }
  }

  predicate Early(s: Stage) {
    s.AwaitReset? || s.AwaitProbe?
  }

  predicate Asking(s: Stage) {
    s.AwaitApp? || s.AwaitSdOpCond?
  }

  lemma EchoStep(s: Seen, e: Event)
    ensures var s' := Step(s, e).stage;
            && (Early(s') ==> !EchoEvent(e) && Early(s.stage))
            && (Asking(s') ==>
                  if s.stage.AwaitProbe? then s'.v2 <==> EchoEvent(e)
                  else !EchoEvent(e) && Asking(s.stage) && s.stage.v2 == s'.v2)
  {
    if e.Cmd? {
      EchoNext(s.stage, e.c, e.reply);
    } else if e.DataIn? {
      ReadIsLate(s.stage, e.c, e.data.Ok?);
    } else {
      assert Step(s, e).stage == s.stage;
    }
  }

  lemma ReadIsLate(s: Stage, c: Command, ok: bool)
    ensures !Early(NextRead(s, c, ok)) && !Asking(NextRead(s, c, ok))
  {
  }

  lemma EchoNext(s: Stage, c: Command, reply: Result<Response>)
    ensures var s' := Next(s, c, reply);
            && (Early(s') ==> c.cmd != 8 && Early(s))
            && (Asking(s') ==> if s.AwaitProbe? then c.cmd == 8 && s'.v2 == Echoed(reply) else c.cmd != 8 && Asking(s) && s.v2 == s'.v2)
  {
  }

  /** Every probe of a legal run is CMD8 for 2.7-3.6 V with pattern 0xAA; every ACMD41 offers
      1.8 V, asks for all of 2.7-3.6 V, and asks for high capacity exactly if the card has
      echoed the probe. */
  lemma DetectionArguments(t: seq<Event>, i: nat)
    requires Legal(t) && i < |t| && t[i].Cmd?
    ensures t[i].c.cmd == 8 ==> t[i].c.arg == 0x1AA
    ensures t[i].c.cmd == 41 ==> t[i].c.arg == (if EchoSeen(t[..i]) then 0x4000_0000 else 0) + 0x100_0000 + 0xFF_8000
    ensures t[i].c.cmd in {0, 2} ==> t[i].c.arg == 0
  {
    LegalPrefix(t, i);
    LegalPrefix(t, i + 1);
    FoldLast(t[..i + 1]);
    assert t[..i + 1][..i] == t[..i];
    EchoIsStage(t[..i]);
    ArgumentsOf(Fold(t[..i]).stage, t[i].c, t[i].reply);
  }

  lemma ArgumentsOf(s: Stage, c: Command, reply: Result<Response>)
    requires Next(s, c, reply) != Illegal
    ensures c.cmd == 8 ==> c.arg == 0x1AA
    ensures c.cmd == 41 ==> s.AwaitSdOpCond? && c.arg == (if s.v2 then 0x4000_0000 else 0) + 0x100_0000 + 0xFF_8000
    ensures c.cmd in {0, 2} ==> c.arg == 0
  {
  }
}
