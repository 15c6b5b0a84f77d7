/** Entering HS200 once the eMMC has switched: every way it can end, and when the clock is
    rolled back. */
module Hs200Entry {
  import opened Errors
  import opened MachineInts
  import opened Commands
  import opened SdioEvents
  import opened SdioProtocol

  /** How the entry ends; `back` is the host's answer to the roll-back. */
  datatype Ending =
    | ClockRefused(e: Error, back: bool)
    | NotTuned(e: Error, back: bool)
    | NoStatus(e: Error)
    | NotSettled(status: Response, back: bool)
    | Entered(status: Response)

  predicate Possible(end: Ending) {
    && (end.NotSettled? ==> !Settled(Ok(end.status)))
    && (end.Entered? ==> Settled(Ok(end.status)))
  }

  function EventsOf(end: Ending, rca: u16): seq<Event> {
    match end
    case ClockRefused(_, back) => [SetClock(Hs200, false), SetClock(DefaultSpeed, back)]
    case NotTuned(_, back) => [SetClock(Hs200, true), Tune(21, false), SetClock(DefaultSpeed, back)]
    case NoStatus(e) => [SetClock(Hs200, true), Tune(21, true), Cmd(Cmd13(rca), Err(e))]
    case NotSettled(s, back) => [SetClock(Hs200, true), Tune(21, true), Cmd(Cmd13(rca), Ok(s)), SetClock(DefaultSpeed, back)]
    case Entered(s) => [SetClock(Hs200, true), Tune(21, true), Cmd(Cmd13(rca), Ok(s))]
  }

  function ResultOf(end: Ending): Result<()> {
    match end
    case ClockRefused(e, _) => Err(e)
    case NotTuned(e, _) => Err(e)
    case NoStatus(e) => Err(e)
    case NotSettled(_, _) => Err(BadResponse(ForCmd(Phase.Init, 13)))
    case Entered(_) => Ok(())
  }

  /** What the entry does to the clocks; it changes nothing else of the link. */
  function AfterEntry(l: Link, end: Ending): Link {
    var l1 := AfterClock(l, Hs200, !end.ClockRefused?);
    match end
    case ClockRefused(_, back) => AfterClock(l1, DefaultSpeed, back)
    case NotTuned(_, back) => AfterClock(l1, DefaultSpeed, back)
    case NotSettled(_, back) => AfterClock(l1, DefaultSpeed, back)
    case _ => l1
  }

  /** The link after the events is what the observer's fold makes of them. */
  lemma EntryFolds(t: seq<Event>, end: Ending, rca: u16)
    requires Fold(t).stage == MmcSwitching(rca) && Fold(t).pending == None
    ensures Fold(t + EventsOf(end, rca)).stage == MmcSwitching(rca)
    ensures Fold(t + EventsOf(end, rca)).link == AfterEntry(Fold(t).link, end)
  {
    var ev := EventsOf(end, rca);
    FoldStep(t, ev[0]);
    FoldStep(t + [ev[0]], ev[1]);
    assert t + [ev[0]] + [ev[1]] == t + ev[..2];
    if |ev| > 2 {
      FoldStep(t + ev[..2], ev[2]);
      assert t + ev[..2] + [ev[2]] == t + ev[..3];
    }
    if |ev| > 3 {
      FoldStep(t + ev[..3], ev[3]);
      assert t + ev[..3] + [ev[3]] == t + ev[..4];
    }
    assert ev[..|ev|] == ev;
  }

  predicate RolledBack(e: Event) {
    e.SetClock? && e.speed == DefaultSpeed
  }

  predicate StatusLost(e: Event, rca: u16) {
    e.Cmd? && e.c == Cmd13(rca) && e.reply.Err?
  }

  /** A failed entry asks for the default clock last, exactly unless its last event is the
      CMD13 that got no answer; and it leaves the host at the HS200 clock exactly if it was
      reached and not rolled back. */
  lemma RollbackIff(t: seq<Event>, end: Ending, rca: u16)
    requires Fold(t).stage == MmcSwitching(rca) && Fold(t).pending == None
    requires Possible(end) && ResultOf(end).Err?
    ensures var u := t + EventsOf(end, rca);
            var last := u[|u| - 1];
            && (RolledBack(last) <==> !StatusLost(last, rca))
            && (Fold(t).link.clock != Some(Hs200) ==>
                  (Fold(u).link.clock == Some(Hs200) <==>
                     u[|t|] == SetClock(Hs200, true) && (StatusLost(last, rca) || last == SetClock(DefaultSpeed, false))))
  {
    EntryFolds(t, end, rca);
  }

  /** A bus error on the last CMD13: the entry fails and the host stays at 200 MHz. */
  lemma MissedRollback(t: seq<Event>, e: Error)
    requires Fold(t).stage == MmcSwitching(1) && Fold(t).pending == None
    ensures Possible(NoStatus(e)) && ResultOf(NoStatus(e)) == Err(e)
    ensures var u := t + EventsOf(NoStatus(e), 1);
            Legal(u) && Fold(u).link.clock == Some(Hs200) && forall i | |t| <= i < |u| :: !RolledBack(u[i])
  {
    EntryFolds(t, NoStatus(e), 1);
  }
}
