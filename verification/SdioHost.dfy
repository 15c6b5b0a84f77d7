/** The SDIO host controller as the protocol layer sees it: every answer is the
    environment's choice, and every action of the current run is kept in a trace. */
module SdioHost {
  import opened Errors
  import opened MachineInts
  import opened Commands
  import opened SdioEvents
  import opened SdioProtocol

  /** What has been seen after each event. */
  ghost predicate Recorded(trace: seq<Event>, history: seq<Seen>) {
    && |history| == |trace| + 1 && history[0] == NOTHING
    && forall k | 0 <= k < |trace| :: history[k + 1] == Step(history[k], trace[k])
  }

  lemma {:induction false} HistoryFolds(trace: seq<Event>, history: seq<Seen>, n: nat)
    requires Recorded(trace, history) && n <= |trace|
    ensures history[n] == FoldTo(trace, n)
  {
    if n > 0 {
      var m := n - 1;
      HistoryFolds(trace, history, m);
      FoldNext(trace, m);
      assert history[m + 1] == Step(history[m], trace[m]);
    }
  }

  class Host {
    /** Events of the current run, and of the runs before it. */
    ghost var trace: seq<Event>
    ghost var past: seq<Event>

    /** What they amount to, and after each of them. */
    ghost var seen: Seen
    ghost var history: seq<Seen>

    ghost predicate Valid()
      reads this
    {
      Recorded(trace, history) && history[|trace|] == seen
    }

    /** The observer's state is the fold of the trace. */
    lemma Audit()
      requires Valid()
      ensures seen == Fold(trace)
    {
      HistoryFolds(trace, history, |trace|);
    }

    ghost method Record(e: Event)
      requires Valid()
      modifies this`trace, this`seen, this`history
      ensures Valid() && trace == old(trace) + [e] && seen == Step(old(seen), e)
    {
      trace := trace + [e];
      seen := Step(seen, e);
      history := history + [seen];
    }

    constructor ()
      ensures Valid() && trace == [] && past == []
    {
      trace := [];
      past := [];
      seen := NOTHING;
      history := [NOTHING];
    }

    ghost method StartRun()
      modifies this
      ensures trace == [] && past == old(past) + old(trace)
      ensures Valid() && seen == NOTHING
    {
      past := past + trace;
      trace := [];
      seen := NOTHING;
      history := [NOTHING];
    }

    method SendCommand(c: Command) returns (r: Result<Response>)
      requires Valid()
      modifies this`trace, this`seen, this`history
      ensures Valid()
      ensures trace == old(trace) + [Cmd(c, r)]
      ensures seen.stage == Next(old(seen.stage), c, r) && seen.commands == old(seen.commands) + 1
      ensures seen.ms == old(seen.ms) && seen.pending == NextPending(old(seen.pending), c, r)
      ensures seen.link == AfterCommand(old(seen.link), old(seen.pending), c, r)
    {
      var ok: bool := *;
      var e: Error := *;
      var answer: Response := *;
      r := if ok then Ok(answer) else Err(e);
      Record(Cmd(c, r));
    }

    /** A data command and its whole data phase. */
    method ReadData(c: Command, size: nat) returns (r: Result<seq<u8>>)
      requires Valid()
      modifies this`trace, this`seen, this`history
      ensures Valid()
      ensures trace == old(trace) + [DataIn(c, r)]
      ensures seen == old(seen).(stage := NextRead(old(seen.stage), c, r.Ok?), commands := old(seen.commands) + 1)
      ensures r.Ok? ==> |r.value| == size
    {
      var e: Error := *;
      var bytes: seq<u8> := *;
      r := if |bytes| == size then Ok(bytes) else Err(e);
      Record(DataIn(c, r));
    }

    method SetBusWidth(width: BusWidth) returns (r: Result<()>)
      requires Valid()
      modifies this`trace, this`seen, this`history
      ensures Valid()
      ensures trace == old(trace) + [SetWidth(width, r.Ok?)]
      ensures seen == old(seen).(link := AfterWidth(old(seen.link), width, r.Ok?))
    {
      r := Answer();
      Record(SetWidth(width, r.Ok?));
    }

    method SetClockSpeed(speed: ClockSpeed) returns (r: Result<()>)
      requires Valid()
      modifies this`trace, this`seen, this`history
      ensures Valid()
      ensures trace == old(trace) + [SetClock(speed, r.Ok?)]
      ensures seen == old(seen).(link := AfterClock(old(seen.link), speed, r.Ok?))
    {
      r := Answer();
      Record(SetClock(speed, r.Ok?));
    }

    method SwitchVoltage(voltage: Voltage) returns (r: Result<()>)
      requires Valid()
      modifies this`trace, this`seen, this`history
      ensures Valid()
      ensures trace == old(trace) + [SetVoltage(voltage, r)]
      ensures seen == old(seen).(link := old(seen.link).(volts := old(seen.link.volts) + [(voltage, r)]))
    {
      r := Answer();
      Record(SetVoltage(voltage, r));
    }

    method ExecuteTuning(index: u8) returns (r: Result<()>)
      requires Valid()
      modifies this`trace, this`seen, this`history
      ensures Valid()
      ensures trace == old(trace) + [Tune(index, r.Ok?)]
      ensures seen == old(seen)
    {
      r := Answer();
      Record(Tune(index, r.Ok?));
    }

    /** The delay timer. */
    method DelayMs(ms: nat)
      requires Valid()
      modifies this`trace, this`seen, this`history
      ensures Valid()
      ensures trace == old(trace) + [Delay(ms)]
      ensures seen == old(seen).(ms := old(seen.ms) + ms)
    {
      Record(Delay(ms));
    }

    method Answer() returns (r: Result<()>)
    {
      var ok: bool := *;
      var e: Error := *;
      r := if ok then Ok(()) else Err(e);
    }
  }
}
