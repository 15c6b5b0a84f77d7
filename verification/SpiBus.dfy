/** The SPI bus and delay timer as the driver sees them: every answer is the environment's
    choice, and everything that happened is kept in a trace. */
module SpiBus {
  import opened Errors
  import opened Crc16

  datatype Event =
    | Select(ok: bool)
    | Deselect(ok: bool)
    | Xfer(out: byte, answer: Result<byte>)
    | Delay(us: nat)

  class Bus {
    ghost var trace: seq<Event>

    constructor ()
      ensures trace == []
    {
      trace := [];
    }

    method SelectChip() returns (r: Result<()>)
      modifies this`trace
      ensures trace == old(trace) + [Select(r.Ok?)]
    {
      var e: Error := *;
      var ok: bool := *;
      r := if ok then Ok(()) else Err(e);
      trace := trace + [Select(ok)];
    }

    method DeselectChip() returns (r: Result<()>)
      modifies this`trace
      ensures trace == old(trace) + [Deselect(r.Ok?)]
    {
      var e: Error := *;
      var ok: bool := *;
      r := if ok then Ok(()) else Err(e);
      trace := trace + [Deselect(ok)];
    }

    /** Eight clocks: one byte out, one byte in. */
    method TransferByte(out: byte) returns (r: Result<byte>)
      modifies this`trace
      ensures trace == old(trace) + [Xfer(out, r)]
    {
      var e: Error := *;
      var b: byte := *;
      var ok: bool := *;
      r := if ok then Ok(b) else Err(e);
      trace := trace + [Xfer(out, r)];
    }

    method DelayUs(us: nat)
      modifies this`trace
      ensures trace == old(trace) + [Delay(us)]
    {
      trace := trace + [Delay(us)];
    }
  }

  // ----- Shapes of trace segments -----

  const IDLE: byte := 0xFF

  const POLL_INTERVAL_US: nat := 50

  function Idles(n: nat): (s: seq<byte>)
    ensures |s| == n
    ensures forall i | 0 <= i < n :: s[i] == IDLE
  {
    seq(n, _ => IDLE)
  }

  /** Polls answered by the given bytes, a delay after each. */
  function PollRun(answers: seq<byte>): (s: seq<Event>)
    ensures |s| == 2 * |answers|
  {
    if answers == [] then []
    else PollRun(answers[..|answers| - 1]) + [Xfer(IDLE, Ok(answers[|answers| - 1])), Delay(POLL_INTERVAL_US)]
  }

  /** Bytes clocked out, whatever came back. */
  function Sent(data: seq<byte>, echo: seq<byte>): (s: seq<Event>)
    requires |data| == |echo|
    ensures |s| == |data|
  {
    seq(|data|, i requires 0 <= i < |data| => Xfer(data[i], Ok(echo[i])))
  }

  /** Bytes clocked in. */
  function Received(data: seq<byte>): (s: seq<Event>)
    ensures |s| == |data|
  {
    Sent(Idles(|data|), data)
  }

  /** The bytes a trace put on the wire. */
  function TxOf(t: seq<Event>): seq<byte> {
    if t == [] then []
    else TxOf(t[..|t| - 1]) + (if t[|t| - 1].Xfer? then [t[|t| - 1].out] else [])
  }

  lemma {:induction false} TxConcat(s: seq<Event>, t: seq<Event>)
    ensures TxOf(s + t) == TxOf(s) + TxOf(t)
    decreases |t|
  {
    if t == [] {
      assert s + t == s;
    } else {
      var n := |t| - 1;
      TxConcat(s, t[..n]);
      assert (s + t)[..|s + t| - 1] == s + t[..n];
    }
  }

  lemma {:induction false} TxOne(e: Event)
    ensures TxOf([e]) == if e.Xfer? then [e.out] else []
  {
    assert [e][..0] == [];
  }

  lemma {:induction false} TxSent(data: seq<byte>, echo: seq<byte>)
    requires |data| == |echo|
    ensures TxOf(Sent(data, echo)) == data
    decreases |data|
  {
    if data != [] {
      var n := |data| - 1;
      TxSent(data[..n], echo[..n]);
      assert Sent(data, echo)[..n] == Sent(data[..n], echo[..n]);
    }
  }

  lemma {:induction false} TxPollRun(answers: seq<byte>)
    ensures TxOf(PollRun(answers)) == Idles(|answers|)
    decreases |answers|
  {
    if answers != [] {
      var n := |answers| - 1;
      var last := [Xfer(IDLE, Ok(answers[n])), Delay(POLL_INTERVAL_US)];
      TxPollRun(answers[..n]);
      TxConcat(PollRun(answers[..n]), last);
      assert last[..1] == [last[0]];
      TxOne(last[0]);
      assert TxOf(last) == [IDLE];
    }
  }

  // ----- Chip select -----

  predicate NoDeselect(t: seq<Event>) {
    forall e | e in t :: !e.Deselect?
  }

  lemma {:induction false} PollRunQuiet(answers: seq<byte>)
    ensures NoDeselect(PollRun(answers))
    decreases |answers|
  {
    if answers != [] {
      PollRunQuiet(answers[..|answers| - 1]);
    }
  }
}
