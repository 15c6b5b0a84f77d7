/** What a controller driver does around its command register: waits and writes, in order. */
module CommandLog {
  import opened Errors

  /** A wait, with its complaint if it had one, or a write of the command register. */
  datatype Step<T> = Waited(fault: Option<Error>) | Wrote(issue: T)

  function FaultOf(r: Result<()>): Option<Error> {
    if r.Ok? then None else Some(r.error)
  }

  /** One command: a wait; only if that went well the command register; then another wait. */
  predicate OneCommand<T(==)>(steps: seq<Step<T>>, issued: seq<T>, r: Result<()>) {
    if issued == [] then r.Err? && steps == [Waited(FaultOf(r))]
    else |issued| == 1 && steps == [Waited(None), Wrote(issued[0]), Waited(FaultOf(r))]
  }

  lemma Refused<T>(log: seq<Step<T>>, issued: seq<T>, r: Result<()>)
    requires r.Err?
    ensures OneCommand((log + [Waited(FaultOf(r))])[|log|..], issued[|issued|..], r)
  {
    assert (log + [Waited(FaultOf(r))])[|log|..] == [Waited(FaultOf(r))];
  }

  lemma Issued<T>(log: seq<Step<T>>, issued: seq<T>, x: T, r: Result<()>)
    ensures OneCommand((log + [Waited(None)] + [Wrote(x)] + [Waited(FaultOf(r))])[|log|..], (issued + [x])[|issued|..], r)
  {
    assert (issued + [x])[|issued|..] == [x];
    assert (log + [Waited(None)] + [Wrote(x)] + [Waited(FaultOf(r))])[|log|..] == [Waited(None), Wrote(x), Waited(FaultOf(r))];
  }
}
