/** `_with_cursor`: one read, retried over fresh leases while it loses the race with a definition change. */
module CursorRetry {
  import opened Options

  datatype Error = Error(code: nat)

  /** What the work does with its cursor. A race is the driver's ORA-01466. */
  datatype Work<V> = Gives(value: V) | Races(error: Error) | Fails(error: Error)

  /** One attempt as it went: no lease, no cursor, or the work's result and the cursor's closing. */
  datatype Attempt<V> =
    | NoLease(error: Error)
    | NoCursor(error: Error)
    | Ran(work: Work<V>, closing: Option<Error>)

  datatype Answer<V> = Got(value: V) | Raised(error: Error)

  const PAUSES := [0.0, 0.25, 0.75, 1.5]

  function Slept(n: nat): real
    requires n <= |PAUSES|
  {
    if n == 0 then 0.0 else Slept(n - 1) + PAUSES[n - 1]
  }

  /** The only attempt that is followed by another: a race lost by a read-only read that then closed its cursor. */
  predicate Again<V>(readOnly: bool, a: Attempt<V>) {
    readOnly && a.Ran? && a.work.Races? && a.closing.None?
  }

  /** What the last attempt made gives its caller; a cursor that will not close speaks over the work. */
  function Last<V>(a: Attempt<V>): Answer<V> {
    match a
    case NoLease(e) => Raised(e)
    case NoCursor(e) => Raised(e)
    case Ran(work, Some(e)) => Raised(e)
    case Ran(Gives(v), None) => Got(v)
    case Ran(Races(e), None) => Raised(e)
    case Ran(Fails(e), None) => Raised(e)
  }

  /**
    * The attempts made are the first ones up to one that is not retried, at most four; the work ran once
    * in each of the others, and the last one's result is the caller's.
    */
  method WithCursor<V>(readOnly: bool, attempts: nat -> Attempt<V>)
    returns (answer: Answer<V>, leases: nat, works: nat, slept: real)
    ensures 1 <= leases <= |PAUSES|
    ensures forall i :: 0 <= i < leases - 1 ==> Again(readOnly, attempts(i))
    ensures leases == |PAUSES| || !Again(readOnly, attempts(leases - 1))
    ensures answer == Last(attempts(leases - 1))
    ensures works == if attempts(leases - 1).Ran? then leases else leases - 1
    ensures slept == Slept(leases)
    ensures works <= 4 && (!readOnly ==> works <= 1)
  {
    var last: Option<Error> := None;
    leases, works, slept := 0, 0, 0.0;
    while leases < |PAUSES|
      invariant leases <= |PAUSES| && works == leases && slept == Slept(leases)
      invariant forall i :: 0 <= i < leases ==> Again(readOnly, attempts(i))
      invariant if leases == 0 then last == None else last == Some(attempts(leases - 1).work.error)
    {
      slept := slept + PAUSES[leases];
      var attempt := attempts(leases);
      leases := leases + 1;
      match attempt
      case NoLease(e) => return Raised(e), leases, works, slept;
      case NoCursor(e) => return Raised(e), leases, works, slept;
      case Ran(work, closing) =>
        works := works + 1;
        if closing.Some? { return Raised(closing.value), leases, works, slept; }
        match work
        case Gives(v) => return Got(v), leases, works, slept;
        case Fails(e) => return Raised(e), leases, works, slept;
        case Races(e) =>
          if !readOnly { return Raised(e), leases, works, slept; }
          last := Some(e);
    }
    assert Again(readOnly, attempts(0));
    answer := Raised(last.value);
  }
}
