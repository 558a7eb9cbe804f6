/** `_lease` as it runs: its statements in order, with any steps of other operations between any two of them. */
module LeaseCode {
  import opened Leases
  import opened Options

  /** How the read-only check inside a lease goes. */
  datatype Check =
    | NotNow
    | NoProbeCursor(error: Error)
    | Probe(timeout: nat, refused: bool, closing: Option<Error>, restoreRefused: bool)

  /** What the pool, the driver and the caller's body do to one lease. */
  datatype Script = Script(
    acquire: Option<Error>,
    con: Session,
    boundRefused: Option<Error>,
    check: Check,
    writes: seq<(nat, bool)>,
    ending: Outcome,
    resetRefused: bool)

  const NO_SESSION := Driver(4005)

  /** The error the read-only check lets out of itself. */
  function CheckRaises(check: Check): Option<Error> {
    match check
    case NotNow => None
    case NoProbeCursor(e) => Some(e)
    case Probe(_, _, closing, _) => closing
  }

  /** The errors an operation whose body never ran may end with. */
  predicate BeforeBody(script: Script, ending: Outcome) {
    if script.acquire.Some? then ending == Raised(script.acquire.value)
    else
      ending.Raised? &&
      (ending.error == NO_SESSION || ending.error == Unusable || Some(ending.error) == script.boundRefused ||
       Some(ending.error) == CheckRaises(script.check))
  }

  predicate Foreign(l: Lease, a: Step) {
    match a
    case Begin(k, _) => k != l
    case AcquireFails(k, _) => k != l
    case Works(k, _, _) => k != l
    case _ => true
  }

  // ----- the operation's own steps, as the script has them -----

  /** Which of a lease's checks were passed: the connection was healthy just then. */
  datatype Passed = Passed(bound: bool, probe: bool, restore: bool, writes: seq<bool>, reset: bool)

  const NONE_PASSED := Passed(false, false, false, [], false)

  /** A write of the timeout: after its check, where that was passed. */
  function Writing(l: Lease, con: Session, act: Act, passed: bool): seq<Step> {
    (if passed then [Works(l, con, Passes)] else []) + [Works(l, con, act)]
  }

  function CheckSteps(l: Lease, con: Session, check: Check, probe: bool, restore: bool): seq<Step> {
    match check
    case NotNow => [Works(l, con, NotDue)]
    case NoProbeCursor(e) => [Works(l, con, ProbeHasNoCursor(e))]
    case Probe(timeout, refused, closing, restoreRefused) =>
      (if timeout == 0 then [Works(l, con, ProbeBegins(0, refused))]
       else Writing(l, con, ProbeBegins(timeout, refused), probe)) +
      (if closing.Some? then [Works(l, con, ProbeDoesNotClose(closing.value))]
       else Writing(l, con, ProbeEnds(restoreRefused), restore))
  }

  function WritesOf(l: Lease, con: Session, writes: seq<(nat, bool)>, passed: seq<bool>): seq<Step>
    requires |passed| == |writes|
    decreases |writes|
  {
    if writes == [] then []
    else
      var n := |writes| - 1;
      WritesOf(l, con, writes[..n], passed[..n]) + Writing(l, con, BodyWrites(writes[n].0, writes[n].1), passed[n])
  }

  /** The bound took: its check was passed and the driver did not refuse it. */
  predicate Took(script: Script, p: Passed) { p.bound && script.boundRefused.None? }

  /** The body runs: the bound took, and the read-only check lets nothing out. */
  predicate BodyRuns(script: Script, p: Passed) { Took(script, p) && CheckRaises(script.check).None? }

  predicate PerWrite(script: Script, p: Passed) { BodyRuns(script, p) ==> |p.writes| == |script.writes| }

  /** The bound, then the check, then the body; each only where what is before it let nothing out. */
  function InsideSteps(l: Lease, script: Script, p: Passed): seq<Step>
    requires PerWrite(script, p)
  {
    Writing(l, script.con, SetBound(script.boundRefused), p.bound) +
    (if Took(script, p) then CheckSteps(l, script.con, script.check, p.probe, p.restore) else []) +
    (if BodyRuns(script, p)
     then WritesOf(l, script.con, script.writes, p.writes) + [Works(l, script.con, BodyEnds(script.ending))]
     else [])
  }

  /** The whole lease: `had` is how the session was had, if one was. */
  function LeaseSteps(l: Lease, bound: nat, script: Script, had: Option<Act>, p: Passed): seq<Step>
    requires PerWrite(script, p)
  {
    [Begin(l, bound)] +
    match had
    case None => [AcquireFails(l, if script.acquire.Some? then script.acquire.value else NO_SESSION)]
    case Some(take) =>
      [Works(l, script.con, take)] + InsideSteps(l, script, p) +
      Writing(l, script.con, Reset(script.resetRefused), p.reset) + [Works(l, script.con, Return)]
  }

  /** What leaves the `try`. */
  function Leaves(script: Script, p: Passed): Outcome {
    if !p.bound then Raised(Unusable)
    else if script.boundRefused.Some? then Raised(script.boundRefused.value)
    else if CheckRaises(script.check).Some? then Raised(CheckRaises(script.check).value)
    else script.ending
  }

  predicate Concerns(l: Lease, a: Step) { !Foreign(l, a) }

  /** The steps of one operation among all those taken. */
  function Mine(l: Lease, steps: seq<Step>): seq<Step> {
    if steps == [] then []
    else Mine(l, steps[..|steps| - 1]) + (if Concerns(l, steps[|steps| - 1]) then [steps[|steps| - 1]] else [])
  }

  lemma MineMore(l: Lease, steps: seq<Step>, a: Step)
    ensures Mine(l, steps + [a]) == Mine(l, steps) + (if Concerns(l, a) then [a] else [])
  {
    assert (steps + [a])[..|steps|] == steps;
  }

  class Pool {
    var s: State
    ghost var trail: seq<Step>

    constructor ()
      ensures Valid() && s == START && trail == []
    {
      s, trail := START, [];
      new;
      NoSteps(START);
      StartIsSafe();
    }

    /** The pool's state is one the protocol reaches. */
    ghost predicate Valid()
      reads this
    {
      Runs(START, trail, s) && Safe(s)
    }

    method Take(a: Step)
      requires Valid() && Enabled(s, a)
      modifies this
      ensures Valid() && s == Do(old(s), a) && trail == old(trail) + [a]
      ensures forall l :: Mine(l, trail) == Mine(l, old(trail)) + (if Concerns(l, a) then [a] else [])
    {
      hide Runs, Safe, Enabled, Do, Mine;
      forall l { MineMore(l, trail, a); }
      OneMoreStep(START, trail, s, a);
      StepKeepsSafe(s, a);
      trail := trail + [a];
      s := Do(s, a);
    }

    /** The rest of the pool moves: whatever of these steps it can take, none of them this operation's. */
    method Others(l: Lease, steps: seq<Step>)
      requires Valid()
      modifies this
      ensures Valid() && PhaseOf(s, l) == PhaseOf(old(s), l) && (l in s.operations <==> l in old(s).operations)
      ensures l in s.operations ==> s.operations[l] == old(s).operations[l]
      ensures Mine(l, trail) == Mine(l, old(trail))
    {
      var i := 0;
      while i < |steps|
        invariant Mine(l, trail) == Mine(l, old(trail))
        invariant Valid() && (l in s.operations <==> l in old(s).operations)
        invariant l in s.operations ==> s.operations[l] == old(s).operations[l]
      {
        hide Runs, Safe, Acts, CanAct, Mine;
        if Foreign(l, steps[i]) && Enabled(s, steps[i]) { Take(steps[i]); }
        i := i + 1;
      }
    }

    /** One statement of this operation on its own connection, once the others have moved. */
    method Own(l: Lease, con: Session, act: Act, steps: seq<Step>)
      requires Valid() && l in s.operations && s.operations[l].phase.Holds() == Some(con)
      requires CanAct(act, s.operations[l]) && !act.TakeIdle? && !act.TakeNew? && !act.Passes? && !Bounds(act)
      modifies this
      ensures Valid() && l in s.operations && s.operations[l].bound == old(s).operations[l].bound &&
              !s.operations[l].checked
      ensures exists c :: s.operations[l].phase == Acts(act, l, con, old(s).operations[l], c).phase
      ensures Mine(l, trail) == Mine(l, old(trail)) + [Works(l, con, act)]
    {
      hide Runs, Safe, Acts, CanAct, Mine;
      Others(l, steps);
      HeldIsThere(s, l, con);
      ghost var c := s.connections[con];
      Take(Works(l, con, act));
      assert s.operations[l].phase == Acts(act, l, con, old(s).operations[l], c).phase;
    }

    /** `_set_call_timeout`: the check, and then the write if it passed, the others moving before each. */
    method Write(l: Lease, con: Session, act: Act, before: seq<Step>, between: seq<Step>) returns (passed: bool)
      requires Valid() && l in s.operations && s.operations[l].phase.Holds() == Some(con) && !s.operations[l].checked
      requires CanAct(act, s.operations[l]) && Bounds(act)
      modifies this
      ensures Valid() && l in s.operations && s.operations[l].bound == old(s).operations[l].bound &&
              !s.operations[l].checked
      ensures exists c :: s.operations[l].phase == Acts(act, l, con, old(s).operations[l].(checked := passed), c).phase
      ensures Mine(l, trail) == Mine(l, old(trail)) + Writing(l, con, act, passed)
    {
      hide Runs, Safe, Acts, Mine;
      ghost var o := s.operations[l];
      Others(l, before);
      HeldIsThere(s, l, con);
      passed := s.connections[con].healthy;
      if passed {
        CanPass(act, o);
        Pass(l, con);
        Others(l, between);
        HeldIsThere(s, l, con);
      }
      ghost var c := s.connections[con];
      assert s.operations[l] == o.(checked := passed);
      Take(Works(l, con, act));
      assert s.operations[l].phase == Acts(act, l, con, o.(checked := passed), c).phase;
    }

    method Pass(l: Lease, con: Session)
      requires Valid() && l in s.operations && con in s.connections && s.connections[con].healthy
      requires s.operations[l].phase.Holds() == Some(con) && CanAct(Passes, s.operations[l])
      modifies this
      ensures Valid() && l in s.operations && s.operations[l] == old(s).operations[l].(checked := true)
      ensures Mine(l, trail) == Mine(l, old(trail)) + [Works(l, con, Passes)]
    {
      hide Runs, Safe, Mine;
      Take(Works(l, con, Passes));
    }

    /** The connection acquired, whatever state it is in; or none, and the operation is over. */
    method Acquire(l: Lease, script: Script, steps: seq<Step>) returns (ok: bool, ghost had: Option<Act>)
      requires Valid() && l in s.operations && s.operations[l].phase == Waiting && !s.operations[l].checked
      modifies this
      ensures Valid() && l in s.operations && !s.operations[l].checked &&
              s.operations[l].bound == old(s).operations[l].bound
      ensures if ok then script.acquire.None? && s.operations[l].phase == Acquired(script.con)
              else s.operations[l].phase ==
                   Finished(None, Raised(if script.acquire.Some? then script.acquire.value else NO_SESSION))
      ensures if ok then had == Some(TakeIdle) || had == Some(TakeNew) else had == None
      ensures Mine(l, trail) == Mine(l, old(trail)) +
                [if ok then Works(l, script.con, had.value)
                 else AcquireFails(l, if script.acquire.Some? then script.acquire.value else NO_SESSION)]
    {
      hide Runs, Safe, Mine;
      had := None;
      Others(l, steps);
      if script.acquire.Some? {
        Take(AcquireFails(l, script.acquire.value));
        return false, None;
      }
      if script.con !in s.connections {
        had := Some(TakeNew);
        Take(Works(l, script.con, TakeNew));
      } else if s.connections[script.con].place == Idle {
        had := Some(TakeIdle);
        Take(Works(l, script.con, TakeIdle));
      } else {
        Take(AcquireFails(l, NO_SESSION));
        return false, None;
      }
      ok := true;
    }

    /** `_recheck_read_only`: the body follows, unless the check itself raises. */
    method Recheck(l: Lease, con: Session, check: Check, others: nat -> seq<Step>)
      returns (ghost probe: bool, ghost restore: bool)
      requires Valid() && l in s.operations && s.operations[l].phase == Checking(con) && !s.operations[l].checked
      modifies this
      ensures Valid() && l in s.operations && !s.operations[l].checked &&
              s.operations[l].bound == old(s).operations[l].bound
      ensures match CheckRaises(check)
              case None => s.operations[l].phase.Body? && s.operations[l].phase.con == con
              case Some(e) => s.operations[l].phase == Leaving(con, Raised(e))
      ensures Mine(l, trail) == Mine(l, old(trail)) + CheckSteps(l, con, check, probe, restore)
    {
      hide Runs, Safe, Mine, Writing;
      probe, restore := false, false;
      match check {
        case NotNow => Own(l, con, NotDue, others(0));
        case NoProbeCursor(e) => Own(l, con, ProbeHasNoCursor(e), others(0));
        case Probe(timeout, refused, closing, restoreRefused) =>
          probe := BeginProbe(l, con, timeout, refused, others);
          restore := EndProbe(l, con, closing, restoreRefused, others);
      }
    }

    /** The probe under its own bound, where it has one. */
    method BeginProbe(l: Lease, con: Session, timeout: nat, refused: bool, others: nat -> seq<Step>)
      returns (passed: bool)
      requires Valid() && l in s.operations && s.operations[l].phase == Checking(con) && !s.operations[l].checked
      modifies this
      ensures Valid() && l in s.operations && s.operations[l].phase.Probing? && s.operations[l].phase.con == con
      ensures !s.operations[l].checked && s.operations[l].bound == old(s).operations[l].bound
      ensures Mine(l, trail) == Mine(l, old(trail)) +
                if timeout == 0 then [Works(l, con, ProbeBegins(0, refused))]
                else Writing(l, con, ProbeBegins(timeout, refused), passed)
    {
      hide Runs, Safe, Mine, Writing;
      passed := false;
      if timeout == 0 {
        Own(l, con, ProbeBegins(timeout, refused), others(0));
      } else {
        passed := Write(l, con, ProbeBegins(timeout, refused), others(0), others(1));
      }
    }

    /** The cursor closed and the bound put back, unless closing it raises. */
    method EndProbe(l: Lease, con: Session, closing: Option<Error>, refused: bool, others: nat -> seq<Step>)
      returns (passed: bool)
      requires Valid() && l in s.operations && s.operations[l].phase.Probing? && s.operations[l].phase.con == con
      requires !s.operations[l].checked
      modifies this
      ensures Valid() && l in s.operations && !s.operations[l].checked
      ensures s.operations[l].bound == old(s).operations[l].bound
      ensures match closing
              case None => s.operations[l].phase.Body? && s.operations[l].phase.con == con
              case Some(e) => s.operations[l].phase == Leaving(con, Raised(e))
      ensures Mine(l, trail) == Mine(l, old(trail)) +
                if closing.Some? then [Works(l, con, ProbeDoesNotClose(closing.value))]
                else Writing(l, con, ProbeEnds(refused), passed)
    {
      hide Runs, Safe, Mine, Writing;
      passed := false;
      if closing.Some? {
        Own(l, con, ProbeDoesNotClose(closing.value), others(2));
      } else {
        passed := Write(l, con, ProbeEnds(refused), others(2), others(3));
      }
    }

    /** The body: it may bound its own calls, and then ends as it ends. */
    method RunBody(l: Lease, con: Session, script: Script, others: nat -> seq<Step>) returns (ghost passed: seq<bool>)
      requires Valid() && l in s.operations && s.operations[l].phase.Body? && s.operations[l].phase.con == con
      requires !s.operations[l].checked
      modifies this
      ensures Valid() && l in s.operations && s.operations[l].phase == Leaving(con, script.ending) &&
              !s.operations[l].checked && s.operations[l].bound == old(s).operations[l].bound
      ensures |passed| == |script.writes|
      ensures Mine(l, trail) ==
              Mine(l, old(trail)) + WritesOf(l, con, script.writes, passed) + [Works(l, con, BodyEnds(script.ending))]
    {
      hide Runs, Safe, Mine;
      passed := [];
      var i := 0;
      while i < |script.writes|
        invariant i <= |script.writes| && |passed| == i
        invariant Valid() && l in s.operations && s.operations[l].phase.Body? && s.operations[l].phase.con == con
        invariant !s.operations[l].checked && s.operations[l].bound == old(s).operations[l].bound
        invariant Mine(l, trail) == Mine(l, old(trail)) + WritesOf(l, con, script.writes[..i], passed)
      {
        var ok := Write(l, con, BodyWrites(script.writes[i].0, script.writes[i].1), others(2 * i), others(2 * i + 1));
        assert script.writes[..i + 1][..i] == script.writes[..i] && (passed + [ok])[..i] == passed;
        passed := passed + [ok];
        i := i + 1;
      }
      assert script.writes[..i] == script.writes;
      Own(l, con, BodyEnds(script.ending), others(2 * i));
    }

    /** The bound, the check and the body: what is inside the `try`. */
    method Inside(l: Lease, script: Script, others: (nat, nat) -> seq<Step>) returns (ran: bool, ghost p: Passed)
      requires Valid() && l in s.operations && s.operations[l].phase == Acquired(script.con) && !s.operations[l].checked
      modifies this
      ensures Valid() && l in s.operations && s.operations[l].phase == Leaving(script.con, Leaves(script, p))
      ensures !s.operations[l].checked && s.operations[l].bound == old(s).operations[l].bound
      ensures PerWrite(script, p) && (ran <==> BodyRuns(script, p))
      ensures Mine(l, trail) == Mine(l, old(trail)) + InsideSteps(l, script, p)
    {
      hide Runs, Safe, Mine, CheckSteps, WritesOf, Writing;
      var con := script.con;
      ran := false;
      var bounded := Write(l, con, SetBound(script.boundRefused), others(1, 0), others(1, 1));
      p := NONE_PASSED.(bound := bounded);
      if s.operations[l].phase.Leaving? { return; }
      ghost var probe, restore := Recheck(l, con, script.check, (n: nat) => others(2, n));
      p := p.(probe := probe, restore := restore);
      if s.operations[l].phase.Leaving? { return; }
      ghost var writes := RunBody(l, con, script, (n: nat) => others(3, n));
      p := p.(writes := writes);
      ran := true;
    }

    /** The `finally`: the reset, and the return it decides. The ending is what it was. */
    method Cleanup(l: Lease, con: Session, refused: bool, others: (nat, nat) -> seq<Step>)
      returns (ending: Outcome, ghost passed: bool)
      requires Valid() && l in s.operations && s.operations[l].phase.Leaving? && s.operations[l].phase.con == con
      requires !s.operations[l].checked
      modifies this
      ensures Valid() && l in s.operations && s.operations[l].phase == Finished(Some(con), ending)
      ensures ending == old(s).operations[l].phase.ending && s.operations[l].bound == old(s).operations[l].bound
      ensures Mine(l, trail) ==
              Mine(l, old(trail)) + Writing(l, con, Reset(refused), passed) + [Works(l, con, Return)]
    {
      hide Runs, Safe, Mine, Writing;
      ending := s.operations[l].phase.ending;
      passed := Write(l, con, Reset(refused), others(4, 0), others(4, 1));
      Own(l, con, Return, others(5, 0));
    }

    /**
      * One whole lease, among any others: its steps are the script's, in order, and no others of its own. The body
      * runs exactly where a session was had, the bound took and the read-only check let nothing out; the operation
      * always finishes, as the body did if it ran, and else with what kept it from running.
      */
    method Lease(l: Lease, bound: nat, script: Script, others: (nat, nat) -> seq<Step>)
      returns (ending: Outcome, ran: bool, ghost had: Option<Act>, ghost p: Passed)
      requires Valid() && l !in s.operations
      modifies this
      ensures Valid() && l in s.operations && s.operations[l].bound == bound
      ensures s.operations[l].phase == Finished(if had.Some? then Some(script.con) else None, ending)
      ensures had.Some? ==> script.acquire.None? && (had.value.TakeIdle? || had.value.TakeNew?)
      ensures PerWrite(script, p) && (ran <==> had.Some? && BodyRuns(script, p))
      ensures ending == if had.Some? then Leaves(script, p)
                        else Raised(if script.acquire.Some? then script.acquire.value else NO_SESSION)
      ensures Mine(l, trail) == Mine(l, old(trail)) + LeaseSteps(l, bound, script, had, p)
      ensures ran ==> ending == script.ending
      ensures !ran ==> BeforeBody(script, ending)
    {
      hide Runs, Safe, Acts, CanAct, Mine, InsideSteps, Writing;
      ran, p := false, NONE_PASSED;
      Take(Begin(l, bound));
      ghost var start := Mine(l, trail);
      var ok;
      ok, had := Acquire(l, script, others(0, 0));
      if !ok {
        ending := s.operations[l].phase.ending;
        p := p.(writes := seq(|script.writes|, i => false));
        return;
      }
      ran, p := Inside(l, script, others);
      ghost var reset;
      ending, reset := Cleanup(l, script.con, script.resetRefused, others);
      SameInside(l, script, p, reset);
      p := p.(reset := reset);
    }
  }

  /** The reset is no part of what is inside. */
  lemma SameInside(l: Lease, script: Script, p: Passed, reset: bool)
    requires PerWrite(script, p)
    ensures var q := p.(reset := reset);
            PerWrite(script, q) && InsideSteps(l, script, q) == InsideSteps(l, script, p) &&
            Leaves(script, q) == Leaves(script, p) && BodyRuns(script, q) == BodyRuns(script, p)
  {}

  lemma HeldIsThere(s: State, l: Leases.Lease, con: Session)
    requires Safe(s) && l in s.operations && s.operations[l].phase.Holds() == Some(con)
    ensures con in s.connections
  {
    assert Owns(s, l);
  }

  lemma CanPass(a: Act, o: Operation)
    requires CanAct(a, o) && Bounds(a) && !o.checked
    ensures CanAct(Passes, o) && CanAct(a, o.(checked := true))
  {}
}
