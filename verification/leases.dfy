/**
  * Pooled leases as a state machine: any number of operations, each step of one interleaved with any
  * step of another, with the pool's housekeeping, and with sessions that die between steps.
  */
module Leases {
  import opened Options

  type Lease = nat
  type Session = nat

  datatype Error = Unusable | Driver(code: nat)

  datatype Outcome = Fine | Raised(error: Error)

  datatype Place = Idle | Held(lease: Lease) | Dropped

  datatype Connection = Connection(callTimeout: nat, healthy: bool, place: Place)

  /** Where an operation stands. `untouched` says its bound is still the one the lease set. */
  datatype Phase =
    | Waiting
    | Acquired(con: Session)
    | Checking(con: Session)
    | Probing(con: Session, previous: nat, standing: bool)
    | Body(con: Session, untouched: bool)
    | Leaving(con: Session, ending: Outcome)
    | Returning(con: Session, ending: Outcome, reset: bool)
    | Finished(had: Option<Session>, ending: Outcome)
  {
    function Holds(): Option<Session> {
      if Waiting? || Finished? then None else Some(con)
    }

    /** The connection this operation ever had. */
    function Had(): Option<Session> {
      if Waiting? then None else if Finished? then had else Some(con)
    }
  }

  /** `checked` says the driver was just asked about the connection and called it healthy: the write follows. */
  datatype Operation = Operation(bound: nat, phase: Phase, checked: bool)

  datatype Note =
    | Took(lease: Lease, con: Session)
    | Gave(lease: Lease, con: Session)
    | Wrote(con: Session, healthy: bool)
    | Ended(lease: Lease, ending: Outcome)

  datatype State = State(
    connections: map<Session, Connection>,
    operations: map<Lease, Operation>,
    notes: multiset<Note>)

  const START := State(map[], map[], multiset{})

  /**
    * What an operation does to the connection it is given or holds, an atomic step each. A write of
    * `call_timeout` takes two: `Passes`, where the driver calls the connection healthy, and the write,
    * which the driver may yet refuse. A write without the first is one the check did not let through.
    */
  datatype Act =
    | TakeIdle
    | TakeNew
    | Passes
    | SetBound(refusal: Option<Error>)
    | NotDue
    | ProbeHasNoCursor(error: Error)
    | ProbeBegins(probeTimeout: nat, refused: bool)
    | ProbeEnds(refused: bool)
    | ProbeDoesNotClose(error: Error)
    | BodyWrites(ms: nat, refused: bool)
    | BodyEnds(ending: Outcome)
    | Reset(refused: bool)
    | Return

  datatype Step =
    | Begin(lease: Lease, bound: nat)
    | AcquireFails(lease: Lease, error: Error)
    | Works(lease: Lease, con: Session, act: Act)
    | Sicken(con: Session)
    | Discard(con: Session)

  // ----- one operation and its connection -----

  /** What a step of an operation leaves of it and of its connection, and what it did. */
  datatype Move = Move(phase: Phase, connection: Connection, notes: multiset<Note>)

  /** A write takes if its check was passed and the driver does not refuse it. */
  predicate Writes(o: Operation, refused: bool) { o.checked && !refused }

  function Written(o: Operation, c: Connection, ms: nat, refused: bool): Connection {
    if Writes(o, refused) then c.(callTimeout := ms) else c
  }

  /** A write whose check was passed reaches the connection, in whatever state that is by then. */
  function WriteNotes(o: Operation, c: Connection, con: Session): multiset<Note> {
    if o.checked then multiset{Wrote(con, c.healthy)} else multiset{}
  }

  function Ends(l: Lease, con: Session, c: Connection, ending: Outcome, notes: multiset<Note>): Move {
    Move(Leaving(con, ending), c, notes + multiset{Ended(l, ending)})
  }

  predicate MayWrite(a: Act) { a.SetBound? || a.ProbeBegins? || a.ProbeEnds? || a.BodyWrites? || a.Reset? }

  /** The steps of `_lease`, `_recheck_read_only` and the body, by where the operation stands. */
  predicate Follows(a: Act, p: Phase) {
    match a
    case TakeIdle => p.Waiting?
    case TakeNew => p.Waiting?
    case Passes => p.Acquired? || p.Checking? || p.Probing? || p.Body? || p.Leaving?
    case SetBound(_) => p.Acquired?
    case NotDue => p.Checking?
    case ProbeHasNoCursor(_) => p.Checking?
    case ProbeBegins(_, _) => p.Checking?
    case ProbeEnds(_) => p.Probing?
    case ProbeDoesNotClose(_) => p.Probing?
    case BodyWrites(_, _) => p.Body?
    case BodyEnds(_) => p.Body?
    case Reset(_) => p.Leaving?
    case Return => p.Returning?
  }

  /** A probe with no timeout of its own writes nothing. */
  predicate Bounds(a: Act) { MayWrite(a) && !(a.ProbeBegins? && a.probeTimeout == 0) }

  /** After a check that was passed comes its write, and nothing else. */
  predicate CanAct(a: Act, o: Operation) { Follows(a, o.phase) && (o.checked ==> Bounds(a)) }

  /** What the check finds: a write goes on without having passed it only where the driver calls the
      connection unhealthy. */
  predicate Finds(a: Act, o: Operation, c: Connection) {
    (a.Passes? ==> c.healthy) && (Bounds(a) && !o.checked ==> !c.healthy)
  }

  function Acts(a: Act, l: Lease, con: Session, o: Operation, c: Connection): Move
    requires CanAct(a, o)
  {
    match a
    case TakeIdle => Move(Acquired(con), c.(place := Held(l)), multiset{Took(l, con)})
    case TakeNew => Move(Acquired(con), c.(place := Held(l)), multiset{Took(l, con)})
    case Passes => Move(o.phase, c, multiset{})
    case SetBound(refusal) =>
      if Writes(o, refusal.Some?) then Move(Checking(con), Written(o, c, o.bound, false), WriteNotes(o, c, con))
      else Ends(l, con, c, Raised(if o.checked then refusal.value else Unusable), WriteNotes(o, c, con))
    case NotDue => Move(Body(con, true), c, multiset{})
    case ProbeHasNoCursor(e) => Ends(l, con, c, Raised(e), multiset{})
    case ProbeBegins(ms, refused) =>
      if ms == 0 then Move(Probing(con, c.callTimeout, true), c, multiset{})
      else Move(Probing(con, c.callTimeout, !Writes(o, refused)), Written(o, c, ms, refused), WriteNotes(o, c, con))
    case ProbeEnds(refused) =>
      Move(Body(con, Writes(o, refused) || o.phase.standing), Written(o, c, o.phase.previous, refused),
           WriteNotes(o, c, con))
    case ProbeDoesNotClose(e) => Ends(l, con, c, Raised(e), multiset{})
    case BodyWrites(ms, refused) =>
      Move(Body(con, o.phase.untouched && !Writes(o, refused)), Written(o, c, ms, refused), WriteNotes(o, c, con))
    case BodyEnds(ending) => Ends(l, con, c, ending, multiset{})
    case Reset(refused) =>
      Move(Returning(con, o.phase.ending, Writes(o, refused)), Written(o, c, 0, refused), WriteNotes(o, c, con))
    case Return =>
      Move(Finished(Some(con), o.phase.ending), c.(place := if o.phase.reset then Idle else Dropped),
           multiset{Gave(l, con)})
  }

  /** The bound an operation's connection must carry, when it must carry one. */
  function Carries(o: Operation): Option<nat> {
    match o.phase
    case Checking(_) => Some(o.bound)
    case Probing(_, _, standing) => if standing then Some(o.bound) else None
    case Body(_, untouched) => if untouched then Some(o.bound) else None
    case Returning(_, _, reset) => if reset then Some(0) else None
    case _ => None
  }

  /** An idle connection has no bound; a held one has its operation's, where that is known. */
  ghost predicate Fits(l: Lease, con: Session, o: Operation, c: Connection) {
    match o.phase.Holds()
    case None => !c.place.Held? && (c.place == Idle ==> c.callTimeout == 0)
    case Some(held) =>
      held == con && c.place == Held(l) && (Carries(o).Some? ==> c.callTimeout == Carries(o).value) &&
      (o.phase.Probing? ==> o.phase.previous == o.bound)
  }

  lemma WriteFits(a: Act, l: Lease, con: Session, o: Operation, c: Connection)
    requires CanAct(a, o) && Fits(l, con, o, c) && MayWrite(a)
    ensures var m := Acts(a, l, con, o, c); Fits(l, con, o.(phase := m.phase, checked := a.Passes?), m.connection)
  {
    hide WriteNotes;
  }

  /** A step leaves its operation and its connection fitting each other. */
  lemma MoveFits(a: Act, l: Lease, con: Session, o: Operation, c: Connection)
    requires CanAct(a, o) && Fits(l, con, o, c)
    ensures var m := Acts(a, l, con, o, c); Fits(l, con, o.(phase := m.phase, checked := a.Passes?), m.connection)
  {
    if MayWrite(a) {
      hide Acts, CanAct, Carries, Fits;
      WriteFits(a, l, con, o, c);
    }
  }

  function One(b: bool): nat { if b then 1 else 0 }

  function Ending(p: Phase): Option<Outcome> {
    match p
    case Leaving(_, e) => Some(e)
    case Returning(_, e, _) => Some(e)
    case Finished(_, e) => Some(e)
    case _ => None
  }

  predicate Gives(p: Phase, con: Session) { p.Finished? && p.had == Some(con) }

  /** A note counts what the phase says: one acquisition, one return, one ending. */
  ghost predicate Counts(l: Lease, notes: multiset<Note>, p: Phase) {
    (forall con :: notes[Took(l, con)] == One(p.Had() == Some(con))) &&
    (forall con :: notes[Gave(l, con)] == One(Gives(p, con))) &&
    (forall e :: notes[Ended(l, e)] == One(Ending(p) == Some(e)))
  }

  /** A step's notes are of its own operation. */
  ghost predicate Own(l: Lease, notes: multiset<Note>) {
    forall n :: n in notes ==> n.Wrote? || n.lease == l
  }

  lemma WriteCounts(a: Act, l: Lease, con: Session, o: Operation, c: Connection)
    requires CanAct(a, o) && MayWrite(a) && o.phase.Holds() == Some(con)
    ensures var m := Acts(a, l, con, o, c);
            (if m.phase.Leaving?
             then m.notes == WriteNotes(o, c, con) + multiset{Ended(l, m.phase.ending)} && Ending(o.phase) == None
             else Own(l, m.notes) && (forall n :: n in m.notes ==> n.Wrote?) && Ending(m.phase) == Ending(o.phase))
    ensures Acts(a, l, con, o, c).phase.Had() == Some(con) && !Acts(a, l, con, o, c).phase.Finished?
  {}

  lemma MoveCounts(a: Act, l: Lease, con: Session, o: Operation, c: Connection, notes: multiset<Note>)
    requires CanAct(a, o) && Counts(l, notes, o.phase)
    requires o.phase.Waiting? || o.phase.Holds() == Some(con)
    ensures var m := Acts(a, l, con, o, c); Own(l, m.notes) && Counts(l, notes + m.notes, m.phase)
  {
    if MayWrite(a) {
      hide Acts, CanAct, Counts, Own;
      WriteMoveCounts(a, l, con, o, c, notes);
    } else if a.ProbeHasNoCursor? || a.ProbeDoesNotClose? || a.BodyEnds? {
      hide Acts, CanAct, Counts, Own;
      EndCounts(a, l, con, o, c, notes);
    }
  }

  lemma WriteMoveCounts(a: Act, l: Lease, con: Session, o: Operation, c: Connection, notes: multiset<Note>)
    requires CanAct(a, o) && MayWrite(a) && Counts(l, notes, o.phase) && o.phase.Holds() == Some(con)
    ensures var m := Acts(a, l, con, o, c); Own(l, m.notes) && Counts(l, notes + m.notes, m.phase)
  {
    WriteCounts(a, l, con, o, c);
    hide Acts, CanAct, Phase.Had, Phase.Holds;
    var m := Acts(a, l, con, o, c);
    if m.phase.Leaving? {
      WritesDoNotCount(l, notes, WriteNotes(o, c, con), o.phase);
      assert notes + m.notes == (notes + WriteNotes(o, c, con)) + multiset{Ended(l, m.phase.ending)};
    } else {
      WritesDoNotCount(l, notes, m.notes, o.phase);
    }
  }

  lemma EndCounts(a: Act, l: Lease, con: Session, o: Operation, c: Connection, notes: multiset<Note>)
    requires CanAct(a, o) && Counts(l, notes, o.phase) && o.phase.Holds() == Some(con)
    requires a.ProbeHasNoCursor? || a.ProbeDoesNotClose? || a.BodyEnds?
    ensures var m := Acts(a, l, con, o, c); Own(l, m.notes) && Counts(l, notes + m.notes, m.phase)
  {}

  lemma WritesDoNotCount(l: Lease, notes: multiset<Note>, more: multiset<Note>, p: Phase)
    requires Counts(l, notes, p) && forall n :: n in more ==> n.Wrote?
    ensures Counts(l, notes + more, p)
  {
    forall con ensures more[Took(l, con)] == 0 == more[Gave(l, con)] {
      assert Took(l, con) !in more && Gave(l, con) !in more;
    }
    forall e ensures more[Ended(l, e)] == 0 { assert Ended(l, e) !in more; }
  }

  // ----- every operation at once -----

  function PhaseOf(s: State, l: Lease): Phase {
    if l in s.operations then s.operations[l].phase else Waiting
  }

  predicate Enabled(s: State, a: Step) {
    match a
    case Begin(l, _) => l !in s.operations
    case AcquireFails(l, _) => l in s.operations && s.operations[l].phase.Waiting?
    case Works(l, con, act) =>
      l in s.operations && CanAct(act, s.operations[l]) &&
      (if act.TakeNew? then con !in s.connections
       else con in s.connections && Finds(act, s.operations[l], s.connections[con])) &&
      (if act.TakeIdle? then s.connections[con].place == Idle
       else !act.TakeNew? ==> s.operations[l].phase.Holds() == Some(con))
    case Sicken(con) => con in s.connections
    case Discard(con) => con in s.connections && s.connections[con].place == Idle
  }

  function Do(s: State, a: Step): State
    requires Enabled(s, a)
  {
    match a
    case Begin(l, bound) => s.(operations := s.operations[l := Operation(bound, Waiting, false)])
    case AcquireFails(l, e) =>
      State(s.connections, s.operations[l := s.operations[l].(phase := Finished(None, Raised(e)))],
            s.notes + multiset{Ended(l, Raised(e))})
    case Works(l, con, act) =>
      var o := s.operations[l];
      var m := Acts(act, l, con, o, if con in s.connections then s.connections[con] else Connection(0, true, Idle));
      State(s.connections[con := m.connection], s.operations[l := o.(phase := m.phase, checked := act.Passes?)],
            s.notes + m.notes)
    case Sicken(con) => s.(connections := s.connections[con := s.connections[con].(healthy := false)])
    case Discard(con) => s.(connections := s.connections[con := s.connections[con].(place := Dropped)])
  }

  /** Of one operation: its connection is there, and its own, and fits it. */
  ghost predicate Owns(s: State, l: Lease) {
    l in s.operations ==>
      var o := s.operations[l];
      o.phase.Holds().Some? ==>
        var con := o.phase.Holds().value; con in s.connections && Fits(l, con, o, s.connections[con])
  }

  /** Of one connection: a held one is held by the operation it names, and an idle one has no bound. */
  ghost predicate Placed(s: State, con: Session) {
    con in s.connections ==>
      match s.connections[con].place
      case Held(l) => l in s.operations && s.operations[l].phase.Holds() == Some(con)
      case Idle => s.connections[con].callTimeout == 0
      case Dropped => true
  }

  ghost predicate Safe(s: State) {
    (forall l :: Owns(s, l)) && (forall con :: Placed(s, con)) &&
    forall l :: Counts(l, s.notes, PhaseOf(s, l))
  }

  lemma WorkKeepsOwners(s: State, l: Lease, con: Session, act: Act)
    requires Safe(s) && Enabled(s, Works(l, con, act))
    ensures var t := Do(s, Works(l, con, act)); (forall k :: Owns(t, k)) && (forall c :: Placed(t, c))
  {
    hide Acts, CanAct, Carries, Counts;
    var o := s.operations[l];
    var c := if con in s.connections then s.connections[con] else Connection(0, true, Idle);
    assert Owns(s, l) && Placed(s, con);
    StartsFree(act, o);
    MoveFits(act, l, con, o, c);
    var t := Do(s, Works(l, con, act));
    MoveHolds(act, l, con, o, c);
    forall k ensures Owns(t, k) { assert Owns(s, k); }
    forall d ensures Placed(t, d) { assert Placed(s, d); }
  }

  lemma StartsFree(a: Act, o: Operation)
    requires CanAct(a, o)
    ensures (a.TakeIdle? || a.TakeNew?) <==> o.phase.Waiting?
    ensures o.phase.Holds().None? ==> o.phase.Waiting?
  {}

  lemma MoveHolds(a: Act, l: Lease, con: Session, o: Operation, c: Connection)
    requires CanAct(a, o) && (o.phase.Waiting? || o.phase.Holds() == Some(con))
    ensures var m := Acts(a, l, con, o, c); if m.phase.Finished? then a.Return? else m.phase.Holds() == Some(con)
  {}

  lemma WorkKeepsCounts(s: State, l: Lease, con: Session, act: Act)
    requires Safe(s) && Enabled(s, Works(l, con, act))
    ensures var t := Do(s, Works(l, con, act));
            forall k :: Counts(k, t.notes, PhaseOf(t, k))
  {
    hide Acts, CanAct, Carries, Fits, Owns, Placed;
    var o := s.operations[l];
    var c := if con in s.connections then s.connections[con] else Connection(0, true, Idle);
    StartsFree(act, o);
    assert Counts(l, s.notes, PhaseOf(s, l));
    MoveCounts(act, l, con, o, c, s.notes);
    var m := Acts(act, l, con, o, c);
    forall k ensures Counts(k, s.notes + m.notes, PhaseOf(Do(s, Works(l, con, act)), k)) {
      assert Counts(k, s.notes, PhaseOf(s, k));
      if k != l { OthersCount(k, l, s.notes, m.notes, PhaseOf(s, k)); }
    }
  }

  lemma OthersCount(k: Lease, l: Lease, notes: multiset<Note>, more: multiset<Note>, p: Phase)
    requires k != l && Own(l, more) && Counts(k, notes, p)
    ensures Counts(k, notes + more, p)
  {
    forall con ensures more[Took(k, con)] == 0 == more[Gave(k, con)] {
      assert Took(k, con) !in more && Gave(k, con) !in more;
    }
    forall e ensures more[Ended(k, e)] == 0 { assert Ended(k, e) !in more; }
  }

  /** Every step of every interleaving keeps the pool safe. */
  lemma StepKeepsSafe(s: State, a: Step)
    requires Safe(s) && Enabled(s, a)
    ensures Safe(Do(s, a))
  {
    if a.Works? {
      hide Do, Owns, Placed, Counts;
      WorkKeepsOwners(s, a.lease, a.con, a.act);
      WorkKeepsCounts(s, a.lease, a.con, a.act);
    } else {
      hide Acts, CanAct;
      OtherStepKeepsOwners(s, a);
      OtherStepKeepsCounts(s, a);
    }
  }

  lemma OtherStepKeepsOwners(s: State, a: Step)
    requires Safe(s) && Enabled(s, a) && !a.Works?
    ensures var t := Do(s, a); (forall k :: Owns(t, k)) && (forall c :: Placed(t, c))
  {
    hide Acts, CanAct, Counts;
    var t := Do(s, a);
    forall k ensures Owns(t, k) { assert Owns(s, k); }
    forall d ensures Placed(t, d) { assert Placed(s, d); }
  }

  lemma OtherStepKeepsCounts(s: State, a: Step)
    requires Safe(s) && Enabled(s, a) && !a.Works?
    ensures var t := Do(s, a);
            forall k :: Counts(k, t.notes, PhaseOf(t, k))
  {
    hide Acts, CanAct, Owns, Placed;
    var t := Do(s, a);
    forall k ensures Counts(k, t.notes, PhaseOf(t, k)) {
      assert Counts(k, s.notes, PhaseOf(s, k));
    }
  }

  // ----- whole runs -----

  ghost predicate Runs(s: State, steps: seq<Step>, t: State)
    decreases |steps|
  {
    if steps == [] then s == t else Enabled(s, steps[0]) && Runs(Do(s, steps[0]), steps[1..], t)
  }

  lemma {:induction false} RunKeepsSafe(s: State, steps: seq<Step>, t: State)
    requires Safe(s) && Runs(s, steps, t)
    ensures Safe(t)
    decreases |steps|
  {
    hide Safe, Do;
    if steps != [] {
      StepKeepsSafe(s, steps[0]);
      RunKeepsSafe(Do(s, steps[0]), steps[1..], t);
    }
  }

  /** At the start there are no connections, no operations and nothing done. */
  lemma StartIsSafe()
    ensures Safe(START)
  {}

  /** What every reachable state keeps, however the operations' steps were interleaved. */
  lemma ReachableIsSafe(steps: seq<Step>, t: State)
    requires Runs(START, steps, t)
    ensures Safe(t)
  {
    StartIsSafe();
    RunKeepsSafe(START, steps, t);
  }

  /** A connection an operation ever had was taken once, and given back once, exactly when the
      operation has finished. */
  lemma ReturnedExactlyOnce(steps: seq<Step>, t: State, l: Lease, con: Session)
    requires Runs(START, steps, t)
    ensures t.notes[Took(l, con)] == One(PhaseOf(t, l).Had() == Some(con))
    ensures t.notes[Gave(l, con)] == if PhaseOf(t, l).Finished? then t.notes[Took(l, con)] else 0
  {
    ReachableIsSafe(steps, t);
    assert Counts(l, t.notes, PhaseOf(t, l));
  }

  /** No connection is ever in two operations' hands, or in one's and in the pool's. */
  lemma HeldByOne(steps: seq<Step>, t: State, l: Lease, k: Lease, con: Session)
    requires Runs(START, steps, t) && PhaseOf(t, l).Holds() == Some(con)
    ensures con in t.connections && t.connections[con].place == Held(l)
    ensures PhaseOf(t, k).Holds() == Some(con) ==> k == l
  {
    ReachableIsSafe(steps, t);
    assert Owns(t, l) && Owns(t, k);
  }

  /** Whatever waits in the pool carries no bound of anybody's. */
  lemma IdleCarriesNoBound(steps: seq<Step>, t: State, con: Session)
    requires Runs(START, steps, t) && con in t.connections && t.connections[con].place == Idle
    ensures t.connections[con].callTimeout == 0
  {
    ReachableIsSafe(steps, t);
    assert Placed(t, con);
  }

  /** Once every operation has finished, the pool holds every connection or has dropped it. */
  lemma QuietPoolHasEverything(steps: seq<Step>, t: State, con: Session)
    requires Runs(START, steps, t) && con in t.connections
    requires forall l :: l in t.operations ==> t.operations[l].phase.Finished?
    ensures !t.connections[con].place.Held?
  {
    ReachableIsSafe(steps, t);
    assert Placed(t, con);
  }

  lemma {:induction false} NotesStay(s: State, steps: seq<Step>, t: State)
    requires Runs(s, steps, t)
    ensures s.notes <= t.notes
    decreases |steps|
  {
    if steps != [] {
      hide Acts, CanAct;
      NotesStay(Do(s, steps[0]), steps[1..], t);
    }
  }

  /** How a lease's body ended is how the operation ends, whatever its cleanup then meets. */
  lemma OwnErrorEscapes(steps: seq<Step>, s: State, l: Lease, con: Session, ending: Outcome, more: seq<Step>, t: State)
    requires Runs(START, steps, s) && Enabled(s, Works(l, con, BodyEnds(ending)))
    requires Runs(Do(s, Works(l, con, BodyEnds(ending))), more, t)
    ensures Ending(PhaseOf(t, l)) == Some(ending)
  {
    var u := Do(s, Works(l, con, BodyEnds(ending)));
    ReachableIsSafe(steps, s);
    StepKeepsSafe(s, Works(l, con, BodyEnds(ending)));
    RunKeepsSafe(u, more, t);
    NotesStay(u, more, t);
    assert u.notes[Ended(l, ending)] >= 1;
    assert Counts(l, t.notes, PhaseOf(t, l));
  }

  /** A body begins under its own bound exactly when the probe's was taken off again, or never took. */
  lemma BodyBeginsBounded(steps: seq<Step>, s: State, l: Lease, con: Session, refused: bool)
    requires Runs(START, steps, s) && Enabled(s, Works(l, con, ProbeEnds(refused)))
    ensures var t := Do(s, Works(l, con, ProbeEnds(refused)));
            t.connections[con].callTimeout == s.operations[l].bound <==>
            Writes(s.operations[l], refused) || s.connections[con].callTimeout == s.operations[l].bound
  {
    ReachableIsSafe(steps, s);
    assert Owns(s, l);
  }

  lemma {:induction false} OneMoreStep(s: State, steps: seq<Step>, t: State, a: Step)
    requires Runs(s, steps, t) && Enabled(t, a)
    ensures Runs(s, steps + [a], Do(t, a))
    decreases |steps|
  {
    if steps == [] {
      assert [a][1..] == [] && Runs(Do(t, a), [], Do(t, a));
    } else {
      OneMoreStep(Do(s, steps[0]), steps[1..], t, a);
      assert (steps + [a])[1..] == steps[1..] + [a];
    }
  }

  lemma NoSteps(s: State)
    ensures Runs(s, [], s)
  {}

  /** A lease whose connection has just been called healthy, its bound still to be written. */
  lemma CheckedLease() returns (steps: seq<Step>, t: State)
    ensures Runs(START, steps, t)
    ensures t.operations == map[0 := Operation(0, Acquired(0), true)] &&
            t.connections == map[0 := Connection(0, true, Held(0))]
    ensures steps == [Begin(0, 0), Works(0, 0, TakeNew), Works(0, 0, Passes)]
  {
    hide Runs;
    NoSteps(START);
    steps, t := Take(START, [], START, Begin(0, 0));
    steps, t := Take(START, steps, t, Works(0, 0, TakeNew));
    steps, t := Take(START, steps, t, Works(0, 0, Passes));
  }

  /** And it may not be: a session that dies while it is probed leaves the body the probe's bound. */
  lemma ProbeBoundCanStay() returns (steps: seq<Step>, t: State)
    ensures Runs(START, steps, t) && 0 in t.operations && 0 in t.connections && PhaseOf(t, 0) == Body(0, false)
    ensures t.operations[0].bound == 0 && t.connections[0].callTimeout == 30000
  {
    hide Runs;
    steps, t := CheckedLease();
    steps, t := Take(START, steps, t, Works(0, 0, SetBound(None)));
    steps, t := Take(START, steps, t, Works(0, 0, Passes));
    steps, t := Take(START, steps, t, Works(0, 0, ProbeBegins(30000, false)));
    steps, t := Take(START, steps, t, Sicken(0));
    steps, t := Take(START, steps, t, Works(0, 0, ProbeEnds(false)));
  }

  lemma Take(start: State, steps: seq<Step>, s: State, a: Step) returns (more: seq<Step>, t: State)
    requires Runs(start, steps, s) && Enabled(s, a)
    ensures more == steps + [a] && t == Do(s, a) && Runs(start, more, t)
  {
    OneMoreStep(start, steps, s, a);
    more, t := steps + [a], Do(s, a);
  }

  /** The steps of a lease's cleanup: the body ends, the check, if the connection passes it, the reset,
      and the return. */
  function CleanupSteps(l: Lease, con: Session, healthy: bool, refused: bool): seq<Step> {
    [Works(l, con, BodyEnds(Fine))] + (if healthy then [Works(l, con, Passes)] else []) +
    [Works(l, con, Reset(refused)), Works(l, con, Return)]
  }

  /** A step of an operation on the connection it holds. */
  lemma Work(start: State, steps: seq<Step>, s: State, l: Lease, con: Session, act: Act)
    returns (more: seq<Step>, t: State)
    requires Runs(start, steps, s) && l in s.operations && con in s.connections &&
             s.operations[l].phase.Holds() == Some(con)
    requires CanAct(act, s.operations[l]) && Finds(act, s.operations[l], s.connections[con]) && !act.TakeIdle? &&
             !act.TakeNew?
    ensures more == steps + [Works(l, con, act)] && Runs(start, more, t) && l in t.operations && con in t.connections
    ensures var o := s.operations[l];
            var m := Acts(act, l, con, o, s.connections[con]);
            t.operations[l] == o.(phase := m.phase, checked := act.Passes?) && t.connections[con] == m.connection
  {
    hide Runs, Acts, CanAct, Finds;
    more, t := Take(start, steps, s, Works(l, con, act));
  }

  lemma ResetAndReturn(start: State, steps: seq<Step>, s: State, l: Lease, con: Session, refused: bool)
    returns (more: seq<Step>, t: State)
    requires Runs(start, steps, s) && l in s.operations && con in s.connections && s.operations[l].phase.Leaving?
    requires s.operations[l].phase.con == con && (!s.operations[l].checked ==> !s.connections[con].healthy)
    ensures more == steps + [Works(l, con, Reset(refused)), Works(l, con, Return)] && Runs(start, more, t)
    ensures PhaseOf(t, l).Finished? && con in t.connections
    ensures t.connections[con].place == if s.operations[l].checked && !refused then Idle else Dropped
  {
    hide Runs, Do, Enabled;
    more, t := Work(start, steps, s, l, con, Reset(refused));
    more, t := Work(start, more, t, l, con, Return);
  }

  /** A lease's cleanup gives the connection back to the pool if it takes the reset, and drops it if not. */
  lemma CleanupReturns(s: State, l: Lease, refused: bool) returns (t: State)
    requires Safe(s) && l in s.operations && s.operations[l].phase.Body? && !s.operations[l].checked
    ensures var con := s.operations[l].phase.con;
            con in s.connections && Runs(s, CleanupSteps(l, con, s.connections[con].healthy, refused), t)
    ensures PhaseOf(t, l).Finished?
    ensures var con := s.operations[l].phase.con;
            con in s.connections && con in t.connections &&
            t.connections[con].place == if s.connections[con].healthy && !refused then Idle else Dropped
  {
    assert Owns(s, l);
    hide Counts, Runs, Fits, Safe, Owns, Placed, Do, Enabled, PhaseOf;
    var con := s.operations[l].phase.con;
    NoSteps(s);
    var steps;
    steps, t := Work(s, [], s, l, con, BodyEnds(Fine));
    if s.connections[con].healthy { steps, t := Work(s, steps, t, l, con, Passes); }
    steps, t := ResetAndReturn(s, steps, t, l, con, refused);
    assert steps == CleanupSteps(l, con, s.connections[con].healthy, refused);
  }
}
