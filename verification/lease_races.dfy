/** When a `call_timeout` write can reach a session that has died: exactly when it dies between its
    check and its write. */
module LeaseRaces {
  import opened Leases
  import opened Options

  /** This operation had the connection called healthy by step `i`, and has done nothing since. */
  ghost predicate CheckStands(steps: seq<Step>, l: Lease, con: Session, i: nat) {
    i < |steps| && steps[i] == Works(l, con, Passes) && forall m :: i < m < |steps| ==> !Moves(l, steps[m])
  }

  predicate Moves(l: Lease, a: Step) { a.Works? && a.lease == l }

  ghost predicate DiedSince(steps: seq<Step>, con: Session, i: nat) {
    exists k :: i < k < |steps| && steps[k] == Sicken(con)
  }

  /** Step `j` is the write that follows a check, and the session died in between. */
  ghost predicate Race(steps: seq<Step>, con: Session, j: nat) {
    j < |steps| && steps[j].Works? && steps[j].con == con && Bounds(steps[j].act) &&
    exists i: nat :: CheckStands(steps[..j], steps[j].lease, con, i) && DiedSince(steps[..j], con, i)
  }

  ghost predicate Races(steps: seq<Step>, con: Session) { exists j: nat :: Race(steps, con, j) }

  /** A check that stands: its operation holds the connection, which is healthy unless it died since. */
  ghost predicate Standing(steps: seq<Step>, t: State, l: Lease, con: Session, i: nat) {
    CheckStands(steps, l, con, i) ==>
      l in t.operations && t.operations[l].checked && t.operations[l].phase.Holds() == Some(con) &&
      con in t.connections && (t.connections[con].healthy <==> !DiedSince(steps, con, i))
  }

  /** An operation about to write has such a check behind it. */
  ghost predicate Behind(steps: seq<Step>, t: State, l: Lease) {
    l in t.operations && t.operations[l].checked ==> exists con: Session, i: nat :: CheckStands(steps, l, con, i)
  }

  ghost predicate Checks(steps: seq<Step>, t: State) {
    (forall l: Lease, con: Session, i: nat :: Standing(steps, t, l, con, i)) && forall l: Lease :: Behind(steps, t, l)
  }

  lemma CheckStandsNext(steps: seq<Step>, a: Step, l: Lease, con: Session, i: nat)
    ensures CheckStands(steps + [a], l, con, i) <==>
              (i == |steps| && a == Works(l, con, Passes)) || (CheckStands(steps, l, con, i) && !Moves(l, a))
    ensures i < |steps| ==> (DiedSince(steps + [a], con, i) <==> DiedSince(steps, con, i) || a == Sicken(con))
    ensures i == |steps| ==> !DiedSince(steps + [a], con, i)
  {
    var more := steps + [a];
    if CheckStands(more, l, con, i) && i < |steps| {
      assert more[|steps|] == a;
      forall m | i < m < |steps| ensures !Moves(l, steps[m]) { assert more[m] == steps[m]; }
    }
    if i < |steps| && DiedSince(steps, con, i) {
      var k :| i < k < |steps| && steps[k] == Sicken(con);
      assert more[k] == Sicken(con);
    }
    if i < |steps| && a == Sicken(con) { assert more[|steps|] == Sicken(con); }
  }

  /** What a step leaves of an operation and a connection it does not touch, and of a connection's health. */
  lemma Untouched(s: State, a: Step, l: Lease, con: Session)
    requires Enabled(s, a) && (l in s.operations && s.operations[l].checked ==> s.operations[l].phase.Holds().Some?)
    ensures l in s.operations && s.operations[l].checked && !Moves(l, a) ==>
              l in Do(s, a).operations && Do(s, a).operations[l] == s.operations[l]
    ensures con in s.connections ==>
              con in Do(s, a).connections &&
              (Do(s, a).connections[con].healthy <==> s.connections[con].healthy && a != Sicken(con))
    ensures l in Do(s, a).operations && Do(s, a).operations[l].checked ==>
              (a.Works? && a.lease == l && a.act.Passes?) ||
              (l in s.operations && s.operations[l].checked && !Moves(l, a))
  {
    hide CanAct;
    if a.Works? {
      assert a.con in s.connections && a.con == con ==>
               Acts(a.act, a.lease, con, s.operations[a.lease], s.connections[con]).connection.healthy ==
                 s.connections[con].healthy;
    }
  }

  lemma Passed(s: State, l: Lease, con: Session)
    requires Enabled(s, Works(l, con, Passes))
    ensures var t := Do(s, Works(l, con, Passes));
            l in t.operations && t.operations[l].checked && t.operations[l].phase.Holds() == Some(con) &&
            con in t.connections && t.connections[con].healthy
  {}

  lemma CheckedHolds(steps: seq<Step>, s: State, l: Lease)
    requires Checks(steps, s) && l in s.operations && s.operations[l].checked
    ensures s.operations[l].phase.Holds().Some? && s.operations[l].phase.Holds().value in s.connections
    ensures exists i: nat :: CheckStands(steps, l, s.operations[l].phase.Holds().value, i) &&
                             (s.connections[s.operations[l].phase.Holds().value].healthy <==>
                              !DiedSince(steps, s.operations[l].phase.Holds().value, i))
  {
    hide CheckStands, DiedSince;
    assert Behind(steps, s, l);
    var con: Session, i: nat :| CheckStands(steps, l, con, i);
    assert Standing(steps, s, l, con, i);
  }

  lemma StepKeepsChecks(steps: seq<Step>, s: State, a: Step)
    requires Checks(steps, s) && Enabled(s, a)
    ensures Checks(steps + [a], Do(s, a))
  {
    hide Enabled, Do, CheckStands, DiedSince;
    var more, t := steps + [a], Do(s, a);
    forall l: Lease, con: Session, i: nat ensures Standing(more, t, l, con, i) {
      assert Standing(steps, s, l, con, i);
      if l in s.operations && s.operations[l].checked { CheckedHolds(steps, s, l); }
      CheckStandsNext(steps, a, l, con, i);
      Untouched(s, a, l, con);
      if a == Works(l, con, Passes) { Passed(s, l, con); }
      if CheckStands(steps, l, con, i) { StandsBelow(steps, l, con, i); }
    }
    forall l: Lease ensures Behind(more, t, l) {
      assert Behind(steps, s, l);
      if l in s.operations && s.operations[l].checked { CheckedHolds(steps, s, l); }
      Untouched(s, a, l, 0);
      if l in t.operations && t.operations[l].checked {
        if Moves(l, a) {
          CheckStandsNext(steps, a, l, a.con, |steps|);
        } else {
          var con: Session, i: nat :| CheckStands(steps, l, con, i);
          CheckStandsNext(steps, a, l, con, i);
        }
      }
    }
  }

  lemma StandsBelow(steps: seq<Step>, l: Lease, con: Session, i: nat)
    requires CheckStands(steps, l, con, i)
    ensures i < |steps|
  {}

  lemma RacesNext(steps: seq<Step>, a: Step, con: Session)
    ensures Races(steps + [a], con) <==> Races(steps, con) || Race(steps + [a], con, |steps|)
  {
    var more := steps + [a];
    forall j: nat | j < |steps| ensures Race(more, con, j) <==> Race(steps, con, j) { assert more[..j] == steps[..j]; }
    if Races(steps, con) {
      var j: nat :| Race(steps, con, j);
      assert Race(more, con, j);
    }
    if Races(more, con) {
      var j: nat :| Race(more, con, j);
      assert j < |steps| ==> Race(steps, con, j);
    }
  }

  /** A step's write reaches a dead session exactly if its operation's check was passed and the connection
      is unhealthy now. */
  lemma WriteNoted(s: State, a: Step, con: Session)
    requires Enabled(s, a)
    ensures Wrote(con, false) in Do(s, a).notes <==>
              Wrote(con, false) in s.notes ||
              (a.Works? && a.con == con && con in s.connections && a.lease in s.operations &&
               s.operations[a.lease].checked && !s.connections[con].healthy)
  {
    hide Ends;
    if a.Works? && a.con in s.connections {
      ActNoted(a.act, a.lease, a.con, s.operations[a.lease], s.connections[a.con], con);
      hide Acts, CanAct;
    }
  }

  lemma ActNoted(act: Act, l: Lease, con: Session, o: Operation, c: Connection, d: Session)
    requires CanAct(act, o)
    ensures Wrote(d, false) in Acts(act, l, con, o, c).notes <==> d == con && o.checked && !c.healthy
  {}

  lemma RaceNow(steps: seq<Step>, s: State, a: Step, con: Session)
    requires Checks(steps, s) && Enabled(s, a)
    ensures Race(steps + [a], con, |steps|) <==>
              a.Works? && a.con == con && con in s.connections && a.lease in s.operations &&
              s.operations[a.lease].checked && !s.connections[con].healthy
  {
    hide CheckStands, DiedSince, Do;
    var more := steps + [a];
    assert more[..|steps|] == steps && more[|steps|] == a;
    if Race(more, con, |steps|) {
      var i: nat :| CheckStands(steps, a.lease, con, i) && DiedSince(steps, con, i);
      assert Standing(steps, s, a.lease, con, i);
    }
    if a.Works? && a.con == con && con in s.connections && a.lease in s.operations && s.operations[a.lease].checked {
      CheckedHolds(steps, s, a.lease);
      assert Bounds(a.act) && s.operations[a.lease].phase.Holds() == Some(con);
    }
  }

  lemma LastStep(s: State, steps: seq<Step>, t: State) returns (mid: State)
    requires Runs(s, steps, t) && steps != []
    ensures var n := |steps| - 1; Runs(s, steps[..n], mid) && Enabled(mid, steps[n]) && t == Do(mid, steps[n])
    decreases |steps|
  {
    hide Enabled, Do;
    var n := |steps| - 1;
    if n == 0 {
      mid := s;
      assert steps[..n] == [] && steps[1..] == [];
    } else {
      mid := LastStep(Do(s, steps[0]), steps[1..], t);
      assert steps[1..][..n - 1] == steps[..n][1..] && steps[..n][0] == steps[0];
    }
  }

  lemma {:induction false} History(steps: seq<Step>, t: State)
    requires Runs(START, steps, t)
    ensures Checks(steps, t) && forall con :: Wrote(con, false) in t.notes <==> Races(steps, con)
    decreases |steps|
  {
    if steps == [] { return; }
    hide Runs, Enabled, Do, Checks, Races, Race;
    var n := |steps| - 1;
    var mid := LastStep(START, steps, t);
    var front, a := steps[..n], steps[n];
    assert steps == front + [a];
    History(front, mid);
    StepKeepsChecks(front, mid, a);
    forall con ensures Wrote(con, false) in t.notes <==> Races(steps, con) {
      WriteNoted(mid, a, con);
      RacesNext(front, a, con);
      RaceNow(front, mid, a, con);
    }
  }

  /** A write reaches a session the driver calls unhealthy exactly when it died between that write's
      check and the write. */
  lemma DeadIsWrittenExactlyWhen(steps: seq<Step>, t: State, con: Session)
    requires Runs(START, steps, t)
    ensures Wrote(con, false) in t.notes <==> Races(steps, con)
  {
    History(steps, t);
  }

  /** The input: a session that dies between the check and the write of a lease's own bound. */
  lemma WriteCanReachTheDead() returns (steps: seq<Step>, t: State)
    ensures Runs(START, steps, t) && Wrote(0, false) in t.notes
    ensures steps == [Begin(0, 0), Works(0, 0, TakeNew), Works(0, 0, Passes), Sicken(0), Works(0, 0, SetBound(None))]
  {
    hide Runs;
    steps, t := CheckedLease();
    steps, t := Take(START, steps, t, Sicken(0));
    steps, t := Take(START, steps, t, Works(0, 0, SetBound(None)));
  }
}
