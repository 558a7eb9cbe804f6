/**
  * The read-only assurance read off the events themselves: which leases probe, what each probe's answer
  * establishes, and what the adapter's fields are after any run. Nothing here speaks of a step or of its notes.
  */
module AssuranceEvents {
  import opened Options
  import opened Assurance

  // ----- what each event is -----

  /** This lease probes: a confirmation stands, and the last attempt is a cadence old. */
  ghost predicate Probes(c: Config, es: seq<Event>, i: nat)
    requires i < |es|
    decreases i, 0
  {
    es[i].Lease? && c.readOnly && c.ttl > 0.0 &&
    (exists k: nat :: k < i && Confirms(c, es, k) && forall j: nat :: k < j < i ==> !Opens(c, es, j)) &&
    (forall k: nat :: k < i && Tries(c, es, k) && (forall j: nat :: k < j < i ==> !Tries(c, es, j)) ==>
       es[i].at - es[k].at >= c.ttl)
  }

  /** A boot found the database read-only, or a lease's probe was refused as a write there is. */
  ghost predicate Confirms(c: Config, es: seq<Event>, i: nat)
    requires i < |es|
    decreases i, 1
  {
    es[i].Boot? || (Probes(c, es, i) && es[i].probe.Ran? && es[i].probe.answer == Refused)
  }

  /** A lease's probe was answered to its end: the database accepts writes. */
  ghost predicate Opens(c: Config, es: seq<Event>, i: nat)
    requires i < |es|
    decreases i, 1
  {
    Probes(c, es, i) && es[i].probe == Ran(Answered, true)
  }

  /** A boot, or a lease that probes, whatever comes of it. */
  ghost predicate Tries(c: Config, es: seq<Event>, i: nat)
    requires i < |es|
    decreases i, 1
  {
    es[i].Boot? || Probes(c, es, i)
  }

  /** A lease's probe failed in any other way: nothing is established. */
  ghost predicate Fails(c: Config, es: seq<Event>, i: nat)
    requires i < |es|
  {
    Probes(c, es, i) && es[i].probe.Ran? && es[i].probe.answer == Faulted
  }

  /** A check that ran to its end, either way. */
  ghost predicate Checks(c: Config, es: seq<Event>, i: nat)
    requires i < |es|
  {
    Confirms(c, es, i) || Opens(c, es, i)
  }

  /** What an event is depends on those before it only. */
  lemma {:induction false} SameBefore(c: Config, es: seq<Event>, more: seq<Event>, i: nat)
    requires i < |es| && es <= more
    ensures Probes(c, es, i) <==> Probes(c, more, i)
    ensures Confirms(c, es, i) <==> Confirms(c, more, i)
    ensures Opens(c, es, i) <==> Opens(c, more, i)
    ensures Tries(c, es, i) <==> Tries(c, more, i)
    decreases i
  {
    forall k: nat | k < i
      ensures Confirms(c, es, k) <==> Confirms(c, more, k)
      ensures Opens(c, es, k) <==> Opens(c, more, k)
      ensures Tries(c, es, k) <==> Tries(c, more, k)
    {
      SameBefore(c, es, more, k);
    }
  }

  // ----- what a run of events leaves -----

  /** The last of them that was a boot or probed. */
  ghost predicate LastTry(c: Config, es: seq<Event>, i: nat) {
    i < |es| && Tries(c, es, i) && forall j: nat :: i < j < |es| ==> !Tries(c, es, j)
  }

  ghost predicate LastChecked(c: Config, es: seq<Event>, i: nat) {
    i < |es| && Checks(c, es, i) && forall j: nat :: i < j < |es| ==> !Checks(c, es, j)
  }

  /** A probe has failed and nothing has confirmed since. */
  ghost predicate Unsettled(c: Config, es: seq<Event>) {
    exists i: nat :: i < |es| && Fails(c, es, i) && forall j: nat :: i < j < |es| ==> !Confirms(c, es, j)
  }

  ghost predicate TriedAt(c: Config, es: seq<Event>, t: Option<real>) {
    match t
    case None => forall i: nat :: i < |es| ==> !Tries(c, es, i)
    case Some(at) => exists i: nat :: LastTry(c, es, i) && es[i].at == at
  }

  ghost predicate CheckedAt(c: Config, es: seq<Event>, t: Option<real>, b: Basis) {
    match t
    case None => b == Unknown && forall i: nat :: i < |es| ==> !Checks(c, es, i)
    case Some(at) =>
      exists i: nat :: LastChecked(c, es, i) && es[i].at == at &&
                       b == if Confirms(c, es, i) then Constrained else Lapsed
  }

  /** The last attempt, the last check that ran to its end and what it found, and whether an incident is open. */
  ghost predicate Established(c: Config, es: seq<Event>, w: Watch) {
    TriedAt(c, es, w.attemptedAt) && CheckedAt(c, es, w.checkedAt, w.basis) && (w.unverified <==> Unsettled(c, es))
  }

  lemma Apart(c: Config, es: seq<Event>, i: nat)
    requires i < |es|
    ensures !(Confirms(c, es, i) && Opens(c, es, i))
  {}

  ghost predicate Standing(c: Config, es: seq<Event>) {
    exists k: nat :: k < |es| && Confirms(c, es, k) && forall j: nat :: k < j < |es| ==> !Opens(c, es, j)
  }

  /** A confirmation stands exactly where the basis says so. */
  lemma StandsMeans(c: Config, es: seq<Event>, w: Watch)
    requires Established(c, es, w)
    ensures w.basis == Constrained <==> Standing(c, es)
  {
    hide Confirms, Opens, Probes, Tries, Unsettled;
    if w.checkedAt.Some? {
      var i: nat :| LastChecked(c, es, i) && w.basis == if Confirms(c, es, i) then Constrained else Lapsed;
      Apart(c, es, i);
      forall j: nat | i < j < |es| ensures !Opens(c, es, j) && !Confirms(c, es, j) { assert !Checks(c, es, j); }
    } else {
      forall k: nat | k < |es| ensures !Confirms(c, es, k) { assert !Checks(c, es, k); }
    }
  }

  ghost predicate Rested(c: Config, es: seq<Event>, now: real) {
    forall k: nat :: LastTry(c, es, k) ==> now - es[k].at >= c.ttl
  }

  lemma RestedMeans(c: Config, es: seq<Event>, w: Watch, now: real)
    requires Established(c, es, w)
    ensures Rested(c, es, now) <==> w.attemptedAt.None? || now - w.attemptedAt.value >= c.ttl
  {
    hide Tries, CheckedAt, Unsettled;
    if w.attemptedAt.Some? {
      var i: nat :| LastTry(c, es, i) && es[i].at == w.attemptedAt.value;
      forall k: nat | LastTry(c, es, k) ensures k == i {}
    }
  }

  ghost predicate StandingAt(c: Config, es: seq<Event>, i: nat)
    requires i < |es|
  {
    exists k: nat :: k < i && Confirms(c, es, k) && forall j: nat :: k < j < i ==> !Opens(c, es, j)
  }

  ghost predicate RestedAt(c: Config, es: seq<Event>, i: nat)
    requires i < |es|
  {
    forall k: nat :: k < i && Tries(c, es, k) && (forall j: nat :: k < j < i ==> !Tries(c, es, j)) ==>
      es[i].at - es[k].at >= c.ttl
  }

  lemma ProbesMeans(c: Config, es: seq<Event>, i: nat)
    requires i < |es|
    ensures Probes(c, es, i) <==>
              es[i].Lease? && c.readOnly && c.ttl > 0.0 && StandingAt(c, es, i) && RestedAt(c, es, i)
  {}

  /** The next event probes as the events before it say. */
  lemma ProbesNext(c: Config, es: seq<Event>, e: Event)
    ensures Probes(c, es + [e], |es|) <==>
              e.Lease? && c.readOnly && c.ttl > 0.0 && Standing(c, es) && Rested(c, es, e.at)
  {
    var more := es + [e];
    ProbesMeans(c, more, |es|);
    hide Confirms, Opens, Tries, Probes;
    forall k: nat | k < |es|
      ensures Confirms(c, es, k) <==> Confirms(c, more, k)
      ensures Opens(c, es, k) <==> Opens(c, more, k)
      ensures Tries(c, es, k) <==> Tries(c, more, k)
    {
      SameBefore(c, es, more, k);
    }
    if StandingAt(c, more, |es|) {
      var k: nat :| k < |es| && Confirms(c, more, k) && forall j: nat :: k < j < |es| ==> !Opens(c, more, j);
      assert Confirms(c, es, k);
    }
    if RestedAt(c, more, |es|) {
      forall k: nat | LastTry(c, es, k) ensures e.at - es[k].at >= c.ttl {
        assert Tries(c, more, k) && more[k] == es[k];
      }
    }
    if Standing(c, es) {
      var k: nat :| k < |es| && Confirms(c, es, k) && forall j: nat :: k < j < |es| ==> !Opens(c, es, j);
      assert Confirms(c, more, k);
    }
    if Rested(c, es, e.at) {
      forall k: nat | k < |es| && Tries(c, more, k) && (forall j: nat :: k < j < |es| ==> !Tries(c, more, j))
        ensures more[|es|].at - more[k].at >= c.ttl
      {
        assert LastTry(c, es, k);
      }
    }
  }

  lemma DueMeans(c: Config, es: seq<Event>, w: Watch, e: Event)
    requires Established(c, es, w)
    ensures Probes(c, es + [e], |es|) <==> e.Lease? && Due(c, w, e.at)
  {
    hide Probes, Standing, Rested, Established;
    ProbesNext(c, es, e);
    StandsMeans(c, es, w);
    RestedMeans(c, es, w, e.at);
  }

  // ----- one more event -----

  lemma TryNext(c: Config, es: seq<Event>, e: Event, i: nat)
    ensures LastTry(c, es + [e], i) <==>
              if Tries(c, es + [e], |es|) then i == |es| else LastTry(c, es, i)
    ensures LastChecked(c, es + [e], i) <==>
              if Checks(c, es + [e], |es|) then i == |es| else LastChecked(c, es, i)
  {
    hide Confirms, Opens, Tries;
    var more := es + [e];
    forall k: nat | k < |es|
      ensures Confirms(c, es, k) <==> Confirms(c, more, k)
      ensures Opens(c, es, k) <==> Opens(c, more, k)
      ensures Tries(c, es, k) <==> Tries(c, more, k)
    {
      SameBefore(c, es, more, k);
    }
    forall k: nat | k < |es| ensures Checks(c, es, k) <==> Checks(c, more, k) {}
    if LastTry(c, more, i) && i < |es| { assert !Tries(c, more, |es|); }
    if LastChecked(c, more, i) && i < |es| { assert !Checks(c, more, |es|); }
  }

  lemma UnsettledNext(c: Config, es: seq<Event>, e: Event)
    ensures Unsettled(c, es + [e]) <==>
              Fails(c, es + [e], |es|) || (Unsettled(c, es) && !Confirms(c, es + [e], |es|))
  {
    hide Confirms, Probes;
    var more := es + [e];
    forall k: nat | k < |es|
      ensures Confirms(c, es, k) <==> Confirms(c, more, k)
      ensures Probes(c, es, k) <==> Probes(c, more, k)
    {
      SameBefore(c, es, more, k);
    }
    forall k: nat | k < |es| ensures Fails(c, es, k) <==> Fails(c, more, k) { assert more[k] == es[k]; }
    if Unsettled(c, more) {
      var i: nat :| i < |more| && Fails(c, more, i) && forall j: nat :: i < j < |more| ==> !Confirms(c, more, j);
      assert i < |es| ==> Fails(c, es, i) && !Confirms(c, more, |es|);
    }
    if Unsettled(c, es) && !Confirms(c, more, |es|) {
      var i: nat :| i < |es| && Fails(c, es, i) && forall j: nat :: i < j < |es| ==> !Confirms(c, es, j);
      assert Fails(c, more, i);
    }
  }

  lemma TriedNext(c: Config, es: seq<Event>, e: Event, t: Option<real>)
    requires TriedAt(c, es, t)
    ensures TriedAt(c, es + [e], if Tries(c, es + [e], |es|) then Some(e.at) else t)
  {
    hide Tries;
    var more, n := es + [e], |es|;
    if Tries(c, more, n) {
      TryNext(c, es, e, n);
    } else if t.Some? {
      var i: nat :| i < |es| && LastTry(c, es, i) && es[i].at == t.value;
      TryNext(c, es, e, i);
      assert more[i] == es[i];
    } else {
      forall i: nat | i < n ensures !Tries(c, more, i) { SameBefore(c, es, more, i); }
    }
  }

  lemma CheckedNext(c: Config, es: seq<Event>, e: Event, t: Option<real>, b: Basis)
    requires CheckedAt(c, es, t, b)
    ensures var more, n := es + [e], |es|;
            CheckedAt(c, more, if Checks(c, more, n) then Some(e.at) else t,
                      if Confirms(c, more, n) then Constrained else if Opens(c, more, n) then Lapsed else b)
  {
    hide Confirms, Opens;
    var more, n := es + [e], |es|;
    if Checks(c, more, n) {
      TryNext(c, es, e, n);
    } else if t.Some? {
      var i: nat :| i < |es| && LastChecked(c, es, i) && es[i].at == t.value &&
                    b == if Confirms(c, es, i) then Constrained else Lapsed;
      TryNext(c, es, e, i);
      SameBefore(c, es, more, i);
      assert more[i] == es[i];
    } else {
      forall i: nat | i < n ensures !Checks(c, more, i) {
        assert !Checks(c, es, i);
        SameBefore(c, es, more, i);
      }
    }
  }

  lemma KindsMean(c: Config, es: seq<Event>, i: nat)
    requires i < |es|
    ensures Confirms(c, es, i) <==>
              es[i].Boot? || (Probes(c, es, i) && es[i].probe.Ran? && es[i].probe.answer == Refused)
    ensures Opens(c, es, i) <==> Probes(c, es, i) && es[i].probe == Ran(Answered, true)
    ensures Tries(c, es, i) <==> es[i].Boot? || Probes(c, es, i)
  {}

  lemma StepEstablishes(c: Config, es: seq<Event>, w: Watch, e: Event)
    requires Established(c, es, w)
    ensures Established(c, es + [e], Step(c, w, e).watch)
  {
    var more, n := es + [e], |es|;
    DueMeans(c, es, w, e);
    KindsMean(c, more, n);
    hide Due, TriedAt, CheckedAt, Unsettled, Probes, Min, Speaks, Confirms, Opens, Tries;
    UnsettledNext(c, es, e);
    TriedNext(c, es, e, w.attemptedAt);
    CheckedNext(c, es, e, w.checkedAt, w.basis);
  }

  /** Whatever the events, the adapter's fields are what those events establish. */
  lemma {:induction false} RunEstablishes(c: Config, es: seq<Event>)
    ensures Established(c, es, Run(c, es).watch)
  {
    if es != [] {
      var front, e := es[..|es| - 1], es[|es| - 1];
      RunEstablishes(c, front);
      hide Established, Step;
      StepEstablishes(c, front, Run(c, front).watch, e);
      assert front + [e] == es;
    }
  }

  // ----- what an event changes, and what it is noted as -----

  /** A probe that could not run, failed, or did not close establishes nothing: neither clock of the check nor the
      basis moves. One that failed is noted so, and the lease still raises only what closing the cursor raised. */
  lemma NothingEstablished(c: Config, es: seq<Event>, e: Event)
    requires e.Lease? && (e.probe == NoCursor || e.probe.answer == Faulted || e.probe == Ran(Answered, false))
    ensures var before, after := Run(c, es), Run(c, es + [e]);
            after.watch.checkedAt == before.watch.checkedAt && after.watch.basis == before.watch.basis
    ensures var before, after := Run(c, es), Run(c, es + [e]);
            Probes(c, es + [e], |es|) ==>
              after.watch.attemptedAt == Some(e.at) &&
              after.notes == before.notes + [Probed(e.at)] +
                             if e.probe.Ran? && e.probe.answer == Faulted
                             then [Failed(e.reportAt, Speaks(before.watch, e.reportAt))] else []
    ensures !Probes(c, es + [e], |es|) ==> Run(c, es + [e]) == Run(c, es)
  {
    RunEstablishes(c, es);
    DueMeans(c, es, Run(c, es).watch, e);
    assert (es + [e])[..|es|] == es;
  }

  /** The basis lapses at a lease exactly when it probes and the database answers. */
  lemma LapsesExactlyWhen(c: Config, es: seq<Event>, e: Event)
    requires e.Lease? && Run(c, es).watch.basis != Lapsed
    ensures Run(c, es + [e]).watch.basis == Lapsed <==> Probes(c, es + [e], |es|) && e.probe == Ran(Answered, true)
  {
    hide Speaks;
    RunEstablishes(c, es);
    DueMeans(c, es, Run(c, es).watch, e);
    assert (es + [e])[..|es|] == es;
  }

  /** What the check lets out into the lease: no cursor was had, or it did not close. */
  lemma RaisesExactlyWhen(c: Config, es: seq<Event>, e: Event)
    requires e.Lease?
    ensures Step(c, Run(c, es).watch, e).raised <==>
              Probes(c, es + [e], |es|) && (e.probe.NoCursor? || !e.probe.closes)
  {
    hide Speaks;
    RunEstablishes(c, es);
    DueMeans(c, es, Run(c, es).watch, e);
  }

  /** A probe that fails for ever never renews the check it stands on. */
  lemma {:induction false} FailuresRenewNothing(c: Config, es: seq<Event>, more: seq<Event>)
    requires forall e :: e in more ==> e.Lease? && (e.probe == NoCursor || e.probe.answer == Faulted)
    ensures Run(c, es + more).watch.checkedAt == Run(c, es).watch.checkedAt
    ensures Run(c, es + more).watch.basis == Run(c, es).watch.basis
  {
    if more == [] {
      assert es + more == es;
    } else {
      var front, e := more[..|more| - 1], more[|more| - 1];
      FailuresRenewNothing(c, es, front);
      assert e in more && es + more == (es + front) + [e];
      NothingEstablished(c, es + front, e);
    }
  }
}
