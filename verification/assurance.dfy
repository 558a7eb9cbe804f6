/**
  * The two-clock read-only assurance: when the open mode is probed again, what each outcome records,
  * and when a run of failed probes is reported. Times are monotonic seconds.
  */
module Assurance {
  import opened Options

  const MAX_GAP := 3600.0

  datatype Basis = Unknown | Constrained | Lapsed

  /** The fields the adapter keeps. */
  datatype Watch = Watch(
    basis: Basis,
    checkedAt: Option<real>,
    attemptedAt: Option<real>,
    unverified: bool,
    since: real,
    nextS: real)

  const FRESH := Watch(Unknown, None, None, false, 0.0, 0.0)

  datatype Config = Config(readOnly: bool, ttl: real)

  /** What the database said to the probe: refused as read-only, answered, or anything else. */
  datatype Answer = Refused | Answered | Faulted

  /** A probe as it went: no cursor was had, or an answer, and whether the cursor then closed. */
  datatype Probe = NoCursor | Ran(answer: Answer, closes: bool)

  /** A lease at a time, with the probe it would meet and when its report would be written; or a boot that found the
      database read-only. */
  datatype Event = Lease(at: real, probe: Probe, reportAt: real) | Boot(at: real)

  /** What a run leaves to be seen. */
  datatype Note = Probed(at: real) | Failed(at: real, logged: bool) | Confirmed(at: real) | Opened(at: real)

  datatype Outcome = Outcome(watch: Watch, notes: seq<Note>, raised: bool)

  function Min(a: real, b: real): real { if a <= b then a else b }

  function Max(a: real, b: real): real { if a <= b then b else a }

  /** The wait after a line written `u` seconds into an incident. */
  function Gap(ttl: real, u: real): real { Min(Max(u, 2.0 * ttl), MAX_GAP) }

  predicate Due(c: Config, w: Watch, now: real) {
    c.readOnly && c.ttl > 0.0 && w.basis == Constrained &&
    (w.attemptedAt.None? || now - w.attemptedAt.value >= c.ttl)
  }

  function Record(w: Watch, now: real): Watch {
    w.(basis := Constrained, checkedAt := Some(now), attemptedAt := Some(now), unverified := false)
  }

  predicate Speaks(w: Watch, now: real) { !w.unverified || now - w.since >= w.nextS }

  function Report(c: Config, w: Watch, now: real): Watch {
    if !w.unverified then w.(unverified := true, since := now, nextS := Min(c.ttl * 2.0, MAX_GAP))
    else if Speaks(w, now) then w.(nextS := (now - w.since) + Gap(c.ttl, now - w.since))
    else w
  }

  /** One lease or boot, on values. */
  function Step(c: Config, w: Watch, e: Event): Outcome {
    match e
    case Boot(now) => Outcome(Record(w, now), [Confirmed(now)], false)
    case Lease(now, probe, reportAt) =>
      if !Due(c, w, now) then Outcome(w, [], false)
      else
        var tried := w.(attemptedAt := Some(now));
        match probe
        case NoCursor => Outcome(tried, [Probed(now)], true)
        case Ran(Refused, closes) => Outcome(Record(tried, now), [Probed(now), Confirmed(now)], !closes)
        case Ran(Faulted, closes) =>
          Outcome(Report(c, tried, reportAt), [Probed(now), Failed(reportAt, Speaks(tried, reportAt))], !closes)
        case Ran(Answered, closes) =>
          if closes then Outcome(tried.(checkedAt := Some(now), basis := Lapsed), [Probed(now), Opened(now)], false)
          else Outcome(tried, [Probed(now)], true)
  }

  // ----- whole runs -----

  datatype History = History(watch: Watch, notes: seq<Note>)

  function Run(c: Config, es: seq<Event>): History {
    if es == [] then History(FRESH, [])
    else
      var before := Run(c, es[..|es| - 1]);
      var o := Step(c, before.watch, es[|es| - 1]);
      History(o.watch, before.notes + o.notes)
  }

  function Begins(e: Event): real { e.at }

  function Ends(e: Event): real { if e.Lease? then e.reportAt else e.at }

  /** The clock never goes back. */
  ghost predicate Monotone(es: seq<Event>) {
    (forall i :: 0 <= i < |es| ==> Begins(es[i]) <= Ends(es[i])) &&
    (forall i, j :: 0 <= i < j < |es| ==> Ends(es[i]) <= Begins(es[j]))
  }

  // ----- what a history says, without the fields -----

  /** The failures since the last confirmation. */
  function Incident(h: seq<Note>): seq<Note> {
    if h == [] then []
    else
      match h[|h| - 1]
      case Confirmed(_) => []
      case Failed(_, _) => Incident(h[..|h| - 1]) + [h[|h| - 1]]
      case _ => Incident(h[..|h| - 1])
  }

  /** When the last line of an incident was written; its first failure always is one. */
  function LastLine(f: seq<Note>): real
    requires f != []
  {
    if |f| == 1 || (f[|f| - 1].Failed? && f[|f| - 1].logged) then f[|f| - 1].at else LastLine(f[..|f| - 1])
  }

  /** When a probe last ran to an end, or a boot confirmed. */
  function LastCheck(h: seq<Note>): Option<real> {
    if h == [] then None
    else
      match h[|h| - 1]
      case Confirmed(t) => Some(t)
      case Opened(t) => Some(t)
      case _ => LastCheck(h[..|h| - 1])
  }

  /** When a probe was last begun, or a boot confirmed. */
  function LastAttempt(h: seq<Note>): Option<real> {
    if h == [] then None
    else if h[|h| - 1].Probed? || h[|h| - 1].Confirmed? then Some(h[|h| - 1].at)
    else LastAttempt(h[..|h| - 1])
  }

  function LastBasis(h: seq<Note>): Basis {
    if h == [] then Unknown
    else
      match h[|h| - 1]
      case Confirmed(_) => Constrained
      case Opened(_) => Lapsed
      case _ => LastBasis(h[..|h| - 1])
  }

  /** A failure is reported exactly when it opens its incident, or its line is due after the last. */
  ghost predicate Paced(ttl: real, h: seq<Note>, i: nat)
    requires i < |h|
  {
    h[i].Failed? ==>
      var f := Incident(h[..i]);
      h[i].logged <==> f == [] || h[i].at - LastLine(f) >= Gap(ttl, LastLine(f) - f[0].at)
  }

  ghost predicate Ordered(h: seq<Note>) { forall i, j :: 0 <= i < j < |h| ==> h[i].at <= h[j].at }

  ghost predicate Spaced(ttl: real, h: seq<Note>) {
    forall i, j :: 0 <= i < j < |h| && h[i].Probed? && h[j].Probed? ==> h[j].at - h[i].at >= ttl
  }

  // ----- the fields tell the history -----

  /** The fields after a run are what its history says they are. */
  ghost predicate Tells(c: Config, w: Watch, h: seq<Note>) {
    w.basis == LastBasis(h) && w.checkedAt == LastCheck(h) &&
    w.attemptedAt == LastAttempt(h) && (w.attemptedAt.None? ==> w.basis == Unknown) &&
    (w.unverified <==> Incident(h) != []) &&
    (w.unverified ==>
       var f := Incident(h);
       w.since == f[0].at && w.nextS == (LastLine(f) - f[0].at) + Gap(c.ttl, LastLine(f) - f[0].at))
  }

  ghost predicate After(w: Watch, h: seq<Note>) {
    w.attemptedAt.Some? ==> forall i :: 0 <= i < |h| && h[i].Probed? ==> h[i].at <= w.attemptedAt.value
  }

  ghost predicate AllPaced(ttl: real, h: seq<Note>) { forall i :: 0 <= i < |h| ==> Paced(ttl, h, i) }

  lemma Snoc(h: seq<Note>, n: Note)
    ensures (h + [n])[..|h + [n]| - 1] == h && (h + [n])[|h|] == n
  {}

  lemma IncidentSnoc(h: seq<Note>, n: Note)
    ensures Incident(h + [n]) == if n.Confirmed? then [] else if n.Failed? then Incident(h) + [n] else Incident(h)
  {
    Snoc(h, n);
  }

  lemma OtherSnoc(h: seq<Note>, n: Note)
    ensures LastCheck(h + [n]) == if n.Confirmed? || n.Opened? then Some(n.at) else LastCheck(h)
    ensures LastBasis(h + [n]) == if n.Confirmed? then Constrained else if n.Opened? then Lapsed else LastBasis(h)
    ensures LastAttempt(h + [n]) == if n.Confirmed? || n.Probed? then Some(n.at) else LastAttempt(h)
  {
    Snoc(h, n);
  }

  lemma LineSnoc(f: seq<Note>, n: Note)
    requires n.Failed?
    ensures (f + [n])[0] == if f == [] then n else f[0]
    ensures LastLine(f + [n]) == if f == [] || n.logged then n.at else LastLine(f)
  {
    Snoc(f, n);
  }

  lemma {:induction false} PacedSnoc(ttl: real, h: seq<Note>, n: Note)
    requires AllPaced(ttl, h)
    requires n.Failed? ==>
               var f := Incident(h);
               n.logged <==> f == [] || n.at - LastLine(f) >= Gap(ttl, LastLine(f) - f[0].at)
    ensures AllPaced(ttl, h + [n])
  {
    var g := h + [n];
    forall i | 0 <= i < |g| ensures Paced(ttl, g, i) {
      if i < |h| {
        assert g[..i] == h[..i] && Paced(ttl, h, i);
      } else {
        assert g[..i] == h;
      }
    }
  }

  /** One failure, logged or not, keeps fields and history together. */
  lemma FailureTells(c: Config, w: Watch, h: seq<Note>, now: real)
    requires c.ttl > 0.0 && Tells(c, w, h) && w.attemptedAt.Some?
    ensures Tells(c, Report(c, w, now), h + [Failed(now, Speaks(w, now))])
    ensures var f := Incident(h); Speaks(w, now) <==> f == [] || now - LastLine(f) >= Gap(c.ttl, LastLine(f) - f[0].at)
  {
    hide Incident, LastLine, LastAttempt, LastBasis, LastCheck;
    var n := Failed(now, Speaks(w, now));
    var f := Incident(h);
    OtherSnoc(h, n);
    IncidentSnoc(h, n);
    LineSnoc(f, n);
  }

  lemma {:induction false} StepTells(c: Config, w: Watch, h: seq<Note>, e: Event)
    requires Tells(c, w, h) && AllPaced(c.ttl, h)
    ensures var o := Step(c, w, e); Tells(c, o.watch, h + o.notes) && AllPaced(c.ttl, h + o.notes)
  {
    var o := Step(c, w, e);
    match e {
      case Boot(now) => CheckTells(c, w, h, Confirmed(now));
      case Lease(now, probe, reportAt) =>
        if !Due(c, w, now) {
          assert h + o.notes == h;
        } else {
          hide Tells, AllPaced, Due;
          var tried, g := w.(attemptedAt := Some(now)), h + [Probed(now)];
          ProbeTells(c, w, h, now);
          if |o.notes| == 1 {
            assert h + o.notes == g;
          } else {
            var n := o.notes[1];
            assert h + o.notes == g + [n];
            if n.Failed? {
              FailureTells(c, tried, g, reportAt);
              PacedSnoc(c.ttl, g, n);
            } else {
              CheckTells(c, tried, g, n);
            }
          }
        }
    }
  }

  lemma CheckTells(c: Config, w: Watch, h: seq<Note>, n: Note)
    requires Tells(c, w, h) && AllPaced(c.ttl, h) && (n.Confirmed? || (n.Opened? && w.attemptedAt.Some?))
    ensures AllPaced(c.ttl, h + [n])
    ensures Tells(c, if n.Confirmed? then Record(w, n.at) else w.(checkedAt := Some(n.at), basis := Lapsed), h + [n])
  {
    hide Incident, LastLine, LastAttempt, LastBasis, LastCheck, AllPaced;
    OtherSnoc(h, n);
    IncidentSnoc(h, n);
    PacedSnoc(c.ttl, h, n);
  }

  lemma ProbeTells(c: Config, w: Watch, h: seq<Note>, now: real)
    requires Tells(c, w, h) && Due(c, w, now) && AllPaced(c.ttl, h)
    ensures Tells(c, w.(attemptedAt := Some(now)), h + [Probed(now)]) && AllPaced(c.ttl, h + [Probed(now)])
    ensures c.ttl > 0.0
  {
    hide Incident, LastLine, LastAttempt, LastBasis, LastCheck, AllPaced;
    OtherSnoc(h, Probed(now));
    IncidentSnoc(h, Probed(now));
    PacedSnoc(c.ttl, h, Probed(now));
  }

  /** Over any run the fields are what the history says, and every failure is reported exactly when due. */
  lemma {:induction false} RunTells(c: Config, es: seq<Event>)
    ensures var r := Run(c, es); Tells(c, r.watch, r.notes) && AllPaced(c.ttl, r.notes)
  {
    if es != [] {
      RunTells(c, es[..|es| - 1]);
      var before := Run(c, es[..|es| - 1]);
      StepTells(c, before.watch, before.notes, es[|es| - 1]);
    }
  }

  ghost predicate NoLater(h: seq<Note>, t: real) { forall i :: 0 <= i < |h| ==> h[i].at <= t }

  /** What one step may note: a probe first and only when due, all of it inside the step. */
  ghost predicate Inside(c: Config, w: Watch, e: Event, notes: seq<Note>) {
    (forall i :: 0 <= i < |notes| ==> Begins(e) <= notes[i].at <= Ends(e)) &&
    (forall i, j :: 0 <= i < j < |notes| ==> notes[i].at <= notes[j].at) &&
    (forall i :: 0 <= i < |notes| && notes[i].Probed? ==> i == 0 && notes[i].at == Begins(e) && Due(c, w, Begins(e)))
  }

  lemma StepInside(c: Config, w: Watch, e: Event)
    requires Begins(e) <= Ends(e)
    ensures Inside(c, w, e, Step(c, w, e).notes)
  {
    hide Due, Report, Speaks;
  }

  lemma StepAttempts(c: Config, w: Watch, e: Event)
    ensures var o := Step(c, w, e);
            (o.watch == w && o.notes == []) || o.watch.attemptedAt == Some(Begins(e))
  {
    hide Due, Speaks;
  }

  lemma JoinOrdered(h: seq<Note>, notes: seq<Note>, from: real, to: real)
    requires Ordered(h) && Ordered(notes) && NoLater(h, from) && from <= to
    requires forall i :: 0 <= i < |notes| ==> from <= notes[i].at <= to
    ensures Ordered(h + notes) && NoLater(h + notes, to)
  {}

  lemma StepSpaced(c: Config, w: Watch, h: seq<Note>, e: Event)
    requires Ordered(h) && Spaced(c.ttl, h) && After(w, h) && NoLater(h, Begins(e)) && Begins(e) <= Ends(e)
    requires w.attemptedAt.None? ==> w.basis == Unknown
    ensures var o := Step(c, w, e); var g := h + o.notes;
            Ordered(g) && Spaced(c.ttl, g) && After(o.watch, g) && NoLater(g, Ends(e))
  {
    hide Step;
    var o := Step(c, w, e);
    StepInside(c, w, e);
    StepAttempts(c, w, e);
    JoinOrdered(h, o.notes, Begins(e), Ends(e));
    if o.notes == [] { assert h + o.notes == h; }
  }

  /** A run's notes are in clock order, and its probes at least the cadence apart. */
  lemma {:induction false} RunSpaced(c: Config, es: seq<Event>)
    requires Monotone(es)
    ensures var r := Run(c, es); Ordered(r.notes) && Spaced(c.ttl, r.notes) && After(r.watch, r.notes)
    ensures es != [] ==> NoLater(Run(c, es).notes, Ends(es[|es| - 1]))
  {
    hide Spaced, Ordered, After, Step, Tells, AllPaced;
    if es == [] {
      NothingYet(c.ttl);
    } else {
      var front, e := es[..|es| - 1], es[|es| - 1];
      RunSpaced(c, front);
      var before := Run(c, front);
      Attempted(c, front);
      StepSpaced(c, before.watch, before.notes, e);
    }
  }

  lemma NothingYet(ttl: real)
    ensures Ordered([]) && Spaced(ttl, []) && After(FRESH, [])
  {}

  lemma Attempted(c: Config, es: seq<Event>)
    ensures var w := Run(c, es).watch; w.attemptedAt.None? ==> w.basis == Unknown
  {
    RunTells(c, es);
  }

  // ----- what that gives -----

  /** An incident's last line is no earlier than any line in it, and its first failure no later. */
  lemma {:induction false} LineBefore(h: seq<Note>, i: nat, j: nat)
    requires i < j <= |h| && Ordered(h) && h[i].Failed? && h[i].logged
    requires forall k :: i < k < j ==> !h[k].Confirmed?
    ensures var f := Incident(h[..j]); f != [] && f[0].at <= h[i].at <= LastLine(f)
    ensures (forall k :: i < k < j && h[k].Failed? ==> !h[k].logged) ==> LastLine(Incident(h[..j])) == h[i].at
  {
    hide Incident, LastLine;
    var p, n := Incident(h[..j - 1]), h[j - 1];
    assert h[..j] == h[..j - 1] + [n];
    IncidentSnoc(h[..j - 1], n);
    if j - 1 == i {
      LineSnoc(p, n);
      FirstBefore(h, i);
    } else {
      LineBefore(h, i, j - 1);
      if n.Failed? { LineSnoc(p, n); }
    }
  }

  /** Every failure of an incident comes from the history so far. */
  lemma {:induction false} FirstBefore(h: seq<Note>, j: nat)
    requires j <= |h| && Ordered(h)
    ensures var f := Incident(h[..j]); forall n :: n in f ==> exists k :: 0 <= k < j && h[k] == n
    ensures var f := Incident(h[..j]); j < |h| && f != [] ==> f[0].at <= h[j].at
  {
    if j > 0 {
      FirstBefore(h, j - 1);
      assert h[..j] == h[..j - 1] + [h[j - 1]];
      IncidentSnoc(h[..j - 1], h[j - 1]);
      forall n | n in Incident(h[..j]) ensures exists k :: 0 <= k < j && h[k] == n {
        if n in Incident(h[..j - 1]) {
          var k :| 0 <= k < j - 1 && h[k] == n;
        } else {
          assert h[j - 1] == n;
        }
      }
    }
    var f := Incident(h[..j]);
    if j < |h| && f != [] { assert f[0] in f; }
  }

  ghost predicate IsLine(h: seq<Note>, i: nat) { i < |h| && h[i].Failed? && h[i].logged }

  /** Nothing confirmed the basis between two notes: they belong to one incident. */
  ghost predicate Together(h: seq<Note>, i: nat, j: nat) {
    i < j < |h| && forall k :: i < k < j ==> !h[k].Confirmed?
  }

  /** The first failure of every incident is reported. */
  lemma OpeningIsReported(c: Config, es: seq<Event>, i: nat)
    requires var h := Run(c, es).notes; i < |h| && h[i].Failed? && Incident(h[..i]) == []
    ensures IsLine(Run(c, es).notes, i)
  {
    RunTells(c, es);
    assert Paced(c.ttl, Run(c, es).notes, i);
  }

  /** Two lines of one incident are at least `min(2 * ttl, 3600)` apart. */
  lemma LinesApart(c: Config, es: seq<Event>, i: nat, j: nat)
    requires Monotone(es)
    requires var h := Run(c, es).notes; IsLine(h, i) && IsLine(h, j) && Together(h, i, j)
    ensures var h := Run(c, es).notes; h[j].at - h[i].at >= Min(2.0 * c.ttl, MAX_GAP)
  {
    hide Run, Incident, LastLine;
    var h := Run(c, es).notes;
    RunTells(c, es);
    RunSpaced(c, es);
    LineBefore(h, i, j);
    assert Paced(c.ttl, h, j);
  }

  /** While an incident is no older than the cap, its next line waits until it is twice as old. */
  lemma LinesDouble(c: Config, es: seq<Event>, i: nat, j: nat)
    requires Monotone(es)
    requires var h := Run(c, es).notes; IsLine(h, i) && IsLine(h, j) && Together(h, i, j)
    ensures var h := Run(c, es).notes;
            var f := Incident(h[..j]);
            f != [] && (h[i].at - f[0].at <= MAX_GAP ==> h[j].at - f[0].at >= 2.0 * (h[i].at - f[0].at))
  {
    hide Run, Incident, LastLine;
    var h := Run(c, es).notes;
    RunTells(c, es);
    RunSpaced(c, es);
    LineBefore(h, i, j);
    assert Paced(c.ttl, h, j);
  }

  /** Every failure met in silence is less than the cap after the line before it. */
  lemma SilenceIsBounded(c: Config, es: seq<Event>, i: nat, p: nat)
    requires Monotone(es)
    requires var h := Run(c, es).notes; IsLine(h, i) && Together(h, i, p) && h[p].Failed?
    requires forall k :: i < k <= p && Run(c, es).notes[k].Failed? ==> !Run(c, es).notes[k].logged
    ensures var h := Run(c, es).notes; h[p].at - h[i].at < MAX_GAP
  {
    hide Run, Incident, LastLine;
    var h := Run(c, es).notes;
    RunTells(c, es);
    RunSpaced(c, es);
    LineBefore(h, i, p);
    assert Paced(c.ttl, h, p);
  }

  /** Between two notes, no two successive failures are more than `g` apart. */
  ghost predicate FailuresWithin(h: seq<Note>, i: nat, j: nat, g: real) {
    forall p, q ::
      i <= p < q <= j < |h| && h[p].Failed? && h[q].Failed? && (forall k :: p < k < q ==> !h[k].Failed?) ==>
        h[q].at - h[p].at <= g
  }

  lemma {:induction false} FailureBefore(h: seq<Note>, i: nat, j: nat) returns (p: nat)
    requires i < j <= |h| && h[i].Failed?
    ensures i <= p < j && h[p].Failed? && forall k :: p < k < j ==> !h[k].Failed?
    decreases j
  {
    if h[j - 1].Failed? {
      p := j - 1;
    } else {
      p := FailureBefore(h, i, j - 1);
    }
  }

  /** If failures of an incident are at most `g` apart, each line comes less than the cap and `g` after
      the one before. */
  lemma NextLineInTime(c: Config, es: seq<Event>, i: nat, j: nat, g: real)
    requires Monotone(es)
    requires var h := Run(c, es).notes; IsLine(h, i) && IsLine(h, j) && Together(h, i, j) && FailuresWithin(h, i, j, g)
    requires forall k :: i < k < j && Run(c, es).notes[k].Failed? ==> !Run(c, es).notes[k].logged
    ensures var h := Run(c, es).notes; h[j].at - h[i].at < MAX_GAP + g
  {
    hide Run;
    var h := Run(c, es).notes;
    var p := FailureBefore(h, i, j);
    if i < p { SilenceIsBounded(c, es, i, p); }
    assert h[j].at - h[p].at <= g;
  }

  function Lines(f: seq<Note>): nat {
    if f == [] then 0 else Lines(f[..|f| - 1]) + (if f[|f| - 1].Failed? && f[|f| - 1].logged then 1 else 0)
  }

  /** `n` waits of `m` seconds each. */
  function Times(n: nat, m: real): real { if n == 0 then 0.0 else Times(n - 1, m) + m }

  lemma NoneOf(m: real)
    ensures Times(0, m) == 0.0
  {}

  lemma OneMore(n: nat, m: real)
    ensures Times(n + 1, m) == Times(n, m) + m
  {}

  ghost predicate Few(f: seq<Note>, m: real)
    requires f != []
  {
    Lines(f) >= 1 && Times(Lines(f) - 1, m) <= LastLine(f) - f[0].at
  }

  lemma OneMoreFailure(ttl: real, f: seq<Note>, n: Note)
    requires n.Failed? && (n.logged <==> f == [] || n.at - LastLine(f) >= Gap(ttl, LastLine(f) - f[0].at))
    requires f != [] ==> Few(f, Min(2.0 * ttl, MAX_GAP))
    ensures Few(f + [n], Min(2.0 * ttl, MAX_GAP))
  {
    hide LastLine, Times;
    var m := Min(2.0 * ttl, MAX_GAP);
    Snoc(f, n);
    LineSnoc(f, n);
    assert Lines(f + [n]) == Lines(f) + (if n.logged then 1 else 0);
    NoneOf(m);
    if f != [] && n.logged {
      OneMore(Lines(f) - 1, m);
      assert Gap(ttl, LastLine(f) - f[0].at) >= m;
    }
  }

  /** However often it is probed, an incident of a given length has only so many lines. */
  lemma {:induction false} LinesAreFew(c: Config, h: seq<Note>)
    requires AllPaced(c.ttl, h)
    ensures var f := Incident(h);
            f != [] ==> Few(f, Min(2.0 * c.ttl, MAX_GAP))
  {
    if h != [] {
      hide AllPaced, Incident, LastLine;
      var g, n := h[..|h| - 1], h[|h| - 1];
      FrontPaced(c.ttl, h);
      LinesAreFew(c, g);
      assert h == g + [n];
      IncidentSnoc(g, n);
      if n.Failed? { OneMoreFailure(c.ttl, Incident(g), n); }
    } else {
      assert Incident(h) == [];
    }
  }

  lemma FrontPaced(ttl: real, h: seq<Note>)
    requires h != [] && AllPaced(ttl, h)
    ensures AllPaced(ttl, h[..|h| - 1])
    ensures Paced(ttl, h, |h| - 1) && h[..|h| - 1] + [h[|h| - 1]] == h
  {
    var g := h[..|h| - 1];
    forall i | 0 <= i < |g| ensures Paced(ttl, g, i) {
      assert Paced(ttl, h, i) && g[..i] == h[..i];
    }
  }

  /** After a lease that still stands on `constrained`, a probe was begun less than one cadence ago. */
  lemma LeaseIsCurrent(c: Config, es: seq<Event>)
    requires Monotone(es) && es != [] && es[|es| - 1].Lease? && c.readOnly && c.ttl > 0.0
    requires Run(c, es).watch.basis == Constrained
    ensures var last := LastAttempt(Run(c, es).notes); last.Some? && es[|es| - 1].at - last.value < c.ttl
  {
    hide LastAttempt, LastCheck, LastBasis, Incident, LastLine, Speaks;
    RunTells(c, es);
  }

  /** The age a line gives is that of the last check that ran to its end, whatever failed since. */
  lemma AgeIsTheLastChecks(c: Config, es: seq<Event>)
    ensures var r := Run(c, es); r.watch.checkedAt == LastCheck(r.notes) && r.watch.basis == LastBasis(r.notes)
  {
    RunTells(c, es);
  }

  /** Once lapsed, nothing but a boot's own check is ever probed, noted or changed. */
  lemma {:induction false} LapseStays(c: Config, es: seq<Event>, more: seq<Event>)
    requires Run(c, es).watch.basis == Lapsed && forall e :: e in more ==> e.Lease?
    ensures Run(c, es + more) == Run(c, es)
  {
    if more == [] {
      assert es + more == es;
    } else {
      var front, e := more[..|more| - 1], more[|more| - 1];
      LapseStays(c, es, front);
      var all := es + more;
      assert all[..|all| - 1] == es + front && all[|all| - 1] == e;
      assert e in more;
    }
  }

  // ----- the adapter's own fields -----

  /** One line of the log: how long unverified, and the age of the check it stands on. */
  datatype Line = Line(unverifiedFor: real, standing: Option<real>)

  class ReadOnlyWatch {
    const c: Config
    var basis: Basis
    var checkedAt: Option<real>
    var attemptedAt: Option<real>
    var unverified: bool
    var since: real
    var nextS: real

    ghost function Fields(): Watch
      reads this
    {
      Watch(basis, checkedAt, attemptedAt, unverified, since, nextS)
    }

    constructor (c: Config)
      ensures this.c == c && Fields() == FRESH
    {
      this.c := c;
      basis, checkedAt, attemptedAt := Unknown, None, None;
      unverified, since, nextS := false, 0.0, 0.0;
    }

    method RecordConstrained(now: real)
      modifies this
      ensures Fields() == Record(old(Fields()), now)
    {
      basis := Constrained;
      checkedAt := Some(now);
      attemptedAt := Some(now);
      unverified := false;
    }

    method ReportUnverified(now: real) returns (line: Option<Line>)
      modifies this
      ensures Fields() == Report(c, old(Fields()), now)
      ensures line.Some? <==> Speaks(old(Fields()), now)
      ensures line.Some? ==>
                line.value.unverifiedFor == now - since &&
                line.value.standing == if checkedAt.None? then None else Some(now - checkedAt.value)
    {
      var unverifiedFor := 0.0;
      if unverified {
        unverifiedFor := now - since;
        if unverifiedFor < nextS { return None; }
        var gap := Min(Max(unverifiedFor, c.ttl * 2.0), MAX_GAP);
        nextS := unverifiedFor + gap;
      } else {
        unverified := true;
        since := now;
        nextS := Min(c.ttl * 2.0, MAX_GAP);
      }
      var standing := if checkedAt.None? then None else Some(now - checkedAt.value);
      line := Some(Line(unverifiedFor, standing));
    }

    /** The check made inside a lease: what it notes, and whether it raises into the lease. */
    method Recheck(now: real, probe: Probe, reportAt: real) returns (notes: seq<Note>, raised: bool)
      modifies this
      ensures Outcome(Fields(), notes, raised) == Step(c, old(Fields()), Lease(now, probe, reportAt))
    {
      notes, raised := [], false;
      if !c.readOnly || c.ttl <= 0.0 || basis != Constrained { return; }
      if attemptedAt.Some? && now - attemptedAt.value < c.ttl { return; }
      attemptedAt := Some(now);
      notes := [Probed(now)];
      if probe.NoCursor? { return notes, true; }
      raised := !probe.closes;
      match probe.answer {
        case Refused =>
          RecordConstrained(now);
          notes := notes + [Confirmed(now)];
        case Faulted =>
          var line := ReportUnverified(reportAt);
          notes := notes + [Failed(reportAt, line.Some?)];
        case Answered =>
          if !raised {
            checkedAt := Some(now);
            basis := Lapsed;
            notes := notes + [Opened(now)];
          }
      }
    }
  }
}
