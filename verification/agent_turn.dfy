/** One turn of the answer loop: what is asked, in what order, and how the turn can end. */
module AgentTurn {
  import opened Options

  type Key = nat
  type Probe = nat

  datatype Reason =
    | SourceUnavailable | UndefinedTerm | ModelUnavailable | ExecutionFailed | Disagreement | QuestionTooLong
    | Other(n: nat)

  /** What is known of a filter value. Only an unchecked value the index does not hold may be asked of the source. */
  datatype Standing = Unchecked | Grounded | Absent
  datatype FilterValue = FilterValue(probe: Probe, standing: Standing, notIndexed: bool, placed: bool)

  /** An approved statement: its cache key, and its filter values where they were looked at. */
  datatype Query = Query(key: Key, grounding: Option<seq<FilterValue>>)

  /** A result. It is decided on the grounding when it is empty, or one NULL row from aggregates over nothing. */
  datatype Table = Table(rows: nat, onGrounding: bool)

  datatype Plan = Approved(query: Query) | Defers(reason: Reason) | ModelDown

  datatype Running = Done(table: Table) | Rejected | Outage | Cancelled

  datatype Verdict = Passes | Holds(failed: bool, reason: Reason)

  datatype Event =
    | Planned(plan: Plan)
    | Hit(key: Key, table: Table)
    | Ran(key: Key, running: Running)
    | Probed(probe: Probe, bound: real, took: real, found: Option<bool>)
    | Voted(executed: seq<(Query, Table)>, groups: seq<seq<nat>>)
    | Chose(group: nat)
    | Verified(query: Query, table: Table, verdict: Verdict)
    | Told(query: Query, table: Table)

  /** Everything outside: each may answer as it likes, given all that was asked before. */
  datatype World = World(
    plan: seq<Event> -> Plan,
    run: (seq<Event>, Query) -> Running,
    probe: (seq<Event>, Probe, real) -> (real, Option<bool>),
    verify: (seq<Event>, Query, Table) -> Verdict,
    choose: (seq<Event>, seq<seq<nat>>) -> int,
    sane: (Query, Table) -> bool,
    same: (Table, Table) -> bool)

  datatype Settings = Settings(
    maxAttempts: nat,
    candidates: int,
    timeout: real,
    verifier: bool,
    sanity: bool,
    selector: bool,
    minAgreement: Option<real>)
  {
    predicate ChecksSanity() { verifier && sanity }
  }

  datatype Answer = Answer(
    traced: bool,
    deferred: bool,
    failed: bool,
    reason: Option<Reason>,
    agreement: Option<real>,
    executed: Option<nat>)

  const PROBE_BUDGET := 10.0
  const PROBE_LIMIT := 8

  function Failure(r: Reason): Answer { Answer(false, false, true, Some(r), None, None) }

  function Deferral(r: Reason): Answer { Answer(false, true, false, Some(r), None, None) }

  /** Answered with its trace, or deferred, or failed: one of the three and no two. */
  predicate OneEnding(a: Answer) {
    (a.traced && !a.deferred && !a.failed) || (!a.traced && a.deferred && !a.failed) ||
    (!a.traced && !a.deferred && a.failed)
  }

  // ----- what a turn's record says -----

  /** The source did not answer, someone stopped it, or the model is down. */
  predicate Stop(e: Event) {
    (e.Planned? && (e.plan.ModelDown? || e.plan == Defers(SourceUnavailable))) ||
    (e.Ran? && (e.running.Outage? || e.running.Cancelled?))
  }

  function StopReason(e: Event): Reason
    requires Stop(e)
  {
    match e
    case Planned(ModelDown) => ModelUnavailable
    case Planned(_) => SourceUnavailable
    case Ran(_, Outage) => SourceUnavailable
    case Ran(_, _) => ExecutionFailed
  }

  ghost predicate Quiet(log: seq<Event>) { forall i :: 0 <= i < |log| ==> !Stop(log[i]) }

  /** Nothing at all follows a stop. */
  ghost predicate EndsAtStop(log: seq<Event>) { forall i :: 0 <= i < |log| - 1 ==> !Stop(log[i]) }

  function Runs(log: seq<Event>): nat {
    if log == [] then 0 else Runs(log[..|log| - 1]) + (if log[|log| - 1].Ran? then 1 else 0)
  }

  function Spent(log: seq<Event>): real {
    if log == [] then 0.0
    else Spent(log[..|log| - 1]) + (if log[|log| - 1].Probed? then log[|log| - 1].took else 0.0)
  }

  type Answers = map<Probe, Option<bool>>

  /** What the source said of each value asked about. */
  function HeldOf(log: seq<Event>): Answers {
    if log == [] then map[] else HeldOf(log[..|log| - 1]) + Said(log[|log| - 1])
  }

  function Said(e: Event): Answers {
    if e.Probed? then map[e.probe := e.found] else map[]
  }

  /** How many plans were asked for. */
  function Plans(log: seq<Event>): nat {
    if log == [] then 0 else Plans(log[..|log| - 1]) + (if log[|log| - 1].Planned? then 1 else 0)
  }

  function Given(e: Event): seq<Table> {
    match e
    case Hit(_, t) => [t]
    case Ran(_, Done(t)) => [t]
    case _ => []
  }

  /** The tables the cache and the source gave, in order. */
  function Fetches(log: seq<Event>): seq<Table> {
    if log == [] then [] else Fetches(log[..|log| - 1]) + Given(log[|log| - 1])
  }

  function Min(a: real, b: real): real { if a <= b then a else b }

  /** A probe is sent only while the turn's budget lasts, bounded by what is left of it, and for a
      value not asked yet. */
  ghost predicate InBudget(timeout: real, log: seq<Event>, i: nat)
    requires i < |log|
  {
    log[i].Probed? ==>
      Spent(log[..i]) < PROBE_BUDGET && log[i].bound == Min(timeout, PROBE_BUDGET - Spent(log[..i])) &&
      log[i].probe !in HeldOf(log[..i])
  }

  ghost predicate ProbesFit(timeout: real, log: seq<Event>) {
    forall i :: 0 <= i < |log| ==> InBudget(timeout, log, i)
  }

  /** The source, or the cache, gave this table for this statement in this turn. */
  ghost predicate Fetched(log: seq<Event>, key: Key, t: Table) { Hit(key, t) in log || Ran(key, Done(t)) in log }

  lemma Snoc(log: seq<Event>, e: Event)
    ensures (log + [e])[..|log + [e]| - 1] == log && (log + [e])[|log + [e]| - 1] == e
    ensures Runs(log + [e]) == Runs(log) + (if e.Ran? then 1 else 0)
    ensures Spent(log + [e]) == Spent(log) + (if e.Probed? then e.took else 0.0)
    ensures Plans(log + [e]) == Plans(log) + (if e.Planned? then 1 else 0) &&
            Fetches(log + [e]) == Fetches(log) + Given(e)
    ensures HeldOf(log + [e]) == HeldOf(log) + Said(e)
  {
    assert (log + [e])[..|log + [e]| - 1] == log;
  }

  lemma QuietSnoc(log: seq<Event>, e: Event)
    requires Quiet(log)
    ensures EndsAtStop(log + [e]) && (!Stop(e) ==> Quiet(log + [e]))
  {}

  lemma FitSnoc(timeout: real, log: seq<Event>, e: Event)
    requires ProbesFit(timeout, log)
    requires e.Probed? ==> Spent(log) < PROBE_BUDGET && e.bound == Min(timeout, PROBE_BUDGET - Spent(log))
    requires e.Probed? ==> e.probe !in HeldOf(log)
    ensures ProbesFit(timeout, log + [e])
  {
    var g := log + [e];
    forall i | 0 <= i < |g| ensures InBudget(timeout, g, i) {
      if i < |log| { assert g[..i] == log[..i] && InBudget(timeout, log, i); } else { assert g[..i] == log; }
    }
  }

  /** If every probe ends by its bound, the turn's probes end by the budget. */
  lemma {:induction false} ProbesWithinBudget(timeout: real, log: seq<Event>)
    requires ProbesFit(timeout, log)
    requires forall i :: 0 <= i < |log| && log[i].Probed? ==> log[i].took <= log[i].bound
    ensures Spent(log) <= PROBE_BUDGET
  {
    if log != [] {
      var front, e := log[..|log| - 1], log[|log| - 1];
      forall i | 0 <= i < |front| ensures InBudget(timeout, front, i) {
        assert InBudget(timeout, log, i) && front[..i] == log[..i];
      }
      assert InBudget(timeout, log, |front|);
      ProbesWithinBudget(timeout, front);
    }
  }

  lemma {:induction false} ProbeIsOf(log: seq<Event>, i: nat)
    requires i < |log| && log[i].Probed?
    ensures log[i].probe in HeldOf(log)
  {
    if i < |log| - 1 { ProbeIsOf(log[..|log| - 1], i); }
  }

  /** No value is asked about twice in a turn. */
  lemma NoProbeTwice(timeout: real, log: seq<Event>, i: nat, j: nat)
    requires ProbesFit(timeout, log) && i < j < |log| && log[i].Probed? && log[j].Probed?
    ensures log[i].probe != log[j].probe
  {
    assert InBudget(timeout, log, j);
    ProbeIsOf(log[..j], i);
  }
}
