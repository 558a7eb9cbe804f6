/** What a turn's record must say: each event is what the world answered to the record before it. */
module AgentRecord {
  import opened AgentTurn
  import opened Options
  import opened ResultClusters

  type Cache = map<Key, Table>

  // ----- filter values -----

  predicate Askable(v: FilterValue) { v.standing == Unchecked && v.notIndexed && v.placed }

  function Settle(v: FilterValue, found: Option<bool>): FilterValue {
    if found.None? then v else v.(standing := if found.value then Grounded else Absent, notIndexed := false)
  }

  /** The values one statement has asked of the source: the first eight different ones. */
  function AskedOf(vs: seq<FilterValue>): set<Probe> {
    if vs == [] then {}
    else
      var asked, v := AskedOf(vs[..|vs| - 1]), vs[|vs| - 1];
      if Askable(v) && |asked| < PROBE_LIMIT then asked + {v.probe} else asked
  }

  /** A value asked about is as the source said; any other is as it was. */
  function SettleOne(held: Answers, asked: set<Probe>, v: FilterValue): FilterValue {
    if Askable(v) && v.probe in asked && v.probe in held then Settle(v, held[v.probe]) else v
  }

  function SettleAll(held: Answers, vs: seq<FilterValue>): (rs: seq<FilterValue>)
    ensures |rs| == |vs| && forall j :: 0 <= j < |vs| ==> rs[j] == SettleOne(held, AskedOf(vs), vs[j])
  {
    seq(|vs|, j requires 0 <= j < |vs| => SettleOne(held, AskedOf(vs), vs[j]))
  }

  /** What settling means: a value is grounded where it was, or where it was asked about and the source holds it;
      absent where it was, or was asked about and the source does not; and nothing else of it changes but that it is
      no longer unindexed. */
  lemma SettlingMeans(held: Answers, vs: seq<FilterValue>, j: nat)
    requires j < |vs|
    ensures var v, r := vs[j], SettleAll(held, vs)[j];
            var said := if Askable(v) && v.probe in AskedOf(vs) && v.probe in held then held[v.probe] else None;
            (r.standing == Grounded <==> v.standing == Grounded || said == Some(true)) &&
            (r.standing == Absent <==> v.standing == Absent || said == Some(false)) &&
            r.probe == v.probe && r.placed == v.placed && (r.notIndexed <==> v.notIndexed && said == None)
  {
    hide AskedOf;
    assert SettleAll(held, vs)[j] == SettleOne(held, AskedOf(vs), vs[j]);
  }

  /** Each value to be asked about was, or the turn's budget is gone. */
  ghost predicate AllAsked(log: seq<Event>, vs: seq<FilterValue>) {
    AskedOf(vs) <= HeldOf(log).Keys || Spent(log) >= PROBE_BUDGET
  }

  /** `q` is the statement `p`, its filter values asked of the source where its result `t` rests on them. */
  ghost predicate Confirms(s: Settings, log: seq<Event>, p: Query, q: Query, t: Table) {
    if p.grounding.None? || !s.ChecksSanity() || !t.onGrounding then q == p
    else q == p.(grounding := Some(SettleAll(HeldOf(log), p.grounding.value))) && AllAsked(log, p.grounding.value)
  }

  // ----- statements -----

  /** The planner's statement and what it gave, one after the other. */
  ghost predicate Gave(log: seq<Event>, i: nat, p: Query, t: Table) {
    i + 1 < |log| && log[i] == Planned(Approved(p)) &&
    (log[i + 1] == Hit(p.key, t) || log[i + 1] == Ran(p.key, Done(t)))
  }

  /** This value of some statement fetched in this turn may be asked about: it was left unchecked for want of an
      index, it has a column to ask, and the statement's result rests on it. */
  ghost predicate Wanted(s: Settings, log: seq<Event>, p: Probe) {
    s.ChecksSanity() &&
    exists i: nat, q: Query, t: Table ::
      Gave(log, i, q, t) && t.onGrounding && q.grounding.Some? && LeavesOpen(q.grounding.value, p)
  }

  ghost predicate LeavesOpen(vs: seq<FilterValue>, p: Probe) {
    exists j :: 0 <= j < |vs| && vs[j].probe == p && vs[j].standing == Unchecked && vs[j].notIndexed && vs[j].placed
  }

  lemma WantedGrows(s: Settings, before: seq<Event>, after: seq<Event>, p: Probe)
    requires before <= after && Wanted(s, before, p)
    ensures Wanted(s, after, p)
  {
    hide LeavesOpen;
    var i: nat, q: Query, t: Table :|
      Gave(before, i, q, t) && t.onGrounding && q.grounding.Some? && LeavesOpen(q.grounding.value, p);
    assert Gave(after, i, q, t);
  }

  /** `q` was planned in this turn, fetched as `t`, and confirmed. */
  ghost predicate Stands(s: Settings, log: seq<Event>, q: Query, t: Table) {
    exists i: nat, p: Query :: Gave(log, i, p, t) && Confirms(s, log, p, q, t)
  }

  ghost predicate AllStand(s: Settings, log: seq<Event>, executed: seq<(Query, Table)>) {
    forall i :: 0 <= i < |executed| ==> Stands(s, log, executed[i].0, executed[i].1)
  }

  /** A statement was approved last, and is still to be fetched. */
  ghost predicate Pending(log: seq<Event>) {
    log != [] && log[|log| - 1].Planned? && log[|log| - 1].plan.Approved?
  }

  ghost function Due(log: seq<Event>): Query
    requires Pending(log)
  {
    log[|log| - 1].plan.query
  }

  function Stored(e: Event): Cache {
    match e
    case Ran(key, Done(t)) => map[key := t]
    case _ => map[]
  }

  /** The cache a turn that found `initial` holds. */
  function CacheAfter(initial: Cache, log: seq<Event>): Cache {
    if log == [] then initial else CacheAfter(initial, log[..|log| - 1]) + Stored(log[|log| - 1])
  }

  // ----- the vote -----

  /** The selector's group where it is asked and names one, else the largest. */
  ghost predicate Picks(w: World, s: Settings, log: seq<Event>, groups: Groups, n: nat, k: nat) {
    k < |groups| &&
    forall m: nat :: Largest(groups, m) ==>
      k == if s.selector && |groups[m]| < n && 0 <= w.choose(log, groups) < |groups| then w.choose(log, groups) else m
  }

  ghost predicate Sane(w: World, executed: seq<(Query, Table)>, i: nat) {
    i < |executed| && w.sane(executed[i].0, executed[i].1)
  }

  /** The member a group is answered by: the first the sanity layer would pass, where it is on and passes any,
      else the first. */
  ghost predicate Represents(w: World, s: Settings, executed: seq<(Query, Table)>, group: seq<nat>, i: nat) {
    group != [] &&
    if s.ChecksSanity() && exists j :: 0 <= j < |group| && Sane(w, executed, group[j]) then
      exists j :: 0 <= j < |group| && group[j] == i && Sane(w, executed, i) &&
                  forall k :: 0 <= k < j ==> !Sane(w, executed, group[k])
    else i == group[0]
  }

  // ----- the record -----

  /** The event is what the world answers to the record so far; an approved statement is fetched next, and
      nothing else is. */
  ghost predicate Fits(w: World, s: Settings, initial: Cache, past: seq<Event>, e: Event) {
    (Pending(past) <==> e.Hit? || e.Ran?) &&
    match e
    case Planned(plan) => plan == w.plan(past)
    case Hit(key, t) => key == Due(past).key && key in CacheAfter(initial, past) && CacheAfter(initial, past)[key] == t
    case Ran(key, running) =>
      key == Due(past).key && key !in CacheAfter(initial, past) && running == w.run(past, Due(past))
    case Probed(probe, bound, took, found) => Wanted(s, past, probe) && (took, found) == w.probe(past, probe, bound)
    case Voted(executed, _) => AllStand(s, past, executed)
    case Chose(k) =>
      past != [] && var v := past[|past| - 1]; v.Voted? && Picks(w, s, past, v.groups, |v.executed|, k)
    case Verified(q, t, verdict) => s.verifier && Stands(s, past, q, t) && verdict == w.verify(past, q, t)
    case Told(q, t) =>
      Stands(s, past, q, t) && (s.verifier ==> past != [] && past[|past| - 1] == Verified(q, t, Passes))
  }

  ghost predicate FitsAt(w: World, s: Settings, initial: Cache, log: seq<Event>, i: nat)
    requires i < |log|
  {
    Fits(w, s, initial, log[..i], log[i])
  }

  ghost predicate Recorded(w: World, s: Settings, initial: Cache, log: seq<Event>) {
    forall i :: 0 <= i < |log| ==> FitsAt(w, s, initial, log, i)
  }

  lemma RecordedSnoc(w: World, s: Settings, initial: Cache, log: seq<Event>, e: Event)
    requires Recorded(w, s, initial, log) && Fits(w, s, initial, log, e)
    ensures Recorded(w, s, initial, log + [e])
  {
    hide Fits;
    var g := log + [e];
    forall i | 0 <= i < |g| ensures FitsAt(w, s, initial, g, i) {
      if i < |log| { assert g[..i] == log[..i] && FitsAt(w, s, initial, log, i); } else { assert g[..i] == log; }
    }
  }

  lemma CacheSnoc(initial: Cache, log: seq<Event>, e: Event)
    ensures CacheAfter(initial, log + [e]) == CacheAfter(initial, log) + Stored(e)
  {
    assert (log + [e])[..|log|] == log;
  }

  // ----- what was confirmed stays confirmed -----

  ghost predicate Extends(a: Answers, b: Answers) {
    forall k :: k in a ==> k in b && a[k] == b[k]
  }

  /** Answers are kept, and once the budget is gone no more are asked for. */
  lemma {:induction false} HeldGrows(timeout: real, before: seq<Event>, after: seq<Event>)
    requires before <= after && ProbesFit(timeout, after)
    ensures Extends(HeldOf(before), HeldOf(after))
    ensures Spent(before) >= PROBE_BUDGET ==> HeldOf(after) == HeldOf(before) && Spent(after) == Spent(before)
    decreases |after|
  {
    if before != after {
      var front := after[..|after| - 1];
      forall i | 0 <= i < |front| ensures InBudget(timeout, front, i) {
        assert InBudget(timeout, after, i) && front[..i] == after[..i];
      }
      assert InBudget(timeout, after, |front|);
      HeldGrows(timeout, before, front);
    }
  }

  lemma StandsGrows(s: Settings, before: seq<Event>, after: seq<Event>, q: Query, t: Table)
    requires before <= after && ProbesFit(s.timeout, after) && Stands(s, before, q, t)
    ensures Stands(s, after, q, t)
  {
    var i: nat, p: Query :| Gave(before, i, p, t) && Confirms(s, before, p, q, t);
    HeldGrows(s.timeout, before, after);
    hide HeldOf, Spent, ProbesFit;
    if p.grounding.Some? && s.ChecksSanity() && t.onGrounding {
      var vs := p.grounding.value;
      assert SettleAll(HeldOf(after), vs) == SettleAll(HeldOf(before), vs);
    }
    assert Gave(after, i, p, t);
  }

  lemma AllStandGrow(s: Settings, before: seq<Event>, after: seq<Event>, executed: seq<(Query, Table)>)
    requires before <= after && ProbesFit(s.timeout, after) && AllStand(s, before, executed)
    ensures AllStand(s, after, executed)
  {
    hide Stands, ProbesFit;
    forall i | 0 <= i < |executed| ensures Stands(s, after, executed[i].0, executed[i].1) {
      StandsGrows(s, before, after, executed[i].0, executed[i].1);
    }
  }
}
