/** The answer loop's methods: the single repairing path, the vote over candidates, and the turn they make up. */
module AgentLoop {
  import opened AgentTurn
  import opened AgentRecord
  import opened Options
  import opened ResultClusters

  /** One candidate of a vote: kept with its table, dropped, or the end of the turn. */
  datatype Candidate = Kept(query: Query, table: Table) | Dropped | Undefined | Ended(answer: Answer)

  datatype Fetch = Got(table: Table) | Lost | Halted(running: Running)

  /** What the source said about filter values in this turn, and how long it took over them. */
  class Held {
    var asked: Answers
    var spent: real

    constructor ()
      ensures asked == map[] && spent == 0.0
    {
      asked, spent := map[], 0.0;
    }
  }

  // ----- how the single path ends -----

  /** Rows go out only as fetched and confirmed in this turn, and past the verifier if there is one. */
  ghost predicate Vouched(s: Settings, log: seq<Event>, q: Query, t: Table) {
    Stands(s, log, q, t) && Fetched(log, q.key, t) &&
    (s.verifier ==> |log| >= 2 && log[|log| - 2] == Verified(q, t, Passes))
  }

  /** The record's last event is why the single path ended as it did, if it ended on one. */
  ghost predicate Concludes(s: Settings, log: seq<Event>, a: Answer) {
    log != [] && a.executed.None? &&
    var e := log[|log| - 1];
    if Stop(e) then a == Failure(StopReason(e))
    else
      match e
      case Planned(Defers(r)) => a == Deferral(r)
      case Verified(_, _, Holds(failed, r)) => a == if failed then Failure(r) else Deferral(r)
      case Told(q, t) => a.traced && OneEnding(a) && Vouched(s, log, q, t)
      case _ => false
  }

  /** The first `n` attempts were each planned, run, and rejected by the source. */
  ghost predicate Tried(from: seq<Event>, log: seq<Event>, n: nat) {
    from <= log && |log| >= |from| + 2 * n &&
    forall i :: |from| <= i < |from| + 2 * n ==>
                  if (i - |from|) % 2 == 0 then log[i].Planned? else log[i].Ran? && log[i].running.Rejected?
  }

  /** One attempt, from its plan on: a plan that approves nothing ends it there, and between the fetch
      and what ends it are only probes. */
  ghost predicate OneAttempt(before: seq<Event>, log: seq<Event>) {
    before < log && log[|before|].Planned? && Plans(log) == Plans(before) + 1 &&
    (!log[|before|].plan.Approved? ==> |log| == |before| + 1) &&
    forall i :: |before| + 2 <= i < |log| - 2 ==> log[i].Probed?
  }

  /** The source rejected as many runs as there are attempts. */
  ghost predicate Exhausted(s: Settings, from: seq<Event>, log: seq<Event>, a: Answer) {
    a == Failure(ExecutionFailed) && Runs(log) == Runs(from) + s.maxAttempts && |log| == |from| + 2 * s.maxAttempts &&
    Tried(from, log, s.maxAttempts)
  }

  /** Attempts the source rejected, and one that ended the path. */
  ghost predicate Repaired(s: Settings, from: seq<Event>, log: seq<Event>, a: Answer) {
    Concludes(s, log, a) &&
    exists n: nat :: n < s.maxAttempts && Tried(from, log, n) && OneAttempt(log[..|from| + 2 * n], log)
  }

  ghost predicate Explained(s: Settings, from: seq<Event>, log: seq<Event>, a: Answer) {
    from <= log && (Repaired(s, from, log, a) || Exhausted(s, from, log, a))
  }

  const UNDEFINED := Planned(Defers(UndefinedTerm))

  /** Some plan of this turn found that the question names a term nobody defined. */
  predicate FoundUndefined(log: seq<Event>) { UNDEFINED in log }

  /** Nothing planned or fetched in between. */
  ghost predicate SamePoll(before: seq<Event>, after: seq<Event>) {
    FoundUndefined(after) == FoundUndefined(before) && Plans(after) == Plans(before) &&
    Fetches(after) == Fetches(before)
  }

  lemma UndefinedSnoc(log: seq<Event>, e: Event)
    ensures FoundUndefined(log + [e]) <==> FoundUndefined(log) || e == UNDEFINED
  {}

  /** What one more event adds to the record, if it is what the world answers. */
  lemma OneMore(w: World, s: Settings, initial: Cache, log: seq<Event>, e: Event)
    requires Quiet(log) && ProbesFit(s.timeout, log) && Recorded(w, s, initial, log) && Fits(w, s, initial, log, e)
    requires e.Probed? ==>
               Spent(log) < PROBE_BUDGET && e.bound == Min(s.timeout, PROBE_BUDGET - Spent(log)) &&
               e.probe !in HeldOf(log)
    ensures var g := log + [e];
            ProbesFit(s.timeout, g) && Recorded(w, s, initial, g) &&
            CacheAfter(initial, g) == CacheAfter(initial, log) + Stored(e) &&
            EndsAtStop(g) && (!Stop(e) ==> Quiet(g)) &&
            (FoundUndefined(g) <==> FoundUndefined(log) || e == UNDEFINED) &&
            Runs(g) == Runs(log) + (if e.Ran? then 1 else 0) &&
            Plans(g) == Plans(log) + (if e.Planned? then 1 else 0) &&
            Spent(g) == Spent(log) + (if e.Probed? then e.took else 0.0) && HeldOf(g) == HeldOf(log) + Said(e) &&
            Fetches(g) == Fetches(log) + Given(e)
  {
    hide Fits, Recorded, ProbesFit;
    UndefinedSnoc(log, e);
    Snoc(log, e);
    QuietSnoc(log, e);
    FitSnoc(s.timeout, log, e);
    RecordedSnoc(w, s, initial, log, e);
    CacheSnoc(initial, log, e);
  }

  // ----- how the vote ends -----

  function Tables(executed: seq<(Query, Table)>): (ts: seq<Table>)
    ensures |ts| == |executed| && forall i :: 0 <= i < |ts| ==> ts[i] == executed[i].1
  {
    if executed == [] then [] else [executed[0].1] + Tables(executed[1..])
  }

  /** Candidates planned, fetched and confirmed, and nothing else yet. */
  ghost predicate Polling(log: seq<Event>) {
    forall i :: 0 <= i < |log| ==> log[i].Planned? || log[i].Hit? || log[i].Ran? || log[i].Probed?
  }

  /** The turn ended on a stop. */
  ghost predicate StoppedWith(log: seq<Event>, a: Answer) {
    log != [] && Stop(log[|log| - 1]) && a == Failure(StopReason(log[|log| - 1])).(executed := a.executed)
  }

  /** The candidates did: the answer says how many tables there were, unless it was the model that is down. */
  ghost predicate PollStopped(log: seq<Event>, a: Answer) {
    Polling(log) && StoppedWith(log, a) &&
    a.executed == if log[|log| - 1] == Planned(ModelDown) then None else Some(|Fetches(log)|)
  }

  /** The bar a vote must meet where there is one: every candidate in it, and the largest group big enough. */
  ghost predicate MeetsBar(s: Settings, groups: seq<seq<nat>>, n: nat) {
    s.minAgreement.Some? && n > 0 ==>
      n >= s.candidates && forall m: nat :: Largest(groups, m) ==> Share(|groups[m]|, n) >= s.minAgreement.value
  }

  /** The statement and table are those that stand for this group, whose members agree. */
  ghost predicate Elected(w: World, s: Settings, executed: seq<(Query, Table)>, groups: Groups, k: nat, q: Query,
                          t: Table) {
    k < |groups| && Clustered(groups, Tables(executed), w.same) && (!s.selector ==> Largest(groups, k)) &&
    exists i: nat :: i < |executed| && InGroup(groups, k, i) && Represents(w, s, executed, groups[k], i) &&
      executed[i] == (q, t)
  }

  /** How an answer from a chosen group ends: held by the verifier, or told with the group's share. */
  ghost predicate Published(w: World, s: Settings, executed: seq<(Query, Table)>, groups: Groups, k: nat,
                            log: seq<Event>, a: Answer) {
    OneEnding(a) && log != [] &&
    match log[|log| - 1]
    case Verified(q, t, Holds(failed, r)) =>
      a == (if failed then Failure(r) else Deferral(r)) && Elected(w, s, executed, groups, k, q, t)
    case Told(q, t) =>
      a.traced && Vouched(s, log, q, t) && Elected(w, s, executed, groups, k, q, t) &&
      |executed| > 0 && a.executed == Some(|executed|) && a.agreement == Some(Share(|groups[k]|, |executed|))
    case _ => false
  }

  /** How a vote below the bar ends. */
  ghost predicate Disagrees(s: Settings, n: nat, groups: Groups, a: Answer) {
    a.executed == Some(n) && n > 0 && !MeetsBar(s, groups, n) &&
    exists m: nat :: Largest(groups, m) &&
                     a == Deferral(Disagreement).(executed := a.executed, agreement := Some(Share(|groups[m]|, n)))
  }

  /** How a vote over what is held ends: the tables are clustered, and it is below the bar or answers from a group. */
  ghost predicate Settles(w: World, s: Settings, from: seq<Event>, log: seq<Event>, tables: seq<Table>, a: Answer) {
    |log| > |from| &&
    var e := log[|from|];
    e.Voted? && Tables(e.executed) == tables && Clustered(e.groups, tables, w.same) && Sizes(e.groups) == |tables| &&
    if |log| == |from| + 1 then Disagrees(s, |tables|, e.groups, a)
    else
      MeetsBar(s, e.groups, |tables|) && log[|from| + 1].Chose? && |log| <= |from| + 4 &&
      Published(w, s, e.executed, e.groups, log[|from| + 1].group, log, a)
  }

  // ----- asking about filter values -----

  ghost predicate OnlyProbes(before: seq<Event>, after: seq<Event>) {
    before <= after && forall i :: |before| <= i < |after| ==> after[i].Probed?
  }

  /** One grounding's own answers: those the turn holds, or none where the budget was gone. */
  ghost predicate Agrees(asked: Answers, held: Answers, spent: real) {
    forall k :: k in asked ==> if k in held then asked[k] == held[k] else asked[k] == None && spent >= PROBE_BUDGET
  }

  /** The values so far are settled, and a value that could be asked about was, unless eight others were. */
  ghost predicate SettledSoFar(asked: Answers, held: Answers, spent: real, vs: seq<FilterValue>, rs: seq<FilterValue>) {
    |rs| == |vs| && asked.Keys == AskedOf(vs) && |asked| <= PROBE_LIMIT && Agrees(asked, held, spent) &&
    (forall j :: 0 <= j < |vs| ==> rs[j] == SettleOne(held, asked.Keys, vs[j])) &&
    forall j :: 0 <= j < |vs| && Askable(vs[j]) && vs[j].probe !in asked ==> |asked| == PROBE_LIMIT
  }

  /** What one more value may change: an answer to it, kept by the turn or lacking for want of budget. */
  ghost predicate AskedOne(asked: Answers, now: Answers, v: FilterValue) {
    now == asked || (Askable(v) && v.probe !in asked && |asked| < PROBE_LIMIT && now.Keys == asked.Keys + {v.probe} &&
                     Extends(asked, now))
  }

  lemma SettledNext(asked: Answers, held: Answers, spent: real, vs: seq<FilterValue>, rs: seq<FilterValue>,
                  v: FilterValue, now: Answers, held': Answers, spent': real)
    requires SettledSoFar(asked, held, spent, vs, rs) && AskedOne(asked, now, v) && Agrees(now, held', spent')
    requires Extends(held, held') && (spent >= PROBE_BUDGET ==> held' == held && spent' == spent)
    requires now == asked ==> !Askable(v) || v.probe in asked || |asked| == PROBE_LIMIT
    ensures SettledSoFar(now, held', spent', vs + [v], rs + [SettleOne(held', now.Keys, v)])
  {
    var more := vs + [v];
    assert more[..|more| - 1] == vs;
    assert |now| == |now.Keys| && |asked| == |asked.Keys|;
    forall j | 0 <= j < |vs| ensures rs[j] == SettleOne(held', now.Keys, vs[j]) {
      assert rs[j] == SettleOne(held, asked.Keys, vs[j]);
    }
  }

  lemma AskableIsWanted(s: Settings, log: seq<Event>, q: Query, t: Table)
    requires (exists i: nat :: Gave(log, i, q, t)) && s.ChecksSanity() && t.onGrounding && q.grounding.Some?
    ensures var vs := q.grounding.value;
            forall j :: 0 <= j < |vs| && Askable(vs[j]) ==> Wanted(s, log, vs[j].probe)
  {
    var i: nat :| Gave(log, i, q, t);
    hide Gave;
    var vs := q.grounding.value;
    forall j | 0 <= j < |vs| && Askable(vs[j]) ensures Wanted(s, log, vs[j].probe) {
      assert LeavesOpen(vs, vs[j].probe);
    }
  }

  lemma NothingAsked(log: seq<Event>)
    ensures SamePoll(log, log)
  {}

  lemma OneSettled(now: Answers, held: Answers, spent: real, v: FilterValue)
    requires Agrees(now, held, spent)
    ensures SettleOne(held, now.Keys, v) == if Askable(v) && v.probe in now then Settle(v, now[v.probe]) else v
  {}

  lemma SettledMeans(asked: Answers, held: Answers, spent: real, vs: seq<FilterValue>, rs: seq<FilterValue>)
    requires SettledSoFar(asked, held, spent, vs, rs)
    ensures |asked| <= PROBE_LIMIT && Agrees(asked, held, spent)
  {
    hide SettleOne, AskedOf;
  }

  lemma SettledAll(asked: Answers, log: seq<Event>, vs: seq<FilterValue>, rs: seq<FilterValue>)
    requires SettledSoFar(asked, HeldOf(log), Spent(log), vs, rs)
    ensures rs == SettleAll(HeldOf(log), vs) && AllAsked(log, vs) && |asked| <= PROBE_LIMIT
  {
    hide HeldOf, Spent, AskedOf;
  }

  lemma {:induction false} NonePlaced(vs: seq<FilterValue>)
    requires forall v :: v in vs ==> !v.placed
    ensures AskedOf(vs) == {}
  {
    if vs != [] { NonePlaced(vs[..|vs| - 1]); }
  }

  class Agent {
    const w: World
    const s: Settings
    var cache: Cache
    var log: seq<Event>

    /** The cache as the turn found it. */
    ghost var initial: Cache

    constructor (w: World, s: Settings)
      ensures this.w == w && this.s == s && cache == map[] && log == []
    {
      this.w, this.s := w, s;
      cache, log := map[], [];
      initial := map[];
    }

    /** The record is of what the world answered, its probes are within the budget, and the cache holds what it says. */
    ghost predicate Sound()
      reads this
    {
      ProbesFit(s.timeout, log) && Recorded(w, s, initial, log) && cache == CacheAfter(initial, log)
    }

    /** So far nothing has stopped the turn, and no statement waits to be fetched. */
    ghost predicate Going()
      reads this
    {
      Quiet(log) && !Pending(log) && Sound()
    }

    /** Or something has, and nothing followed it. */
    ghost predicate Rests()
      reads this
    {
      EndsAtStop(log) && !Pending(log) && Sound()
    }

    /** This statement is the next to be fetched. */
    ghost predicate Awaits(q: Query)
      reads this
    {
      Quiet(log) && Pending(log) && Due(log) == q && Sound()
    }

    ghost predicate Keeps(h: Held)
      reads this, h
    {
      h.asked == HeldOf(log) && h.spent == Spent(log)
    }

    /** Nothing recorded since was a run or a probe. */
    ghost predicate SameTally(before: seq<Event>)
      reads this
    {
      Runs(log) == Runs(before) && Spent(log) == Spent(before) && HeldOf(log) == HeldOf(before)
    }

    method Note(e: Event)
      requires Going() && !e.Probed? && !e.Ran? && Fits(w, s, initial, log, e)
      modifies this`log
      ensures log == old(log) + [e] && SameTally(old(log))
      ensures match e
              case Planned(Approved(q)) => Awaits(q)
              case _ => Rests() && (!Stop(e) ==> Going())
      ensures FoundUndefined(log) <==> FoundUndefined(old(log)) || e == UNDEFINED
      ensures Plans(log) == Plans(old(log)) + (if e.Planned? then 1 else 0) &&
              Fetches(log) == Fetches(old(log)) + Given(e)
    {
      hide Fits, Recorded, ProbesFit, CacheAfter, Runs, Plans, Spent, HeldOf, Fetches, FoundUndefined, Quiet,
           EndsAtStop;
      OneMore(w, s, initial, log, e);
      log := log + [e];
    }

    /** From the cache, or run; a rejected candidate drops out, and a halt is its caller's to end on. */
    method Execute(q: Query) returns (f: Fetch)
      requires Awaits(q)
      modifies this`log, this`cache
      ensures q.key in old(cache) ==>
                f == Got(old(cache)[q.key]) && log == old(log) + [Hit(q.key, f.table)] &&
                cache == old(cache)
      ensures q.key !in old(cache) ==>
                log == old(log) + [Ran(q.key, w.run(old(log), q))] &&
                match w.run(old(log), q)
                case Done(t) => f == Got(t) && cache == old(cache)[q.key := t]
                case Rejected => f == Lost && cache == old(cache)
                case r => f == Halted(r) && cache == old(cache)
      ensures Rests() && (!f.Halted? ==> Going())
      ensures Runs(log) == Runs(old(log)) + (if q.key in old(cache) then 0 else 1)
      ensures Spent(log) == Spent(old(log)) && HeldOf(log) == HeldOf(old(log))
      ensures FoundUndefined(log) == FoundUndefined(old(log))
      ensures f.Got? ==> Gave(log, |old(log)| - 1, q, f.table)
      ensures Plans(log) == Plans(old(log)) && Fetches(log) == Fetches(old(log)) + (if f.Got? then [f.table] else [])
    {
      hide Recorded, ProbesFit, CacheAfter, Runs, Plans, Spent, HeldOf, Fetches, FoundUndefined, Quiet, EndsAtStop;
      var e;
      if q.key in cache {
        f := Got(cache[q.key]);
        e := Hit(q.key, f.table);
      } else {
        var running := w.run(log, q);
        e := Ran(q.key, running);
        match running {
          case Done(t) =>
            cache := cache[q.key := t];
            f := Got(t);
          case Rejected => f := Lost;
          case Outage => f := Halted(running);
          case Cancelled => f := Halted(running);
        }
      }
      OneMore(w, s, initial, log, e);
      log := log + [e];
    }

    /** Ask the source about one value, unless it was asked this turn or the budget is gone. */
    method Holds(h: Held, p: Probe) returns (found: Option<bool>)
      requires Going() && Keeps(h) && Wanted(s, log, p)
      modifies this`log, h
      ensures Going() && Keeps(h)
      ensures OnlyProbes(old(log), log) && |log| <= |old(log)| + 1
      ensures Runs(log) == Runs(old(log)) && SamePoll(old(log), log)
      ensures Extends(old(h.asked), h.asked) && forall k :: k in h.asked ==> k in old(h.asked) || k == p
      ensures p in h.asked || h.spent >= PROBE_BUDGET
      ensures old(h.spent) >= PROBE_BUDGET ==> h.asked == old(h.asked) && h.spent == old(h.spent)
      ensures if p in h.asked then found == h.asked[p] else found == None
    {
      hide Recorded, ProbesFit, CacheAfter, Runs, Plans, Spent, HeldOf, Fetches, FoundUndefined, Quiet, EndsAtStop;
      if p !in h.asked {
        var left := PROBE_BUDGET - h.spent;
        if left <= 0.0 { return None; }
        var bound := Min(s.timeout, left);
        var (took, said) := w.probe(log, p, bound);
        var e := Probed(p, bound, took, said);
        OneMore(w, s, initial, log, e);
        h.asked := h.asked[p := said];
        h.spent := h.spent + took;
        log := log + [e];
      }
      found := h.asked[p];
    }

    /** One value, asked for the first time in its statement. */
    method AskOnce(h: Held, asked: Answers, p: Probe) returns (now: Answers)
      requires Going() && Keeps(h) && Agrees(asked, h.asked, h.spent) && p !in asked && Wanted(s, log, p)
      modifies this`log, h
      ensures Going() && Keeps(h) && Agrees(now, h.asked, h.spent)
      ensures now.Keys == asked.Keys + {p} && Extends(asked, now) && Extends(old(h.asked), h.asked)
      ensures old(h.spent) >= PROBE_BUDGET ==> h.asked == old(h.asked) && h.spent == old(h.spent)
      ensures OnlyProbes(old(log), log) && |log| <= |old(log)| + 1 && Runs(log) == Runs(old(log))
      ensures SamePoll(old(log), log)
    {
      hide Going, Keeps, FoundUndefined, Runs, Plans, Fetches, Wanted;
      var found := Holds(h, p);
      now := asked[p := found];
    }

    method ConfirmOne(h: Held, asked: Answers, v: FilterValue, ghost vs: seq<FilterValue>, ghost rs: seq<FilterValue>)
      returns (r: FilterValue, now: Answers)
      requires Going() && Keeps(h) && SettledSoFar(asked, h.asked, h.spent, vs, rs)
      requires Askable(v) ==> Wanted(s, log, v.probe)
      modifies this`log, h
      ensures Going() && Keeps(h) && SettledSoFar(now, h.asked, h.spent, vs + [v], rs + [r])
      ensures OnlyProbes(old(log), log) && |log| - |now| <= |old(log)| - |asked| && Runs(log) == Runs(old(log))
      ensures SamePoll(old(log), log)
    {
      hide Going, Keeps, FoundUndefined, Runs, Plans, Fetches, AskedOf, SettledSoFar, SettleOne, Agrees, SamePoll,
           Settle, Wanted;
      r, now := v, asked;
      ghost var held, spent := h.asked, h.spent;
      SettledMeans(asked, held, spent, vs, rs);
      NothingAsked(log);
      if Askable(v) && v.probe !in asked && |asked| < PROBE_LIMIT {
        now := AskOnce(h, asked, v.probe);
        assert |now| == |now.Keys| && |asked| == |asked.Keys|;
      }
      if Askable(v) && v.probe in now { r := Settle(v, now[v.probe]); }
      OneSettled(now, h.asked, h.spent, v);
      SettledNext(asked, held, spent, vs, rs, v, now, h.asked, h.spent);
    }

    /** Each filter value of one statement in turn, at most eight of them asked about. */
    method ConfirmAll(h: Held, vs: seq<FilterValue>) returns (values: seq<FilterValue>)
      requires Going() && Keeps(h)
      requires forall j :: 0 <= j < |vs| && Askable(vs[j]) ==> Wanted(s, log, vs[j].probe)
      modifies this`log, h
      ensures Going() && Keeps(h) && SamePoll(old(log), log) && Runs(log) == Runs(old(log))
      ensures OnlyProbes(old(log), log) && |log| <= |old(log)| + PROBE_LIMIT
      ensures values == SettleAll(HeldOf(log), vs) && AllAsked(log, vs)
    {
      hide Going, SettleOne, FoundUndefined, Runs, Plans, Fetches, HeldOf, Spent, AllAsked, SettleAll, SettledSoFar,
           Wanted;
      var asked: Answers := map[];
      values := [];
      NoneSettled(h.asked, h.spent);
      assert vs[..0] == [];
      var i := 0;
      while i < |vs|
        invariant 0 <= i <= |vs| && SettledSoFar(asked, h.asked, h.spent, vs[..i], values)
        invariant Going() && Keeps(h) && SamePoll(old(log), log) && Runs(log) == Runs(old(log))
        invariant OnlyProbes(old(log), log) && |log| - |asked| <= |old(log)|
      {
        if Askable(vs[i]) { WantedGrows(s, old(log), log, vs[i].probe); }
        var value;
        value, asked := ConfirmOne(h, asked, vs[i], vs[..i], values);
        assert vs[..i + 1] == vs[..i] + [vs[i]];
        values := values + [value];
        i := i + 1;
      }
      assert vs[..i] == vs;
      SettledAll(asked, log, vs, values);
    }

    /** The filter values of a statement whose result rests on them, asked of the source. */
    method Confirmed(h: Held, q: Query, t: Table) returns (r: Query)
      requires Going() && Keeps(h) && exists i: nat :: Gave(log, i, q, t)
      modifies this`log, h
      ensures Going() && Keeps(h) && Confirms(s, log, q, r, t) && r.key == q.key
      ensures OnlyProbes(old(log), log) && |log| <= |old(log)| + PROBE_LIMIT && Runs(log) == Runs(old(log))
      ensures SamePoll(old(log), log) && old(log) <= log
      ensures !s.ChecksSanity() || !t.onGrounding ==> r == q && log == old(log)
    {
      hide HeldOf, Spent, AskedOf, Going;
      r := q;
      if q.grounding.None? || !s.ChecksSanity() || !t.onGrounding { return; }
      var vs := q.grounding.value;
      if forall v :: v in vs ==> !v.placed {
        NonePlaced(vs);
        assert SettleAll(HeldOf(log), vs) == vs;
        return;
      }
      hide Keeps, FoundUndefined, Runs, Plans, Fetches, AllAsked, SettleAll;
      AskableIsWanted(s, log, q, t);
      var values := ConfirmAll(h, vs);
      r := q.(grounding := Some(values));
    }

    method Verify(q: Query, t: Table) returns (blocked: Option<Answer>)
      requires Going() && Stands(s, log, q, t)
      modifies this`log
      ensures Going() && SameTally(old(log)) && FoundUndefined(log) == FoundUndefined(old(log))
      ensures !s.verifier ==> log == old(log) && blocked == None
      ensures s.verifier ==>
                log == old(log) + [Verified(q, t, w.verify(old(log), q, t))] &&
                match w.verify(old(log), q, t)
                case Passes => blocked == None
                case Holds(failed, reason) => blocked == Some(if failed then Failure(reason) else Deferral(reason))
    {
      hide Going, Stands;
      if !s.verifier { return None; }
      var verdict := w.verify(log, q, t);
      assert !Pending(log) by { GoingMeans(); }
      Note(Verified(q, t, verdict));
      match verdict
      case Passes => blocked := None;
      case Holds(failed, reason) => blocked := Some(if failed then Failure(reason) else Deferral(reason));
    }

    /** The verified rows go out; the prose may fail, and they stand. */
    method Tell(q: Query, t: Table) returns (a: Answer)
      requires Going() && Fits(w, s, initial, log, Told(q, t))
      modifies this`log
      ensures Going() && SameTally(old(log)) && log == old(log) + [Told(q, t)]
      ensures FoundUndefined(log) == FoundUndefined(old(log))
      ensures a == Answer(true, false, false, None, None, None)
    {
      hide Going;
      Note(Told(q, t));
      a := Answer(true, false, false, None, None, None);
    }

    lemma AwaitsMeans(q: Query)
      requires Awaits(q)
      ensures log != [] && log[|log| - 1] == Planned(Approved(q))
    {}

    lemma GoingMeans()
      requires Going()
      ensures Rests() && Quiet(log) && !Pending(log) && ProbesFit(s.timeout, log)
    {}

    /** A result goes out past the verifier, if there is one. */
    method Publish(q: Query, t: Table) returns (a: Answer)
      requires Going() && Stands(s, log, q, t)
      modifies this`log
      ensures Going() && SameTally(old(log)) && old(log) < log && |log| <= |old(log)| + 2 && OneEnding(a) &&
              a.executed == None
      ensures FoundUndefined(log) == FoundUndefined(old(log)) && Plans(log) == Plans(old(log))
      ensures match log[|log| - 1]
              case Verified(told, table, Holds(failed, r)) =>
                told == q && table == t && a == if failed then Failure(r) else Deferral(r)
              case Told(told, table) => a.traced && told == q && table == t && Vouched(s, log, q, t)
              case _ => false
    {
      hide Going, Stands, FoundUndefined, HeldOf, Spent, Runs;
      ghost var before := log;
      var blocked := Verify(q, t);
      if blocked.Some? { return blocked.value; }
      GoingMeans();
      StandsGrows(s, before, log, q, t);
      assert Fits(w, s, initial, log, Told(q, t));
      ghost var mid := log;
      a := Tell(q, t);
      GoingMeans();
      StandsGrows(s, mid, log, q, t);
      StandsIsFetched(s, log, q, t);
    }

    /** A fetched result is confirmed and published: the end of the single path. */
    method Present(h: Held, q: Query, t: Table) returns (a: Answer)
      requires Going() && Keeps(h) && |log| >= 2 && Gave(log, |log| - 2, q, t)
      modifies this`log, h
      ensures Going() && Runs(log) == Runs(old(log)) && old(log) < log && Concludes(s, log, a)
      ensures forall i :: |old(log)| <= i < |log| - 2 ==> log[i].Probed?
      ensures FoundUndefined(log) == FoundUndefined(old(log)) && Plans(log) == Plans(old(log))
    {
      hide Going, Keeps, Confirms, FoundUndefined, Vouched, HeldOf, Spent, Runs, Plans;
      ghost var i := |log| - 2;
      var confirmed := Confirmed(h, q, t);
      assert Gave(log, i, q, t);
      a := Publish(confirmed, t);
    }

    /** One attempt: it ends the turn, unless the source rejects what was planned. */
    method Attempt(h: Held) returns (a: Option<Answer>)
      requires Going() && Keeps(h)
      modifies this`log, this`cache, h
      ensures Rests() && OneAttempt(old(log), log) && Runs(log) <= Runs(old(log)) + 1
      ensures a.Some? ==> Concludes(s, log, a.value)
      ensures FoundUndefined(log) ==> FoundUndefined(old(log)) || a == Some(Deferral(UndefinedTerm))
      ensures a.None? ==>
                Going() && Keeps(h) && |log| == |old(log)| + 2 && Runs(log) == Runs(old(log)) + 1 &&
                log[|log| - 2].Planned? && log[|log| - 1].Ran? && log[|log| - 1].running.Rejected? &&
                HeldOf(log) == HeldOf(old(log)) && Spent(log) == Spent(old(log))
    {
      hide FoundUndefined, HeldOf, Spent, Runs, Plans, Going, Rests, Awaits;
      var plan := w.plan(log);
      assert !Pending(log) by { GoingMeans(); }
      Note(Planned(plan));
      match plan {
        case ModelDown => a := Some(Failure(ModelUnavailable));
        case Defers(reason) => a := Some(if reason == SourceUnavailable then Failure(reason) else Deferral(reason));
        case Approved(q) => a := AttemptQuery(h, q);
      }
    }

    method AttemptQuery(h: Held, q: Query) returns (a: Option<Answer>)
      requires Awaits(q) && Keeps(h)
      modifies this`log, this`cache, h
      ensures Rests() && old(log) < log && Runs(log) <= Runs(old(log)) + 1 && Plans(log) == Plans(old(log))
      ensures forall i :: |old(log)| + 1 <= i < |log| - 2 ==> log[i].Probed?
      ensures a.Some? ==> Concludes(s, log, a.value)
      ensures FoundUndefined(log) == FoundUndefined(old(log))
      ensures a.None? ==>
                Going() && Keeps(h) && |log| == |old(log)| + 1 && Runs(log) == Runs(old(log)) + 1 &&
                log[|log| - 1].Ran? && log[|log| - 1].running.Rejected? &&
                HeldOf(log) == HeldOf(old(log)) && Spent(log) == Spent(old(log))
    {
      hide FoundUndefined, Going, Rests, Awaits, Vouched, Runs, Plans, Spent, HeldOf, Pending;
      AwaitsMeans(q);
      var f := Execute(q);
      match f {
        case Halted(running) => a := Some(Failure(if running.Outage? then SourceUnavailable else ExecutionFailed));
        case Got(t) =>
          hide Concludes, Stop;
          var told := Present(h, q, t);
          a := Some(told);
          GoingMeans();
        case Lost => a := None;
      }
    }

    /** The single path: plan, fetch, repair what the database rejects, and end. */
    method AnswerSingle() returns (a: Answer)
      requires Going() && HeldOf(log) == map[] && Spent(log) == 0.0
      modifies this`log, this`cache
      ensures Rests() && Explained(s, old(log), log, a)
      ensures Runs(log) <= Runs(old(log)) + s.maxAttempts
      ensures FoundUndefined(log) ==> FoundUndefined(old(log)) || a == Deferral(UndefinedTerm)
    {
      hide Concludes, Going, Rests, OneAttempt, Tried, FoundUndefined, Runs, HeldOf, Spent;
      var h := new Held();
      var attempt := 0;
      NoneTried(log);
      while attempt < s.maxAttempts
        invariant attempt <= s.maxAttempts && fresh(h)
        invariant Going() && Keeps(h) && HeldOf(log) == map[] && Spent(log) == 0.0 && Tried(old(log), log, attempt)
        invariant Runs(log) == Runs(old(log)) + attempt && |log| == |old(log)| + 2 * attempt
        invariant FoundUndefined(log) ==> FoundUndefined(old(log))
      {
        ghost var before := log;
        var ended := Attempt(h);
        AttemptGrows(before, log);
        if ended.Some? {
          AttemptRepairs(s, old(log), before, log, attempt, ended.value);
          return ended.value;
        }
        TriedAgain(old(log), before, log, attempt);
        attempt := attempt + 1;
      }
      GoingMeans();
      a := Failure(ExecutionFailed);
      TriedEnough(s, old(log), log, a);
    }

    /** One candidate's plan, decided alone and run. */
    method TryCandidate(h: Held, n: nat) returns (c: Candidate)
      requires Going() && Keeps(h) && Polling(log) && n == |Fetches(log)|
      modifies this`log, this`cache, h
      ensures Rests() && old(log) < log && Runs(log) <= Runs(old(log)) + 1
      ensures c.Ended? ==> PollStopped(log, c.answer)
      ensures !c.Ended? ==> Going() && Keeps(h) && Polling(log)
      ensures !c.Kept? ==> HeldOf(log) == HeldOf(old(log)) && Spent(log) == Spent(old(log))
      ensures c.Kept? ==> Stands(s, log, c.query, c.table)
      ensures FoundUndefined(log) <==> FoundUndefined(old(log)) || c.Undefined?
      ensures Plans(log) == Plans(old(log)) + 1
      ensures !c.Ended? ==> Fetches(log) == Fetches(old(log)) + (if c.Kept? then [c.table] else [])
    {
      hide Going, Rests, Awaits, FoundUndefined, HeldOf, Spent, Runs, Plans, Fetches, Stands;
      var plan := w.plan(log);
      assert !Pending(log) by { GoingMeans(); }
      Note(Planned(plan));
      match plan {
        case ModelDown => c := Ended(Failure(ModelUnavailable));
        case Defers(reason) =>
          c := if reason == SourceUnavailable then Ended(Failure(reason).(executed := Some(n)))
               else if reason == UndefinedTerm then Undefined else Dropped;
        case Approved(q) => c := FetchCandidate(h, q, n);
      }
    }

    method FetchCandidate(h: Held, q: Query, n: nat) returns (c: Candidate)
      requires Awaits(q) && Keeps(h) && Polling(log) && n == |Fetches(log)|
      modifies this`log, this`cache, h
      ensures Rests() && old(log) < log && Runs(log) <= Runs(old(log)) + 1
      ensures c.Ended? ==> PollStopped(log, c.answer)
      ensures !c.Ended? ==> Going() && Keeps(h) && Polling(log)
      ensures !c.Kept? ==> HeldOf(log) == HeldOf(old(log)) && Spent(log) == Spent(old(log))
      ensures c.Kept? ==> Stands(s, log, c.query, c.table)
      ensures !c.Undefined? && FoundUndefined(log) == FoundUndefined(old(log)) && Plans(log) == Plans(old(log))
      ensures !c.Ended? ==> Fetches(log) == Fetches(old(log)) + (if c.Kept? then [c.table] else [])
    {
      hide Going, Rests, Awaits, FoundUndefined, HeldOf, Spent, Runs, Plans, Fetches, Confirms, Pending;
      AwaitsMeans(q);
      ghost var i := |log| - 1;
      var f := Execute(q);
      match f {
        case Halted(running) =>
          var reason := if running.Outage? then SourceUnavailable else ExecutionFailed;
          c := Ended(Failure(reason).(executed := Some(n)));
        case Got(t) =>
          var confirmed := Confirmed(h, q, t);
          assert Gave(log, i, q, t);
          GoingMeans();
          c := Kept(confirmed, t);
        case Lost =>
          GoingMeans();
          c := Dropped;
      }
    }

    lemma NothingYet()
      requires log == [] && cache == initial
      ensures Going() && Polling(log) && AllStand(s, log, []) && !FoundUndefined(log) &&
              Tables([]) == Fetches(log) == []
      ensures HeldOf(log) == map[] && Spent(log) == 0.0 && Plans(log) == 0 && Runs(log) == 0
    {}

    /** The candidates, one after the other, until one ends the turn. */
    method Gather(h: Held) returns (executed: seq<(Query, Table)>, undefined: bool, ended: Option<Answer>)
      requires log == [] && cache == initial && s.candidates >= 0 && h.asked == map[] && h.spent == 0.0
      modifies this`log, this`cache, h
      ensures Rests() && Runs(log) <= s.candidates && |executed| <= s.candidates
      ensures ended.Some? ==> PollStopped(log, ended.value)
      ensures ended.None? ==> Going() && AllStand(s, log, executed) && (undefined <==> FoundUndefined(log))
      ensures ended.None? && executed == [] ==> HeldOf(log) == map[] && Spent(log) == 0.0
      ensures ended.None? ==> Polling(log) && Plans(log) == s.candidates && Fetches(log) == Tables(executed)
    {
      hide Going, Rests, Stands, Plans, Fetches, Tables, HeldOf, Spent, Runs, FoundUndefined, PollStopped, AllStand,
           ProbesFit, Polling;
      NothingYet();
      executed, undefined, ended := [], false, None;
      var i := 0;
      while i < s.candidates
        invariant 0 <= i <= s.candidates && |executed| <= i && Runs(log) <= i
        invariant Going() && Keeps(h) && AllStand(s, log, executed) && (undefined <==> FoundUndefined(log))
        invariant Polling(log) && (executed == [] ==> HeldOf(log) == map[] && Spent(log) == 0.0)
        invariant Plans(log) == i && Fetches(log) == Tables(executed)
      {
        ghost var before, held := log, executed;
        var c := TryCandidate(h, |executed|);
        match c {
          case Ended(a) => ended := Some(a); return;
          case Undefined => undefined := true;
          case Kept(q, t) =>
            TablesSnoc(executed, q, t);
            executed := executed + [(q, t)];
          case Dropped =>
        }
        GoingMeans();
        HeldStand(s, before, log, held, executed);
        i := i + 1;
      }
      GoingMeans();
    }

    /** Which member of the chosen group stands for it: the first one the sanity layer would pass, else the first. */
    method Representative(executed: seq<(Query, Table)>, group: seq<nat>) returns (i: nat)
      requires group != [] && forall j :: 0 <= j < |group| ==> group[j] < |executed|
      ensures i in group && Represents(w, s, executed, group, i)
      ensures s.ChecksSanity() &&
              (exists j :: 0 <= j < |group| && w.sane(executed[group[j]].0, executed[group[j]].1)) ==>
                i < |executed| && w.sane(executed[i].0, executed[i].1)
      ensures !s.ChecksSanity() ==> i == group[0]
    {
      i := group[0];
      if !s.ChecksSanity() { return; }
      var k := 0;
      while k < |group|
        invariant 0 <= k <= |group|
        invariant forall j :: 0 <= j < k ==> !Sane(w, executed, group[j])
      {
        assert group[k] in group;
        if w.sane(executed[group[k]].0, executed[group[k]].1) {
          assert Sane(w, executed, group[k]);
          return group[k];
        }
        k := k + 1;
      }
      assert forall j :: 0 <= j < |group| ==> !Sane(w, executed, group[j]);
    }

    /** The group answered from: the selector's where it is asked and its pick is a group, else the largest. */
    method Choose(groups: seq<seq<nat>>, n: nat, majority: nat) returns (chosen: nat)
      requires groups != [] && Largest(groups, majority) && n > 0
      ensures chosen < |groups| && (!s.selector || |groups[majority]| == n ==> chosen == majority)
      ensures Picks(w, s, log, groups, n, chosen)
    {
      chosen := majority;
      if s.selector && |groups[majority]| < n {
        var pick := w.choose(log, groups);
        if 0 <= pick < |groups| { chosen := pick; }
      }
      forall m: nat | Largest(groups, m) ensures m == majority { OneLargest(groups, m, majority); }
    }

    /** Whether the largest group is the share of every candidate that is asked for. */
    method Clears(groups: seq<seq<nat>>, n: nat, majority: nat) returns (ok: bool)
      requires n > 0 && Largest(groups, majority)
      ensures ok <==> MeetsBar(s, groups, n)
    {
      ok := s.minAgreement.None? || (n >= s.candidates && Share(|groups[majority]|, n) >= s.minAgreement.value);
      forall m: nat | Largest(groups, m) ensures m == majority { OneLargest(groups, m, majority); }
    }

    /** The vote over what the candidates fetched. */
    method Vote(executed: seq<(Query, Table)>) returns (a: Answer)
      requires Going() && executed != [] && AllStand(s, log, executed)
      modifies this`log
      ensures Going() && SameTally(old(log)) && old(log) < log
      ensures Settles(w, s, old(log), log, Tables(executed), a)
      ensures FoundUndefined(log) == FoundUndefined(old(log))
    {
      hide Going, Rests, Largest, MeetsBar, Sizes, Tables, Share, FoundUndefined, Runs, Plans, Fetches, HeldOf, Spent,
           AllStand, Clustered, Published, Disagrees, Settles;
      ghost var from := log;
      var tables := Tables(executed);
      var groups := Cluster(tables, w.same);
      assert !Pending(log) by { GoingMeans(); }
      Note(Voted(executed, groups));
      var majority := Majority(groups);
      var ok := Clears(groups, |tables|, majority);
      if !ok {
        IsLargest(groups, majority);
        a := Deferral(Disagreement).(agreement := Some(Share(|groups[majority]|, |tables|)),
                                     executed := Some(|tables|));
        DisagreeSettles(w, s, from, log, executed, groups, majority, a);
        return;
      }
      GoingMeans();
      AllStandGrow(s, from, log, executed);
      ghost var mid := log;
      a := Elect(executed, groups, majority);
      PublishSettles(w, s, from, mid, log, executed, groups, a);
    }

    /** An answer from the group chosen, by the member that stands for it. */
    method Elect(executed: seq<(Query, Table)>, groups: Groups, majority: nat) returns (a: Answer)
      requires Going() && executed != [] && AllStand(s, log, executed) && log != [] &&
               log[|log| - 1] == Voted(executed, groups)
      requires Clustered(groups, Tables(executed), w.same) && groups != [] && Largest(groups, majority)
      modifies this`log
      ensures Going() && SameTally(old(log)) && |old(log)| + 1 < |log| <= |old(log)| + 3 && old(log) < log
      ensures FoundUndefined(log) == FoundUndefined(old(log))
      ensures log[|old(log)|].Chose? && Published(w, s, executed, groups, log[|old(log)|].group, log, a)
    {
      hide Going, Rests, Tables, Share, FoundUndefined, Runs, Plans, Fetches, HeldOf, Spent, Vouched, Stands, Clustered,
           Represents, Picks, Pending, Largest;
      var n := |executed|;
      ghost var from := log;
      var chosen := Choose(groups, n, majority);
      GoingMeans();
      assert Fits(w, s, initial, log, Chose(chosen));
      Note(Chose(chosen));
      var group := groups[chosen];
      MembersBelow(groups, Tables(executed), w.same, chosen);
      var i := Representative(executed, group);
      assert InGroup(groups, chosen, i);
      GoingMeans();
      AllStandGrow(s, from, log, executed);
      a := Publish(executed[i].0, executed[i].1);
      if a.traced { a := a.(executed := Some(n), agreement := Some(Share(|group|, n))); }
    }

    /** The candidates, the vote over them, and the single path where none of them ran. */
    method AnswerConsistent() returns (a: Answer)
      requires log == [] && cache == initial && s.candidates > 1
      modifies this`log, this`cache
      ensures OneEnding(a) && Rests() && Runs(log) <= s.candidates + s.maxAttempts
      ensures Closes(w, s, log, a) && Ends(w, s, log, a)
    {
      hide Going, Rests, Stands, MeetsBar, Share, Vouched, Explained, Settles, Closes, FoundUndefined, HeldOf, Spent,
           Runs, Plans, Fetches;
      var h := new Held();
      var executed, undefined, ended := Gather(h);
      if ended.Some? {
        StopCloses(w, s, log, ended.value);
        return ended.value;
      }
      GoingMeans();
      ghost var from := log;
      assert log[..|from|] == from;
      if undefined {
        a := Deferral(UndefinedTerm).(executed := Some(|executed|));
        UndefinedCloses(w, s, log, a);
        assert AfterPoll(w, s, log[..|from|], log, a);
        return;
      }
      if executed == [] {
        a := AnswerSingle();
        SingleCloses(w, s, from, log, a);
      } else {
        a := Vote(executed);
        GoingMeans();
        VoteCloses(w, s, from, log, Tables(executed), a);
      }
      assert log[..|from|] == from && AfterPoll(w, s, log[..|from|], log, a);
    }

    /**
      * One turn. It ends once, in one of three ways; nothing follows a stop; its runs and its probes are
      * bounded; and rows are told only when fetched in it, verified, and, by a vote, agreed on.
      */
    method AnswerTurn(tooLong: bool) returns (a: Answer)
      requires log == []
      modifies this
      ensures Recorded(w, s, old(cache), log) && cache == CacheAfter(old(cache), log) && !Pending(log)
      ensures OneEnding(a) && EndsAtStop(log) && ProbesFit(s.timeout, log)
      ensures Runs(log) <= s.maxAttempts + (if s.candidates <= 1 then 0 else s.candidates)
      ensures tooLong ==> log == [] && a == Deferral(QuestionTooLong)
      ensures !tooLong ==> Closes(w, s, log, a) && Ends(w, s, log, a)
    {
      initial := cache;
      if tooLong { return Deferral(QuestionTooLong); }
      if s.candidates <= 1 {
        a := AnswerSingle();
        SingleCloses(w, s, [], log, a);
      } else {
        a := AnswerConsistent();
      }
    }
  }

  /** Every candidate was asked for a plan, and none of them stopped the turn. */
  ghost predicate Polled(s: Settings, from: seq<Event>) { Quiet(from) && Polling(from) && Plans(from) == s.candidates }

  /** What follows the candidates: an undefined term's deferral, the single path where none ran, or the vote. */
  ghost predicate AfterPoll(w: World, s: Settings, from: seq<Event>, log: seq<Event>, a: Answer) {
    if FoundUndefined(from) then log == from && a == Deferral(UndefinedTerm).(executed := Some(|Fetches(from)|))
    else if Fetches(from) == [] then Explained(s, from, log, a)
    else Settles(w, s, from, log, Fetches(from), a)
  }

  /** Why a turn ended as it did, read off its record. */
  ghost predicate Ends(w: World, s: Settings, log: seq<Event>, a: Answer) {
    if s.candidates <= 1 then Explained(s, [], log, a)
    else PollStopped(log, a) || exists n :: 0 <= n <= |log| && Polled(s, log[..n]) && AfterPoll(w, s, log[..n], log, a)
  }

  /** What the end of a turn says of its record, whichever path it took. */
  ghost predicate Closes(w: World, s: Settings, log: seq<Event>, a: Answer) {
    (log != [] && Stop(log[|log| - 1]) ==> StoppedWith(log, a)) &&
    (Quiet(log) && FoundUndefined(log) ==> a.deferred && a.reason == Some(UndefinedTerm)) &&
    (a.traced ==> log != [] && log[|log| - 1].Told? && Vouched(s, log, log[|log| - 1].query, log[|log| - 1].table)) &&
    (a.traced && a.executed.Some? ==> ByVote(w, s, log, a)) &&
    (a.deferred && a.reason == Some(Disagreement) && a.agreement.Some? ==> BelowBar(s, log))
  }

  /** A told answer of the vote: its group was elected, over the bar. */
  ghost predicate ByVote(w: World, s: Settings, log: seq<Event>, a: Answer)
    requires log != [] && log[|log| - 1].Told?
  {
    var e := log[|log| - 1];
    exists i :: 0 <= i < |log| - 1 && log[i].Voted? && log[i + 1].Chose? &&
      MeetsBar(s, log[i].groups, |log[i].executed|) &&
                Elected(w, s, log[i].executed, log[i].groups, log[i + 1].group, e.query, e.table)
  }

  ghost predicate BelowBar(s: Settings, log: seq<Event>) {
    log != [] && log[|log| - 1].Voted? && !MeetsBar(s, log[|log| - 1].groups, |log[|log| - 1].executed|)
  }

  lemma StopCloses(w: World, s: Settings, log: seq<Event>, a: Answer)
    requires StoppedWith(log, a)
    ensures OneEnding(a) && Closes(w, s, log, a)
  {}

  lemma UndefinedCloses(w: World, s: Settings, log: seq<Event>, a: Answer)
    requires Quiet(log) && a == Deferral(UndefinedTerm).(executed := a.executed)
    ensures OneEnding(a) && Closes(w, s, log, a)
  {}

  lemma SingleCloses(w: World, s: Settings, from: seq<Event>, log: seq<Event>, a: Answer)
    requires Explained(s, from, log, a) && !FoundUndefined(from) && Quiet(from)
    requires FoundUndefined(log) ==> a == Deferral(UndefinedTerm)
    ensures OneEnding(a) && Closes(w, s, log, a) && from <= log
  {}

  lemma VoteCloses(w: World, s: Settings, from: seq<Event>, log: seq<Event>, tables: seq<Table>, a: Answer)
    requires Settles(w, s, from, log, tables, a) && from <= log && Quiet(log)
    requires !FoundUndefined(log)
    ensures OneEnding(a) && Closes(w, s, log, a)
  {}

  lemma TablesSnoc(executed: seq<(Query, Table)>, q: Query, t: Table)
    ensures Tables(executed + [(q, t)]) == Tables(executed) + [t]
  {
    var a, b := Tables(executed + [(q, t)]), Tables(executed) + [t];
    assert |a| == |b| && forall i :: 0 <= i < |a| ==> a[i] == b[i];
  }

  lemma IsLargest(groups: Groups, m: nat)
    requires Largest(groups, m)
    ensures m < |groups|
  {}

  lemma MembersBelow(groups: Groups, tables: seq<Table>, same: (Table, Table) -> bool, k: nat)
    requires Clustered(groups, tables, same) && k < |groups|
    ensures groups[k] != [] && forall j :: 0 <= j < |groups[k]| ==> groups[k][j] < |tables|
  {
    forall j | 0 <= j < |groups[k]| ensures groups[k][j] < |tables| { assert groups[k][j] in groups[k]; }
  }

  lemma DisagreeSettles(w: World, s: Settings, from: seq<Event>, log: seq<Event>, executed: seq<(Query, Table)>,
                        groups: Groups, m: nat, a: Answer)
    requires log == from + [Voted(executed, groups)] && executed != []
    requires Clustered(groups, Tables(executed), w.same) && Sizes(groups) == |executed|
    requires Largest(groups, m) && !MeetsBar(s, groups, |executed|)
    requires a == Deferral(Disagreement).(agreement := Some(Share(|groups[m]|, |executed|)),
                                          executed := Some(|executed|))
    ensures Settles(w, s, from, log, Tables(executed), a)
  {
    hide Largest, MeetsBar, Clustered, Sizes, Share;
  }

  lemma PublishSettles(w: World, s: Settings, from: seq<Event>, mid: seq<Event>, log: seq<Event>,
                       executed: seq<(Query, Table)>, groups: Groups, a: Answer)
    requires mid == from + [Voted(executed, groups)] && mid <= log && |mid| + 1 < |log| <= |mid| + 3
    requires Clustered(groups, Tables(executed), w.same) && Sizes(groups) == |executed| &&
             MeetsBar(s, groups, |executed|)
    requires log[|mid|].Chose? && Published(w, s, executed, groups, log[|mid|].group, log, a)
    ensures Settles(w, s, from, log, Tables(executed), a)
  {
    hide Published, MeetsBar, Clustered, Sizes;
    assert log[|from|] == mid[|from|];
  }

  lemma NoneSettled(held: Answers, spent: real)
    ensures SettledSoFar(map[], held, spent, [], [])
  {}

  lemma HeldStand(s: Settings, before: seq<Event>, after: seq<Event>, held: seq<(Query, Table)>,
                  now: seq<(Query, Table)>)
    requires before <= after && ProbesFit(s.timeout, after) && AllStand(s, before, held)
    requires now == held || (now != [] && now[..|now| - 1] == held &&
                             Stands(s, after, now[|now| - 1].0, now[|now| - 1].1))
    ensures AllStand(s, after, now)
  {
    hide Stands, ProbesFit;
    AllStandGrow(s, before, after, held);
    forall i | 0 <= i < |now| ensures Stands(s, after, now[i].0, now[i].1) {
      if i < |held| { assert now[i] == held[i]; }
    }
  }

  lemma StandsIsFetched(s: Settings, log: seq<Event>, q: Query, t: Table)
    requires Stands(s, log, q, t)
    ensures Fetched(log, q.key, t)
  {}

  lemma NoneTried(log: seq<Event>)
    ensures Tried(log, log, 0)
  {}

  lemma TriedAgain(from: seq<Event>, before: seq<Event>, log: seq<Event>, n: nat)
    requires Tried(from, before, n) && |before| == |from| + 2 * n && before < log && |log| == |before| + 2
    requires log[|before|].Planned? && log[|before| + 1].Ran? && log[|before| + 1].running.Rejected?
    ensures Tried(from, log, n + 1)
  {}

  lemma TriedEnough(s: Settings, from: seq<Event>, log: seq<Event>, a: Answer)
    requires Tried(from, log, s.maxAttempts) && |log| == |from| + 2 * s.maxAttempts
    requires Runs(log) == Runs(from) + s.maxAttempts && a == Failure(ExecutionFailed)
    ensures Explained(s, from, log, a)
  {
    hide Runs;
  }

  lemma AttemptRepairs(s: Settings, from: seq<Event>, before: seq<Event>, log: seq<Event>, n: nat, a: Answer)
    requires Tried(from, before, n) && |before| == |from| + 2 * n && n < s.maxAttempts
    requires OneAttempt(before, log) && Concludes(s, log, a)
    ensures Explained(s, from, log, a)
  {
    hide Concludes;
    assert log[..|from| + 2 * n] == before;
    assert Tried(from, log, n);
  }

  lemma AttemptGrows(before: seq<Event>, log: seq<Event>)
    requires OneAttempt(before, log)
    ensures before < log
  {}

  // ----- what the endings are, event by event -----

  /** Whatever stops a turn is the last thing in it, and the answer is a failure for that reason. */
  lemma StopsEndTheTurn(w: World, s: Settings, log: seq<Event>, a: Answer, i: nat)
    requires EndsAtStop(log) && Closes(w, s, log, a) && i < |log|
    requires var e := log[i];
             e == Planned(ModelDown) || e == Planned(Defers(SourceUnavailable)) ||
             (e.Ran? && (e.running == Outage || e.running == Cancelled))
    ensures i == |log| - 1 && a.failed && !a.deferred && !a.traced
    ensures a.reason == Some(match log[i]
                             case Planned(ModelDown) => ModelUnavailable
                             case Planned(_) => SourceUnavailable
                             case Ran(_, running) => if running == Outage then SourceUnavailable else ExecutionFailed
                             case _ => ExecutionFailed)
  {}

  /** A plan that only defers, a hold of the verifier's and a rejected run are no stops: where one of them is last on
      the single path, the answer defers, or is held as the verifier says, or fails for want of attempts. */
  lemma SinglePathEndings(s: Settings, from: seq<Event>, log: seq<Event>, a: Answer)
    requires Explained(s, from, log, a) && |from| < |log|
    ensures match log[|log| - 1]
            case Planned(Defers(r)) =>
              r != SourceUnavailable ==> a.deferred && !a.failed && !a.traced && a.reason == Some(r)
            case Verified(_, _, Holds(failed, r)) =>
              a.failed == failed && a.deferred == !failed && !a.traced && a.reason == Some(r)
            case Told(_, _) => a.traced && !a.deferred && !a.failed
            case Ran(_, Rejected) => a.failed && !a.deferred && !a.traced && a.reason == Some(ExecutionFailed)
            case _ => true
  {}
}
