/** The grading loop of a native run: its counts, and when a run has an accuracy at all. */
module RunTally {
  import opened Options
  import opened ResultVote

  /** A question: what was generated for it, if the server was reached, with each finish reason, and its gold query. */
  datatype Case = Case(generated: Option<seq<string>>, reasons: seq<string>, gold: string)

  type Source = string -> Option<Table>

  datatype Tally = Tally(
    correct: nat, wrong: nat, error: nat,
    transport: nat, scored: nat, goldFailed: nat, emptySql: nat, truncatedOnly: nat)

  const NOTHING := Tally(0, 0, 0, 0, 0, 0, 0, 0)

  function AllCut(reasons: seq<string>): bool { reasons != [] && forall r :: r in reasons ==> r == CUT }

  /** The queries of a case that vote: with `gen_one`'s filter applied. */
  function Voting(c: Case): seq<string>
    requires c.generated.Some?
  {
    Usable(c.generated.value, c.reasons)
  }

  function Executed(qs: seq<string>, source: Source): (cs: seq<Candidate>)
    ensures |cs| == |qs| && forall i :: 0 <= i < |qs| ==> cs[i] == (qs[i], if qs[i] == "" then None else source(qs[i]))
  {
    if qs == [] then []
    else [(qs[0], if qs[0] == "" then None else source(qs[0]))] + Executed(qs[1..], source)
  }

  function Gold(c: Case, source: Source): Option<Table> { if c.gold == "" then None else source(c.gold) }

  /** Some finished query of the case returns what its gold returns. */
  ghost predicate Answerable(c: Case, source: Source, same: (Table, Table) -> bool) {
    c.generated.Some? && Gold(c, source).Some? &&
    exists q :: q in Voting(c) && q != "" && source(q).Some? && same(Gold(c, source).value, source(q).value)
  }

  /** The vote's winner for the case is this query with this result. */
  ghost predicate Won(c: Case, source: Source, sql: string, table: Option<Table>) {
    c.generated.Some? && IsWinner(Executed(Voting(c), source), (sql, table))
  }

  /** The gold ran, and the winner's result is its. */
  ghost predicate Correct(c: Case, source: Source, same: (Table, Table) -> bool) {
    Gold(c, source).Some? &&
    exists sql, table :: Won(c, source, sql, Some(table)) && same(Gold(c, source).value, table)
  }

  /** The gold ran, and there was a query to compare. */
  ghost predicate Compared(c: Case, source: Source) {
    Gold(c, source).Some? && exists sql, table :: Won(c, source, sql, table) && sql != ""
  }

  /** The server answered, and what the vote settled on is no query at all. */
  ghost predicate Blank(c: Case, source: Source) {
    exists table :: Won(c, source, "", table)
  }

  /** What a case may be counted as. */
  datatype Mark = IsCorrect | IsCompared | IsUnanswered | GoldFails | IsEmpty | IsCut

  ghost predicate Bears(c: Case, m: Mark, source: Source, same: (Table, Table) -> bool) {
    match m
    case IsCorrect => Correct(c, source, same)
    case IsCompared => Compared(c, source)
    case IsUnanswered => c.generated.None?
    case GoldFails => c.generated.Some? && Gold(c, source).None?
    case IsEmpty => Blank(c, source) && !AllCut(c.reasons)
    case IsCut => Blank(c, source) && AllCut(c.reasons)
  }

  ghost function HowMany(cases: seq<Case>, m: Mark, source: Source, same: (Table, Table) -> bool): nat {
    if cases == [] then 0
    else HowMany(cases[..|cases| - 1], m, source, same) + (if Bears(cases[|cases| - 1], m, source, same) then 1 else 0)
  }

  lemma HowManyNext(cases: seq<Case>, i: nat, m: Mark, source: Source, same: (Table, Table) -> bool)
    requires i < |cases|
    ensures HowMany(cases[..i + 1], m, source, same) ==
            HowMany(cases[..i], m, source, same) + (if Bears(cases[i], m, source, same) then 1 else 0)
  {
    hide Bears;
    assert cases[..i + 1][..i] == cases[..i];
  }

  /** A case none of whose generations finished has nothing to vote with. */
  lemma CutIsNotAnswerable(c: Case, source: Source, same: (Table, Table) -> bool)
    requires c.generated.Some? && AllCut(c.reasons)
    ensures !Answerable(c, source, same)
  {
    UsableAreFinished(c.generated.value, c.reasons);
    assert forall i :: 0 <= i < |c.reasons| ==> c.reasons[i] in c.reasons;
  }

  /** Every count is of cases, each case is in one of three, and nothing is correct that was not compared. */
  ghost predicate Adds(t: Tally, cases: seq<Case>, source: Source, same: (Table, Table) -> bool) {
    t.correct + t.wrong + t.error == |cases| &&
    t.error == t.transport + t.goldFailed && t.correct <= t.scored <= t.correct + t.wrong &&
    t.correct == HowMany(cases, IsCorrect, source, same) && t.scored == HowMany(cases, IsCompared, source, same) &&
    t.transport == HowMany(cases, IsUnanswered, source, same) &&
    t.goldFailed == HowMany(cases, GoldFails, source, same) &&
    t.emptySql == HowMany(cases, IsEmpty, source, same) && t.truncatedOnly == HowMany(cases, IsCut, source, same)
  }

  /** The case went to one of the three, and to no other. */
  predicate CountsOneMore(t: Tally, r: Tally) {
    r.correct + r.wrong + r.error == t.correct + t.wrong + t.error + 1 &&
    t.correct <= r.correct && t.wrong <= r.wrong && t.error <= r.error
  }

  /** One case, counted by what its vote's winner returned. */
  method GradeOne(c: Case, source: Source, same: (Table, Table) -> bool, t: Tally) returns (r: Tally)
    ensures CountsOneMore(t, r)
    ensures r.transport == t.transport + (if c.generated.None? then 1 else 0)
    ensures r.goldFailed == t.goldFailed + (if c.generated.Some? && Gold(c, source).None? then 1 else 0)
    ensures r.error == t.error + (r.transport - t.transport) + (r.goldFailed - t.goldFailed)
    ensures r.correct == t.correct + (if Correct(c, source, same) then 1 else 0)
    ensures r.scored == t.scored + (if Compared(c, source) then 1 else 0)
    ensures r.emptySql == t.emptySql + (if Blank(c, source) && !AllCut(c.reasons) then 1 else 0)
    ensures r.truncatedOnly == t.truncatedOnly + (if Blank(c, source) && AllCut(c.reasons) then 1 else 0)
    ensures r.correct - t.correct <= r.scored - t.scored <= (r.correct - t.correct) + (r.wrong - t.wrong)
  {
    if c.generated.None? {
      return t.(transport := t.transport + 1, error := t.error + 1);
    }
    var executed := Executed(Voting(c), source);
    var sql, table, votes, groups := Vote(executed);
    WinnerRan(c, source, executed, sql, table, votes, groups);
    Decided(c, source, same, sql, table);
    hide Correct, Compared, Blank, Voting, Executed, Won, Keys, Gold, AllCut;
    var gold := Gold(c, source);
    var matched := gold.Some? && table.Some? && same(gold.value, table.value);
    r := Count(t, AllCut(c.reasons), sql, gold.Some?, matched);
  }

  /** The winner is one, so what it returned decides the case. */
  lemma Decided(c: Case, source: Source, same: (Table, Table) -> bool, sql: string, table: Option<Table>)
    requires Won(c, source, sql, table)
    ensures Correct(c, source, same) <==>
              Gold(c, source).Some? && table.Some? &&
              same(Gold(c, source).value, table.value)
    ensures Compared(c, source) <==> Gold(c, source).Some? && sql != ""
    ensures Blank(c, source) <==> sql == ""
  {
    hide IsWinner, Executed, Voting, Gold;
    forall sql', table' | Won(c, source, sql', table') ensures sql' == sql && table' == table {
      WinnerIsOne(Executed(Voting(c), source), (sql, table), (sql', table'));
    }
  }

  /** The counters one graded case moves. */
  method Count(t: Tally, cut: bool, sql: string, goldRan: bool, matched: bool) returns (r: Tally)
    requires matched ==> goldRan && sql != ""
    ensures CountsOneMore(t, r) && r.transport == t.transport
    ensures r.goldFailed - t.goldFailed == r.error - t.error == (if goldRan then 0 else 1)
    ensures r.correct - t.correct == (if matched then 1 else 0)
    ensures r.scored - t.scored == (if goldRan && sql != "" then 1 else 0)
    ensures r.truncatedOnly - t.truncatedOnly == (if sql == "" && cut then 1 else 0)
    ensures r.emptySql - t.emptySql == (if sql == "" && !cut then 1 else 0)
  {
    r := t;
    if sql == "" {
      r := if cut then r.(truncatedOnly := r.truncatedOnly + 1) else r.(emptySql := r.emptySql + 1);
    }
    if !goldRan {
      r := r.(error := r.error + 1, goldFailed := r.goldFailed + 1);
    } else if matched {
      r := r.(correct := r.correct + 1);
    } else {
      r := r.(wrong := r.wrong + 1);
    }
    if goldRan && sql != "" { r := r.(scored := r.scored + 1); }
  }

  /** A result the vote returns is what its query returned, and the query is one of those that voted. */
  lemma WinnerRan(c: Case, source: Source, executed: seq<Candidate>, sql: string, table: Option<Table>, votes: nat,
                  groups: nat)
    requires c.generated.Some? && executed == Executed(Voting(c), source)
    requires Keys(executed) == {} ==> sql == (if executed == [] then "" else executed[0].0) && table == None
    requires Keys(executed) != {} ==> exists w: nat :: Wins(executed, w, votes, groups) && executed[w] == (sql, table)
    ensures Won(c, source, sql, table)
    ensures table.Some? ==> sql in Voting(c) && sql != "" && source(sql) == table
  {
    hide Keys, Votes, KeyOf;
  }

  /** A case counted correct has a finished query that returns what its gold returns. */
  lemma CorrectIsAnswerable(c: Case, source: Source, same: (Table, Table) -> bool)
    requires Correct(c, source, same)
    ensures Answerable(c, source, same)
  {
    var sql, table :| Won(c, source, sql, Some(table)) && same(Gold(c, source).value, table);
    var executed := Executed(Voting(c), source);
    hide Keys, Votes, KeyOf;
    if Keys(executed) != {} {
      var w: nat, votes: nat, groups: nat :| Wins(executed, w, votes, groups) && executed[w] == (sql, Some(table));
      WinnerRan(c, source, executed, sql, Some(table), votes, groups);
    }
  }

  /** The whole run: its counts, its exit status, and its accuracy where it has one. */
  method Grade(cases: seq<Case>, source: Source, same: (Table, Table) -> bool)
    returns (t: Tally, status: int, accuracy: Option<real>)
    ensures Adds(t, cases, source, same)
    ensures status == 0 <==> (forall c :: c in cases ==> c.generated.Some?) && t.scored > 0
    ensures status == 0 || status == 1
    ensures accuracy.Some? <==> status == 0
    ensures accuracy.Some? ==>
              accuracy.value * |cases| as real == 100.0 * t.correct as real &&
              0.0 <= accuracy.value <= 100.0
  {
    hide Adds, Correct, Compared, Blank, AllCut, Gold, HowMany;
    t := GradeAll(cases, source, same);
    AddsMeans(t, cases, source, same);
    status, accuracy := Conclude(t, |cases|);
  }

  /** The loop over the cases. */
  method GradeAll(cases: seq<Case>, source: Source, same: (Table, Table) -> bool) returns (t: Tally)
    ensures Adds(t, cases, source, same)
  {
    hide Adds, Correct, Compared, Blank, AllCut, Gold;
    t := NOTHING;
    NothingAdds(source, same);
    assert cases[..0] == [];
    var i := 0;
    while i < |cases|
      invariant 0 <= i <= |cases| && Adds(t, cases[..i], source, same)
    {
      var r := GradeOne(cases[i], source, same, t);
      OneMoreAdds(t, r, cases, i, source, same);
      t := r;
      i := i + 1;
    }
    assert cases[..i] == cases;
  }

  /** Void if a question went unanswered or nothing was compared; else an accuracy over all the cases. */
  method Conclude(t: Tally, n: nat) returns (status: int, accuracy: Option<real>)
    requires t.correct <= n && (t.scored > 0 ==> n > 0)
    ensures status == if t.transport == 0 && t.scored > 0 then 0 else 1
    ensures accuracy.Some? <==> status == 0
    ensures accuracy.Some? ==> accuracy.value * n as real == 100.0 * t.correct as real && 0.0 <= accuracy.value <= 100.0
  {
    if t.transport > 0 || t.scored == 0 { return 1, None; }
    status := 0;
    accuracy := Some(100.0 * t.correct as real / n as real);
    Percent(t.correct, n);
  }

  lemma NothingAdds(source: Source, same: (Table, Table) -> bool)
    ensures Adds(NOTHING, [], source, same)
  {
    hide HowMany, Bears;
    NothingCounted(IsCorrect, source, same);
    NothingCounted(IsCompared, source, same);
    NothingCounted(IsUnanswered, source, same);
    NothingCounted(GoldFails, source, same);
    NothingCounted(IsEmpty, source, same);
    NothingCounted(IsCut, source, same);
  }

  lemma NothingCounted(m: Mark, source: Source, same: (Table, Table) -> bool)
    ensures HowMany([], m, source, same) == 0
  {
    hide Bears;
  }

  lemma AddsMeans(t: Tally, cases: seq<Case>, source: Source, same: (Table, Table) -> bool)
    requires Adds(t, cases, source, same)
    ensures t.transport == 0 <==> forall c :: c in cases ==> c.generated.Some?
    ensures t.correct <= |cases| && (t.scored > 0 ==> |cases| > 0)
  {
    hide Correct, Compared, Blank, AllCut, Gold;
    NoneOf(cases, IsUnanswered, source, same);
    forall c ensures Bears(c, IsUnanswered, source, same) <==> c.generated.None? {}
  }

  lemma OneMoreAdds(t: Tally, r: Tally, cases: seq<Case>, i: nat, source: Source, same: (Table, Table) -> bool)
    requires i < |cases| && Adds(t, cases[..i], source, same)
    requires CountsOneMore(t, r)
    requires var c := cases[i];
             r.transport == t.transport + (if c.generated.None? then 1 else 0) &&
             r.goldFailed == t.goldFailed + (if c.generated.Some? && Gold(c, source).None? then 1 else 0) &&
             r.correct == t.correct + (if Correct(c, source, same) then 1 else 0) &&
             r.scored == t.scored + (if Compared(c, source) then 1 else 0) &&
             r.emptySql == t.emptySql + (if Blank(c, source) && !AllCut(c.reasons) then 1 else 0) &&
             r.truncatedOnly == t.truncatedOnly + (if Blank(c, source) && AllCut(c.reasons) then 1 else 0)
    requires r.error == t.error + (r.transport - t.transport) + (r.goldFailed - t.goldFailed)
    requires r.correct - t.correct <= r.scored - t.scored <= (r.correct - t.correct) + (r.wrong - t.wrong)
    ensures Adds(r, cases[..i + 1], source, same)
  {
    hide Correct, Compared, Blank, AllCut, Gold;
    HowManyNext(cases, i, IsUnanswered, source, same);
    HowManyNext(cases, i, GoldFails, source, same);
    HowManyNext(cases, i, IsCorrect, source, same);
    HowManyNext(cases, i, IsCompared, source, same);
    HowManyNext(cases, i, IsEmpty, source, same);
    HowManyNext(cases, i, IsCut, source, same);
  }

  lemma {:induction false} NoneOf(cases: seq<Case>, m: Mark, source: Source, same: (Table, Table) -> bool)
    ensures HowMany(cases, m, source, same) == 0 <==> forall c :: c in cases ==> !Bears(c, m, source, same)
  {
    hide Bears;
    if cases != [] {
      NoneOf(cases[..|cases| - 1], m, source, same);
      assert cases == cases[..|cases| - 1] + [cases[|cases| - 1]];
    }
  }

  lemma Percent(correct: nat, n: nat)
    requires correct <= n && n > 0
    ensures 0.0 <= 100.0 * correct as real / n as real <= 100.0
  {}

  /** A case is counted as cut exactly where generations were made and none of them finished. */
  lemma {:induction false} CutExactly(sqls: seq<string>, reasons: seq<string>)
    requires |sqls| == |reasons| && reasons != []
    ensures AllCut(reasons) <==> Finished(sqls, reasons) == []
  {
    FinishedAre(sqls, reasons);
    forall i | 0 <= i < |reasons| && reasons[i] != CUT ensures Finished(sqls, reasons) != [] {
      assert sqls[i] in Finished(sqls, reasons);
    }
    if Finished(sqls, reasons) != [] {
      assert Finished(sqls, reasons)[0] in Finished(sqls, reasons);
      var i :| 0 <= i < |sqls| && i < |reasons| && sqls[i] == Finished(sqls, reasons)[0] && reasons[i] != CUT;
      assert reasons[i] in reasons;
    } else {
      forall r | r in reasons ensures r == CUT {
        var i :| 0 <= i < |reasons| && reasons[i] == r;
      }
    }
  }
}
