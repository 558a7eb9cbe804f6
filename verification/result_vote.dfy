/** Execution-based voting: which candidates may vote, what they vote on, and which query wins. */
module ResultVote {
  import opened Options
  import opened Ordering

  /** A row as its normalised values print. */
  type Row = string

  datatype Table = Table(columns: nat, rows: seq<Row>)

  type Candidate = (string, Option<Table>)

  const CUT := "length"

  // ----- which candidates are usable -----

  function Finished(sqls: seq<string>, reasons: seq<string>): seq<string> {
    if sqls == [] || reasons == [] then []
    else (if reasons[0] != CUT then [sqls[0]] else []) + Finished(sqls[1..], reasons[1..])
  }

  /** All of them where no reasons are known; else the finished ones, or one empty query if none is. */
  function Usable(sqls: seq<string>, reasons: seq<string>): seq<string> {
    if reasons == [] then sqls
    else
      var kept := Finished(sqls, reasons);
      if kept == [] then [""] else kept
  }

  /** Every query that may vote was finished, or is no query; and every finished one may. */
  lemma {:induction false} UsableAreFinished(sqls: seq<string>, reasons: seq<string>)
    requires reasons != []
    ensures forall q :: q in Usable(sqls, reasons) ==>
                          q == "" || exists i :: 0 <= i < |sqls| && i < |reasons| && sqls[i] == q && reasons[i] != CUT
    ensures forall i :: 0 <= i < |sqls| && i < |reasons| && reasons[i] != CUT ==> sqls[i] in Usable(sqls, reasons)
  {
    FinishedAre(sqls, reasons);
  }

  lemma {:induction false} FinishedAre(sqls: seq<string>, reasons: seq<string>)
    ensures forall q :: q in Finished(sqls, reasons) <==>
                          exists i :: 0 <= i < |sqls| && i < |reasons| && sqls[i] == q && reasons[i] != CUT
  {
    if sqls != [] && reasons != [] {
      var ss, rs := sqls[1..], reasons[1..];
      FinishedAre(ss, rs);
      forall q ensures q in Finished(sqls, reasons) <==>
                         exists i :: 0 <= i < |sqls| && i < |reasons| && sqls[i] == q && reasons[i] != CUT
      {
        if i :| 0 <= i < |sqls| && i < |reasons| && sqls[i] == q && reasons[i] != CUT && i > 0 {
          assert ss[i - 1] == q && rs[i - 1] != CUT;
        }
        if q in Finished(ss, rs) {
          var i :| 0 <= i < |ss| && i < |rs| && ss[i] == q && rs[i] != CUT;
          assert sqls[i + 1] == q && reasons[i + 1] != CUT;
        }
      }
    }
  }

  // ----- what a candidate votes for -----

  /** The rows in sorted order, or nothing where the query did not run or returned no columns. */
  function ResultKey(t: Option<Table>): Option<seq<Row>> {
    if t.None? || t.value.columns == 0 then None else Some(Sort(StrLe, t.value.rows))
  }

  lemma Without<T>(s: seq<T>, i: nat)
    requires i < |s|
    ensures multiset(s[..i] + s[i + 1..]) == multiset(s) - multiset{s[i]}
  {
    assert s == s[..i] + ([s[i]] + s[i + 1..]);
  }

  lemma FirstIsLeast(s: seq<Row>, x: Row)
    requires Sorted(StrLe, s) && x in s
    ensures StrLe(s[0], x)
  {
    var i :| 0 <= i < |s| && s[i] == x;
    StrLeTotal(x, x);
  }

  lemma TailSorted(s: seq<Row>)
    requires s != [] && Sorted(StrLe, s)
    ensures Sorted(StrLe, s[1..])
  {
    hide StrLe;
  }

  lemma SameFirst(s: seq<Row>, t: seq<Row>)
    requires s != [] && Sorted(StrLe, s) && Sorted(StrLe, t) && multiset(s) == multiset(t)
    ensures t != [] && s[0] == t[0]
  {
    hide StrLe, Sorted;
    SameContents(s, t);
    assert s[0] in t && t[0] in s;
    FirstIsLeast(s, t[0]);
    FirstIsLeast(t, s[0]);
    StrLeTotal(s[0], t[0]);
  }

  lemma Tail<T>(s: seq<T>)
    requires s != []
    ensures multiset(s[1..]) == multiset(s) - multiset{s[0]}
  {
    assert s == [s[0]] + s[1..];
  }

  lemma {:induction false} SortedUnique(s: seq<Row>, t: seq<Row>)
    requires Sorted(StrLe, s) && Sorted(StrLe, t) && multiset(s) == multiset(t)
    ensures s == t
  {
    hide StrLe, Sorted;
    SameContents(s, t);
    if s != [] {
      SameFirst(s, t);
      Tail(s);
      Tail(t);
      TailSorted(s);
      TailSorted(t);
      SortedUnique(s[1..], t[1..]);
      assert s == [s[0]] + s[1..] && t == [t[0]] + t[1..];
    }
  }

  /** Two results are one vote exactly when they are the same rows, as many times, in any order. */
  lemma SameVote(a: Table, b: Table)
    requires a.columns > 0 && b.columns > 0
    ensures ResultKey(Some(a)) == ResultKey(Some(b)) <==> multiset(a.rows) == multiset(b.rows)
  {
    hide Sort;
    StringOrder();
    SortSorts(StrLe, a.rows);
    SortSorts(StrLe, b.rows);
    if multiset(a.rows) == multiset(b.rows) { SortedUnique(Sort(StrLe, a.rows), Sort(StrLe, b.rows)); }
  }

  function KeyOf(c: Candidate): Option<seq<Row>> { ResultKey(c.1) }

  function Votes(cands: seq<Candidate>, key: seq<Row>): nat {
    if cands == [] then 0
    else Votes(cands[..|cands| - 1], key) + (if KeyOf(cands[|cands| - 1]) == Some(key) then 1 else 0)
  }

  function Keys(cands: seq<Candidate>): set<seq<Row>> {
    if cands == [] then {}
    else
      var k := KeyOf(cands[|cands| - 1]);
      Keys(cands[..|cands| - 1]) + (if k.Some? then {k.value} else {})
  }

  lemma {:induction false} KeysAreVoted(cands: seq<Candidate>, key: seq<Row>)
    ensures key in Keys(cands) <==> Votes(cands, key) > 0
    ensures key in Keys(cands) <==> exists j :: 0 <= j < |cands| && KeyOf(cands[j]) == Some(key)
  {
    if cands != [] {
      var front := cands[..|cands| - 1];
      KeysAreVoted(front, key);
      if j :| 0 <= j < |front| && KeyOf(front[j]) == Some(key) { assert KeyOf(cands[j]) == Some(key); }
      if j :| 0 <= j < |cands| && KeyOf(cands[j]) == Some(key) && j < |front| { assert KeyOf(front[j]) == Some(key); }
    }
  }

  /** The first candidate of a largest group, ties to the group met first. */
  ghost predicate Wins(cands: seq<Candidate>, w: nat, votes: nat, groups: nat) {
    w < |cands| && KeyOf(cands[w]).Some? && votes == Votes(cands, KeyOf(cands[w]).value) && groups == |Keys(cands)| &&
    (forall k :: k in Keys(cands) ==> Votes(cands, k) <= votes) &&
    (forall j :: 0 <= j < w && KeyOf(cands[j]).Some? ==> Votes(cands, KeyOf(cands[j]).value) < votes)
  }

  /**
    * What the groups dictionary holds after some candidates: each result once, in the order met, the first
    * candidate to return it, and as many members as votes.
    */
  ghost predicate Grouped(cands: seq<Candidate>, order: seq<seq<Row>>, members: map<seq<Row>, seq<Candidate>>,
                          firsts: seq<nat>) {
    |order| == |firsts| && members.Keys == Keys(cands) && |order| == |Keys(cands)| &&
    (forall g :: 0 <= g < |order| ==> InGroup(cands, order[g], members, firsts[g])) &&
    (forall g, h :: 0 <= g < h < |order| ==> firsts[g] < firsts[h]) &&
    (forall j :: 0 <= j < |cands| && KeyOf(cands[j]).Some? ==> Placed(cands, order, firsts, j))
  }

  ghost predicate InGroup(cands: seq<Candidate>, k: seq<Row>, members: map<seq<Row>, seq<Candidate>>, first: nat) {
    first < |cands| && KeyOf(cands[first]) == Some(k) && k in members &&
    |members[k]| == Votes(cands, k) && members[k] != [] && members[k][0] == cands[first]
  }

  ghost predicate Placed(cands: seq<Candidate>, order: seq<seq<Row>>, firsts: seq<nat>, j: nat)
    requires |order| == |firsts| && j < |cands|
  {
    exists g :: 0 <= g < |order| && Some(order[g]) == KeyOf(cands[j]) && firsts[g] <= j
  }

  lemma Snoc(cands: seq<Candidate>, c: Candidate)
    ensures forall k :: Votes(cands + [c], k) == Votes(cands, k) + (if KeyOf(c) == Some(k) then 1 else 0)
    ensures Keys(cands + [c]) == Keys(cands) + (if KeyOf(c).Some? then {KeyOf(c).value} else {})
  {
    assert (cands + [c])[..|cands|] == cands;
  }

  lemma PlacedStays(cands: seq<Candidate>, c: Candidate, order: seq<seq<Row>>, firsts: seq<nat>, more: seq<seq<Row>>,
                    at: seq<nat>, j: nat)
    requires |order| == |firsts| && |more| == |at| && j < |cands| && Placed(cands, order, firsts, j)
    ensures Placed(cands + [c], order + more, firsts + at, j)
  {
    var g :| 0 <= g < |order| && Some(order[g]) == KeyOf(cands[j]) && firsts[g] <= j;
    assert (order + more)[g] == order[g] && (firsts + at)[g] == firsts[g];
  }

  lemma Unkeyed(cands: seq<Candidate>, c: Candidate, order: seq<seq<Row>>, members: map<seq<Row>, seq<Candidate>>,
                firsts: seq<nat>)
    requires Grouped(cands, order, members, firsts) && KeyOf(c).None?
    ensures Grouped(cands + [c], order, members, firsts)
  {
    hide KeyOf, Votes, Keys, Placed;
    Snoc(cands, c);
    var now := cands + [c];
    assert order + [] == order && firsts + [] == firsts;
    forall j | 0 <= j < |now| && KeyOf(now[j]).Some? ensures Placed(now, order, firsts, j) {
      PlacedStays(cands, c, order, firsts, [], [], j);
    }
  }

  lemma PlacedAgain(cands: seq<Candidate>, c: Candidate, order: seq<seq<Row>>, members: map<seq<Row>,
                    seq<Candidate>>, firsts: seq<nat>)
    requires Grouped(cands, order, members, firsts) && KeyOf(c).Some? && KeyOf(c).value in members
    ensures Placed(cands + [c], order, firsts, |cands|)
  {
    hide KeyOf, Votes, Keys, InGroup;
    var k := KeyOf(c).value;
    KeysAreVoted(cands, k);
    var j :| 0 <= j < |cands| && KeyOf(cands[j]) == Some(k);
    assert Placed(cands, order, firsts, j);
  }

  lemma Joins(cands: seq<Candidate>, c: Candidate, order: seq<seq<Row>>, members: map<seq<Row>, seq<Candidate>>,
              firsts: seq<nat>)
    requires Grouped(cands, order, members, firsts) && KeyOf(c).Some? && KeyOf(c).value in members
    ensures var k := KeyOf(c).value; Grouped(cands + [c], order, members[k := members[k] + [c]], firsts)
  {
    hide KeyOf, Votes, Keys, InGroup, Placed;
    Snoc(cands, c);
    var k, now := KeyOf(c).value, cands + [c];
    assert order + [] == order && firsts + [] == firsts;
    PlacedAgain(cands, c, order, members, firsts);
    forall j | 0 <= j < |now| && KeyOf(now[j]).Some? ensures Placed(now, order, firsts, j) {
      if j < |cands| { PlacedStays(cands, c, order, firsts, [], [], j); }
    }
    var after := members[k := members[k] + [c]];
    forall g | 0 <= g < |order| ensures InGroup(now, order[g], after, firsts[g]) {
      StaysInGroup(cands, c, order[g], members, firsts[g]);
    }
    assert after.Keys == Keys(now);
  }

  lemma StaysInGroup(cands: seq<Candidate>, c: Candidate, k: seq<Row>, members: map<seq<Row>, seq<Candidate>>,
                     first: nat)
    requires InGroup(cands, k, members, first) && KeyOf(c).Some? && KeyOf(c).value in members
    ensures InGroup(cands + [c], k, members[KeyOf(c).value := members[KeyOf(c).value] + [c]], first)
  {
    hide KeyOf, Votes;
    Snoc(cands, c);
  }

  lemma Opens(cands: seq<Candidate>, c: Candidate, order: seq<seq<Row>>, members: map<seq<Row>, seq<Candidate>>,
              firsts: seq<nat>)
    requires Grouped(cands, order, members, firsts) && KeyOf(c).Some? && KeyOf(c).value !in members
    ensures var k := KeyOf(c).value; Grouped(cands + [c], order + [k], members[k := [c]], firsts + [|cands|])
  {
    hide KeyOf, Votes, Keys;
    Snoc(cands, c);
    var k, now, last := KeyOf(c).value, cands + [c], [|cands|];
    KeysAreVoted(cands, k);
    forall j | 0 <= j < |now| && KeyOf(now[j]).Some? ensures Placed(now, order + [k], firsts + last, j) {
      if j < |cands| {
        PlacedStays(cands, c, order, firsts, [k], last, j);
      } else {
        assert (order + [k])[|order|] == k && (firsts + last)[|order|] == |cands|;
      }
    }
    var after := members[k := [c]];
    forall g | 0 <= g < |order + [k]| ensures InGroup(now, (order + [k])[g], after, (firsts + last)[g]) {
      if g < |order| { assert InGroup(cands, order[g], members, firsts[g]) && order[g] != k; }
    }
  }

  method Group(cands: seq<Candidate>)
    returns (order: seq<seq<Row>>, members: map<seq<Row>, seq<Candidate>>, ghost firsts: seq<nat>)
    ensures Grouped(cands, order, members, firsts)
  {
    order, members, firsts := [], map[], [];
    var i := 0;
    while i < |cands|
      invariant 0 <= i <= |cands| && Grouped(cands[..i], order, members, firsts)
    {
      hide Grouped, KeyOf;
      assert cands[..i + 1] == cands[..i] + [cands[i]];
      var c := cands[i];
      var key := KeyOf(c);
      if key.None? {
        Unkeyed(cands[..i], c, order, members, firsts);
      } else if key.value in members {
        Joins(cands[..i], c, order, members, firsts);
        members := members[key.value := members[key.value] + [c]];
      } else {
        Opens(cands[..i], c, order, members, firsts);
        order, members, firsts := order + [key.value], members[key.value := [c]], firsts + [i];
      }
      i := i + 1;
    }
    assert cands[..i] == cands;
  }

  /** The query of the first largest group; where nothing ran, the first query, without a result. */
  method Vote(cands: seq<Candidate>) returns (sql: string, table: Option<Table>, votes: nat, groups: nat)
    ensures Keys(cands) == {} ==>
              sql == (if cands == [] then "" else cands[0].0) && table == None &&
              votes == 0 == groups
    ensures Keys(cands) != {} ==> exists w: nat :: Wins(cands, w, votes, groups) && cands[w] == (sql, table)
  {
    var order, members;
    ghost var firsts;
    order, members, firsts := Group(cands);
    if order == [] {
      return if cands == [] then "" else cands[0].0, None, 0, 0;
    }
    hide KeyOf, Votes, Keys, Wins;
    var best := LargestGroup(cands, order, members, firsts);
    LargestWins(cands, order, members, firsts, best);
    assert InGroup(cands, order[best], members, firsts[best]);
    var first := members[order[best]][0];
    sql, table, votes, groups := first.0, first.1, |members[order[best]]|, |order|;
  }

  method LargestGroup(cands: seq<Candidate>, order: seq<seq<Row>>, members: map<seq<Row>, seq<Candidate>>,
                      ghost firsts: seq<nat>)
    returns (best: nat)
    requires Grouped(cands, order, members, firsts) && order != []
    ensures best < |order| && forall h :: 0 <= h < |order| ==> Votes(cands, order[h]) <= Votes(cands, order[best])
    ensures forall h :: 0 <= h < best ==> Votes(cands, order[h]) < Votes(cands, order[best])
  {
    hide KeyOf, Votes, Keys, Placed;
    best := 0;
    var g := 0;
    while g < |order|
      invariant 0 <= g <= |order| && best < |order|
      invariant forall h :: 0 <= h < g ==> Votes(cands, order[h]) <= Votes(cands, order[best])
      invariant forall h :: 0 <= h < best ==> Votes(cands, order[h]) < Votes(cands, order[best])
    {
      assert InGroup(cands, order[g], members, firsts[g]) && InGroup(cands, order[best], members, firsts[best]);
      if |members[order[g]]| > |members[order[best]]| { best := g; }
      g := g + 1;
    }
  }

  /** The group a candidate's vote went to, which the candidate did not open too late for. */
  lemma GroupOf(cands: seq<Candidate>, order: seq<seq<Row>>, members: map<seq<Row>, seq<Candidate>>, firsts: seq<nat>,
                j: nat)
    returns (g: nat)
    requires Grouped(cands, order, members, firsts) && j < |cands| && KeyOf(cands[j]).Some?
    ensures g < |order| == |firsts| && order[g] == KeyOf(cands[j]).value && firsts[g] <= j
    ensures forall h :: 0 <= h < |order| && firsts[g] < firsts[h] ==> g < h
  {
    hide KeyOf, Keys, Votes, InGroup;
    assert Placed(cands, order, firsts, j);
    g :| 0 <= g < |order| && Some(order[g]) == KeyOf(cands[j]) && firsts[g] <= j;
  }

  lemma FirstOf(cands: seq<Candidate>, order: seq<seq<Row>>, members: map<seq<Row>, seq<Candidate>>, firsts: seq<nat>,
                g: nat)
    requires Grouped(cands, order, members, firsts) && g < |order|
    ensures |order| == |firsts| == |Keys(cands)| && firsts[g] < |cands| && KeyOf(cands[firsts[g]]) == Some(order[g])
  {
    hide KeyOf, Keys, Votes, Placed;
    assert InGroup(cands, order[g], members, firsts[g]);
  }

  lemma LargestWins(cands: seq<Candidate>, order: seq<seq<Row>>, members: map<seq<Row>, seq<Candidate>>,
                    firsts: seq<nat>, best: nat)
    requires Grouped(cands, order, members, firsts) && best < |order|
    requires forall h :: 0 <= h < |order| ==> Votes(cands, order[h]) <= Votes(cands, order[best])
    requires forall h :: 0 <= h < best ==> Votes(cands, order[h]) < Votes(cands, order[best])
    ensures best < |firsts| && Wins(cands, firsts[best], Votes(cands, order[best]), |order|)
  {
    hide KeyOf, Votes, Keys, Grouped;
    var top := Votes(cands, order[best]);
    FirstOf(cands, order, members, firsts, best);
    forall k | k in Keys(cands) ensures Votes(cands, k) <= top {
      KeysAreVoted(cands, k);
      var j :| 0 <= j < |cands| && KeyOf(cands[j]) == Some(k);
      var g := GroupOf(cands, order, members, firsts, j);
    }
    forall j | 0 <= j < firsts[best] && KeyOf(cands[j]).Some? ensures Votes(cands, KeyOf(cands[j]).value) < top {
      var g := GroupOf(cands, order, members, firsts, j);
      assert g < best;
    }
  }

  // ----- the winner, as a function of the candidates -----

  /** No two candidates win. */
  lemma OneWinner(cands: seq<Candidate>, w: nat, v: nat, votes: nat, groups: nat, votes': nat, groups': nat)
    requires Wins(cands, w, votes, groups) && Wins(cands, v, votes', groups')
    ensures w == v && votes == votes' && groups == groups'
  {
    hide KeyOf, Votes, Keys;
    KeysAreVoted(cands, KeyOf(cands[w]).value);
    KeysAreVoted(cands, KeyOf(cands[v]).value);
  }

  ghost predicate IsWinner(cands: seq<Candidate>, c: Candidate) {
    if Keys(cands) == {} then c == (if cands == [] then "" else cands[0].0, None)
    else exists w: nat, votes: nat, groups: nat :: Wins(cands, w, votes, groups) && cands[w] == c
  }

  lemma WinnerIsOne(cands: seq<Candidate>, c: Candidate, d: Candidate)
    requires IsWinner(cands, c) && IsWinner(cands, d)
    ensures c == d
  {
    hide Keys, KeyOf, Votes;
    if Keys(cands) != {} {
      var w: nat, votes: nat, groups: nat :| Wins(cands, w, votes, groups) && cands[w] == c;
      var v: nat, votes': nat, groups': nat :| Wins(cands, v, votes', groups') && cands[v] == d;
      hide Wins;
      OneWinner(cands, w, v, votes, groups, votes', groups');
    }
  }

  // ----- the order of the candidates -----

  lemma {:induction false} VotesSplit(a: seq<Candidate>, b: seq<Candidate>, k: seq<Row>)
    ensures Votes(a + b, k) == Votes(a, k) + Votes(b, k)
  {
    if b == [] {
      assert a + b == a;
    } else {
      VotesSplit(a, b[..|b| - 1], k);
      assert (a + b)[..|a + b| - 1] == a + b[..|b| - 1];
    }
  }

  lemma {:induction false} VotesIgnoreOrder(a: seq<Candidate>, b: seq<Candidate>, k: seq<Row>)
    requires multiset(a) == multiset(b)
    ensures Votes(a, k) == Votes(b, k)
    decreases |a|
  {
    hide KeyOf;
    SameContents(a, b);
    if a != [] {
      var front, c := a[..|a| - 1], a[|a| - 1];
      assert c in b;
      var i :| 0 <= i < |b| && b[i] == c;
      Without(a, |a| - 1);
      Without(b, i);
      assert front + a[|a| - 1 + 1..] == front;
      VotesIgnoreOrder(front, b[..i] + b[i + 1..], k);
      VotesWithout(b, i, k);
    }
  }

  lemma VotesWithout(b: seq<Candidate>, i: nat, k: seq<Row>)
    requires i < |b|
    ensures Votes(b, k) == Votes(b[..i] + b[i + 1..], k) + (if KeyOf(b[i]) == Some(k) then 1 else 0)
  {
    hide KeyOf;
    assert b == b[..i] + ([b[i]] + b[i + 1..]) && [] + [b[i]] == [b[i]];
    VotesSplit(b[..i], [b[i]] + b[i + 1..], k);
    VotesSplit([b[i]], b[i + 1..], k);
    VotesSplit(b[..i], b[i + 1..], k);
    Snoc([], b[i]);
  }

  /** However the candidates are ordered, the winning count and the number of groups are the same. */
  lemma VoteIgnoresOrder(a: seq<Candidate>, b: seq<Candidate>, w: nat, votes: nat, groups: nat, w': nat, votes': nat,
                         groups': nat)
    requires multiset(a) == multiset(b) && Wins(a, w, votes, groups) && Wins(b, w', votes', groups')
    ensures votes == votes' && groups == groups'
  {
    hide KeyOf, Votes, Keys;
    forall k ensures Votes(a, k) == Votes(b, k) && (k in Keys(a) <==> k in Keys(b)) {
      VotesIgnoreOrder(a, b, k);
      KeysAreVoted(a, k);
      KeysAreVoted(b, k);
    }
    assert Keys(a) == Keys(b);
    KeysAreVoted(a, KeyOf(a[w]).value);
    KeysAreVoted(b, KeyOf(b[w']).value);
  }

  // ----- the finished candidates, in order -----

  /** How many of the first `i` generations finished. */
  function FinishedBefore(reasons: seq<string>, i: nat): nat
    requires i <= |reasons|
  {
    if i == 0 then 0 else (if reasons[0] != CUT then 1 else 0) + FinishedBefore(reasons[1..], i - 1)
  }

  /** The finished candidates vote in the order they came, each as often as it was generated: a finished one stands
      where those finished before it leave it, and there are no more than those. */
  lemma {:induction false} FinishedInOrder(sqls: seq<string>, reasons: seq<string>, i: nat)
    requires i <= |sqls| && i <= |reasons|
    ensures i == |sqls| || i == |reasons| ==> |Finished(sqls, reasons)| == FinishedBefore(reasons, i)
    ensures i < |sqls| && i < |reasons| && reasons[i] != CUT ==>
              FinishedBefore(reasons, i) < |Finished(sqls, reasons)| &&
              Finished(sqls, reasons)[FinishedBefore(reasons, i)] == sqls[i]
  {
    if i > 0 { FinishedInOrder(sqls[1..], reasons[1..], i - 1); }
  }
}
