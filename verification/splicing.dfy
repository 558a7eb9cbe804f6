/** `splice`: which keys become relationships of a semantic view, and under what names. */
module Splicing {
  import opened Options
  import opened Ordering
  import opened Graphs
  import ColumnTypes

  datatype Key = Key(child: string, childColumn: string, parent: string, parentColumn: string)

  function KeyFields(k: Key): seq<string> { [k.child, k.childColumn, k.parent, k.parentColumn] }

  predicate KeyLe(a: Key, b: Key) { LexLe(KeyFields(a), KeyFields(b)) }

  lemma KeyOrder()
    ensures Order(KeyLe)
  {
    forall a, b | KeyFields(a) == KeyFields(b) ensures a == b {
      assert KeyFields(a)[0] == KeyFields(b)[0] && KeyFields(a)[1] == KeyFields(b)[1];
      assert KeyFields(a)[2] == KeyFields(b)[2] && KeyFields(a)[3] == KeyFields(b)[3];
    }
    OrderByKey(KeyLe, KeyFields);
  }

  function Get(m: map<string, string>, k: string): Option<string> {
    if k in m then Some(m[k]) else None
  }

  // ----- the key each parent declares -----

  /** The columns of `parent` that the keys reference, in order. */
  function Referenced(keys: seq<Key>, parent: string): seq<string> {
    if keys == [] then [] else
      var k := keys[|keys| - 1];
      Referenced(keys[..|keys| - 1], parent) + if k.parent == parent then [k.parentColumn] else []
  }

  /** The first of `columns` other than `c`, or `c` where there is no other. */
  function FirstOther(columns: seq<string>, c: string): (other: string)
    ensures other == c || other in columns
    ensures other == c <==> forall x :: x in columns ==> x == c
  {
    assert columns != [] ==> forall x :: x in columns <==> x == columns[0] || x in columns[1..];
    if columns == [] then c else if columns[0] != c then columns[0] else FirstOther(columns[1..], c)
  }

  /** The key a parent ends up with: the first referenced column, unless that is the declared primary
      key and another column is referenced too, which then takes its place. */
  function ChosenKey(columns: seq<string>, primary: Option<string>): (key: string)
    requires columns != []
  {
    if primary == Some(columns[0]) then FirstOther(columns, columns[0]) else columns[0]
  }

  lemma {:induction false} FirstOtherMore(columns: seq<string>, c: string, x: string)
    ensures FirstOther(columns + [x], c) == if FirstOther(columns, c) != c then FirstOther(columns, c) else x
  {
    if columns == [] {
      assert columns + [x] == [x];
    } else {
      FirstOtherMore(columns[1..], c, x);
      assert (columns + [x])[1..] == columns[1..] + [x];
    }
  }

  ghost function Parents(keys: seq<Key>): set<string> {
    set k | k in keys :: k.parent
  }

  lemma {:induction false} ReferencedSome(keys: seq<Key>, parent: string)
    ensures Referenced(keys, parent) != [] <==> parent in Parents(keys)
    ensures forall c :: c in Referenced(keys, parent) <==>
            exists k :: k in keys && k.parent == parent && k.parentColumn == c
  {
    if keys != [] {
      var front, k := keys[..|keys| - 1], keys[|keys| - 1];
      ReferencedSome(front, parent);
      assert keys == front + [k] && Parents(keys) == Parents(front) + {k.parent};
    }
  }

  ghost predicate Chosen(keys: map<string, string>, ordered: seq<Key>, primary: map<string, string>) {
    && keys.Keys == Parents(ordered)
    && forall p :: p in keys ==>
        Referenced(ordered, p) != [] && keys[p] == ChosenKey(Referenced(ordered, p), Get(primary, p))
  }

  /** The first loop, key by key. */
  method ChooseKeys(ordered: seq<Key>, primary: map<string, string>) returns (keys: map<string, string>)
    ensures Chosen(keys, ordered, primary)
  {
    hide NextKey, ChosenKey, Referenced, Get;
    keys := map[];
    assert Parents([]) == {};
    for i := 0 to |ordered|
      invariant Chosen(keys, ordered[..i], primary)
    {
      ChosenMore(keys, ordered[..i], primary, ordered[i],
                 keys[ordered[i].parent := NextKey(Get(keys, ordered[i].parent),
                                                   Get(primary, ordered[i].parent),
                                                   ordered[i].parentColumn)]);
      assert ordered[..i + 1] == ordered[..i] + [ordered[i]];
      keys := Prefer(keys, primary, ordered[i]);
    }
    assert ordered[..|ordered|] == ordered;
  }

  /** `setdefault` to the declared key, then prefer a column something references. */
  method Prefer(before: map<string, string>, primary: map<string, string>, k: Key) returns (keys: map<string, string>)
    ensures keys == before[k.parent := NextKey(Get(before, k.parent), Get(primary, k.parent), k.parentColumn)]
  {
    keys := before;
    if k.parent !in keys {
      var declared := Get(primary, k.parent);
      keys := keys[k.parent := if declared.Some? && declared.value != "" then declared.value else k.parentColumn];
    }
    if keys[k.parent] != k.parentColumn && Get(primary, k.parent) == Some(keys[k.parent]) {
      keys := keys[k.parent := k.parentColumn];
    }
  }

  /** What the loop body does to one parent's key when `x` is referenced next. */
  function NextKey(key: Option<string>, primary: Option<string>, x: string): string {
    var first := if key.Some? then key.value else if primary.Some? && primary.value != "" then primary.value else x;
    if first != x && primary == Some(first) then x else first
  }

  lemma NextKeyChooses(columns: seq<string>, primary: Option<string>, x: string)
    ensures ChosenKey(columns + [x], primary) ==
            NextKey(if columns == [] then None else Some(ChosenKey(columns, primary)), primary, x)
  {
    if columns != [] {
      FirstOtherMore(columns, columns[0], x);
      assert (columns + [x])[0] == columns[0];
    } else {
      assert columns + [x] == [x];
    }
  }

  lemma ReferencedMore(ordered: seq<Key>, k: Key, p: string)
    ensures k.parent == p ==> Referenced(ordered + [k], p) == Referenced(ordered, p) + [k.parentColumn]
    ensures k.parent != p ==> Referenced(ordered + [k], p) == Referenced(ordered, p)
  {
    var more := ordered + [k];
    assert more[..|more| - 1] == ordered;
  }

  lemma ChosenMore(before: map<string, string>, ordered: seq<Key>, primary: map<string, string>, k: Key,
                   keys: map<string, string>)
    requires Chosen(before, ordered, primary)
    requires keys == before[k.parent := NextKey(Get(before, k.parent), Get(primary, k.parent), k.parentColumn)]
    ensures Chosen(keys, ordered + [k], primary)
  {
    hide Referenced, ChosenKey, NextKey;
    assert Parents(ordered + [k]) == Parents(ordered) + {k.parent};
    ReferencedSome(ordered, k.parent);
    NextKeyChooses(Referenced(ordered, k.parent), Get(primary, k.parent), k.parentColumn);
    forall p | p in keys
      ensures Referenced(ordered + [k], p) != [] && keys[p] == ChosenKey(Referenced(ordered + [k], p), Get(primary, p))
    {
      ReferencedMore(ordered, k, p);
    }
  }

  /** The chosen key is always a column something references. */
  lemma ChosenIsReferenced(keys: map<string, string>, ordered: seq<Key>, primary: map<string, string>, p: string)
    requires Chosen(keys, ordered, primary) && p in keys
    ensures exists k :: k in ordered && k.parent == p && k.parentColumn == keys[p]
  {
    ReferencedSome(ordered, p);
    assert keys[p] in Referenced(ordered, p);
  }

  /** The documented rule, that the first referenced column is the key, holds exactly where the first
      is not the declared primary key or no other column is referenced. */
  lemma FirstIsKeyExactlyWhen(keys: map<string, string>, ordered: seq<Key>, primary: map<string, string>, p: string)
    requires Chosen(keys, ordered, primary) && p in keys
    ensures var columns := Referenced(ordered, p);
            columns != [] &&
            (keys[p] == columns[0] <==>
             !(Get(primary, p) == Some(columns[0]) && exists c :: c in columns && c != columns[0]))
  {}

  /** Where it fails: the declared primary key is referenced first and loses to the second column. */
  lemma {:induction false} DeclaredKeyCanLose()
    ensures var ordered := [Key("C", "X", "P", "A"), Key("C", "Y", "P", "B")];
            Sorted(KeyLe, ordered) && Referenced(ordered, "P") == ["A", "B"] && ChosenKey(["A", "B"], Some("A")) == "B"
  {
    hide Referenced, KeyLe;
    var a, b := Key("C", "X", "P", "A"), Key("C", "Y", "P", "B");
    XBeforeY(a, b);
    ReferencedNone("P");
    ReferencedMore([a], b, "P");
    ReferencedMore([], a, "P");
    assert [] + [a] == [a] && [a] + [b] == [a, b];
    assert [] + ["A"] == ["A"] && ["A"] + ["B"] == ["A", "B"];
    assert ["A", "B"][1..] == ["B"];
    assert FirstOther(["B"], "A") == "B";
  }

  lemma ReferencedNone(p: string)
    ensures Referenced([], p) == []
  {}

  lemma XBeforeY(a: Key, b: Key)
    requires a.child == b.child && a.childColumn == "X" && b.childColumn == "Y"
    ensures KeyLe(a, b)
  {
    var s, t := KeyFields(a), KeyFields(b);
    assert s[0] == t[0] && s[1..][0] == "X" && t[1..][0] == "Y";
    assert "X"[0] == 'X' && "Y"[0] == 'Y' && StrLe("X", "Y");
    assert LexLe(s[1..], t[1..]);
  }

  // ----- the relationships kept -----

  ghost function Edge(k: Key): (string, string) { (k.child, k.parent) }

  ghost function EdgesOf(keys: seq<Key>): set<(string, string)> {
    set k | k in keys :: Edge(k)
  }

  /** Points at the column its parent declares. */
  predicate Declarable(keys: map<string, string>, k: Key) { Get(keys, k.parent) == Some(k.parentColumn) }

  /** Keep each declarable key, in order, unless its parent already leads to its child. */
  ghost function Kept(ordered: seq<Key>, keys: map<string, string>): seq<Key> {
    if ordered == [] then [] else
      var k := ordered[|ordered| - 1];
      var before := Kept(ordered[..|ordered| - 1], keys);
      if Declarable(keys, k) && !Reaches(EdgesOf(before), k.parent, k.child) then before + [k] else before
  }

  lemma KeptMore(ordered: seq<Key>, keys: map<string, string>, k: Key)
    ensures var before := Kept(ordered, keys);
            Kept(ordered + [k], keys) ==
            if Declarable(keys, k) && !Reaches(EdgesOf(before), k.parent, k.child) then before + [k] else before
  {
    var more := ordered + [k];
    assert more[..|more| - 1] == ordered;
  }

  lemma EdgesMore(keys: seq<Key>, k: Key)
    ensures EdgesOf(keys + [k]) == EdgesOf(keys) + {Edge(k)}
  {}

  /** No relationship leads back to its own child, a table referencing itself included. */
  lemma {:induction false} KeptIsAcyclic(ordered: seq<Key>, keys: map<string, string>)
    ensures Acyclic(EdgesOf(Kept(ordered, keys)))
  {
    if ordered != [] {
      var n := |ordered| - 1;
      var before := Kept(ordered[..n], keys);
      KeptIsAcyclic(ordered[..n], keys);
      EdgesMore(before, ordered[n]);
      if Declarable(keys, ordered[n]) && !Reaches(EdgesOf(before), ordered[n].parent, ordered[n].child) {
        AddAcyclic(EdgesOf(before), ordered[n].child, ordered[n].parent);
      }
    }
  }

  lemma {:induction false} KeptGrows(ordered: seq<Key>, keys: map<string, string>, i: nat)
    requires i <= |ordered|
    ensures Kept(ordered[..i], keys) <= Kept(ordered, keys)
  {
    if i < |ordered| {
      var n := |ordered| - 1;
      KeptGrows(ordered[..n], keys, i);
      assert ordered[..n][..i] == ordered[..i];
    } else {
      assert ordered[..i] == ordered;
    }
  }

  /** Nothing that could be added is dropped: a declarable key left out would close a cycle in the
      relationships that are kept. */
  lemma {:induction false} LeftOutClosesACycle(ordered: seq<Key>, keys: map<string, string>, i: nat)
    requires i < |ordered| && Declarable(keys, ordered[i])
    ensures ordered[i] in Kept(ordered, keys) ||
            Reaches(EdgesOf(Kept(ordered, keys)), ordered[i].parent, ordered[i].child)
  {
    var k := ordered[i];
    var before, final := Kept(ordered[..i], keys), Kept(ordered, keys);
    assert ordered[..i + 1] == ordered[..i] + [k];
    KeptMore(ordered[..i], keys, k);
    KeptGrows(ordered, keys, i + 1);
    var after := Kept(ordered[..i + 1], keys);
    assert final[..|after|] == after;
    if Reaches(EdgesOf(before), k.parent, k.child) {
      forall x | x in before ensures x in final { assert x in final[..|after|]; }
      Mono(EdgesOf(before), EdgesOf(final), k.parent, k.child);
    } else {
      assert after[|after| - 1] == k;
    }
  }

  /** Everything kept is one of the keys and targets the column its parent declares. */
  lemma {:induction false} KeptIsDeclarable(ordered: seq<Key>, keys: map<string, string>, k: Key)
    requires k in Kept(ordered, keys)
    ensures k in ordered && Declarable(keys, k)
  {
    var n := |ordered| - 1;
    if k in Kept(ordered[..n], keys) { KeptIsDeclarable(ordered[..n], keys, k); }
  }

  // ----- reaches: the explicit stack -----

  type Links = map<string, set<string>>

  ghost function Pairs(edges: Links): set<(string, string)> {
    set a, b | a in edges && b in edges[a] :: (a, b)
  }

  /** What the search has settled: the goal is not behind it, and what it left marked leads only on. */
  ghost predicate Searching(E: set<(string, string)>, start: string, goal: string, seen: set<string>,
                            stack: seq<string>) {
    && (start in seen || start in stack) && goal !in seen
    && (forall x :: x in stack ==> Reaches(E, start, x))
    && (forall a, b :: (a, b) in E && a in seen ==> b in seen || b in stack)
  }

  lemma SearchStarts(E: set<(string, string)>, start: string, goal: string)
    ensures Searching(E, start, goal, {}, [start])
  {
    Here(E, start);
  }

  lemma SearchOn(E: set<(string, string)>, start: string, goal: string, seen: set<string>, rest: seq<string>,
                 node: string, more: seq<string>)
    requires Searching(E, start, goal, seen, rest + [node]) && node != goal
    requires forall b :: b in more <==> (node, b) in E
    ensures Searching(E, start, goal, seen + {node}, rest + more)
  {
    assert node in rest + [node];
    forall x | x in rest + more ensures Reaches(E, start, x) {
      if x in rest {
        assert x in rest + [node];
      } else {
        Step(E, node, x);
        Through(E, start, node, x);
      }
    }
  }

  lemma SearchSkips(E: set<(string, string)>, start: string, goal: string, seen: set<string>, rest: seq<string>,
                    node: string)
    requires Searching(E, start, goal, seen, rest + [node]) && node in seen
    ensures Searching(E, start, goal, seen, rest)
  {
    forall x | x in rest ensures Reaches(E, start, x) { assert x in rest + [node]; }
  }

  lemma SearchEnds(E: set<(string, string)>, start: string, goal: string, seen: set<string>)
    requires Searching(E, start, goal, seen, [])
    ensures !Reaches(E, start, goal)
  {
    if Reaches(E, start, goal) { StaysInside(E, seen, start, goal); }
  }

  method Successors(edges: Links, node: string) returns (next: seq<string>)
    ensures forall b :: b in next <==> (node, b) in Pairs(edges)
  {
    StringOrder();
    next := if node in edges then SortSet(StrLe, edges[node]) else [];
  }

  /** Whether a path leads from `start` to `goal`. */
  method Leads(edges: Links, start: string, goal: string) returns (found: bool)
    ensures found <==> Reaches(Pairs(edges), start, goal)
  {
    hide Searching, Pairs, Reaches;
    ghost var E := Pairs(edges);
    ghost var universe := {start} + set e | e in E :: e.1;
    var seen: set<string>, stack := {}, [start];
    SearchStarts(E, start, goal);
    while stack != []
      invariant Searching(E, start, goal, seen, stack)
      invariant seen <= universe && forall x :: x in stack ==> x in universe
      decreases universe - seen, |stack|
    {
      var node, rest := stack[|stack| - 1], stack[..|stack| - 1];
      assert rest + [node] == stack;
      if node == goal {
        Found(E, start, goal, seen, rest, node);
        return true;
      }
      if node in seen {
        SearchSkips(E, start, goal, seen, rest, node);
        stack := rest;
      } else {
        var next := Successors(edges, node);
        SearchOn(E, start, goal, seen, rest, node, next);
        forall b | b in next ensures b in universe { assert (node, b) in E; }
        seen, stack := seen + {node}, rest + next;
      }
    }
    SearchEnds(E, start, goal, seen);
    return false;
  }

  lemma Found(E: set<(string, string)>, start: string, goal: string, seen: set<string>, rest: seq<string>, node: string)
    requires Searching(E, start, goal, seen, rest + [node])
    ensures Reaches(E, start, node)
  {
    assert node in rest + [node];
  }

  // ----- fresh names -----

  /** The name tried first, and then with the suffixes 2, 3, ... */
  function Candidate(k: Key, n: nat): string {
    var base := k.child + "_TO_" + k.parent;
    if n == 0 then base else base + "_" + ColumnTypes.ToStr(n + 1)
  }

  lemma CandidatesDiffer(k: Key, m: nat, n: nat)
    requires m < n
    ensures Candidate(k, m) != Candidate(k, n)
  {
    var base := k.child + "_TO_" + k.parent;
    var long := base + "_" + ColumnTypes.ToStr(n + 1);
    assert long[|base| + 1..] == ColumnTypes.ToStr(n + 1);
    if m > 0 && Candidate(k, m) == Candidate(k, n) {
      assert (base + "_" + ColumnTypes.ToStr(m + 1))[|base| + 1..] == ColumnTypes.ToStr(m + 1);
      ColumnTypes.ToStrInjective(m + 1, n + 1);
    }
  }

  /** The first candidate not taken. The loop ends: the ones it passes are all different and all used. */
  method FreshName(used: set<string>, k: Key) returns (name: string, ghost n: nat)
    ensures name == Candidate(k, n) && name !in used
    ensures forall m :: 0 <= m < n ==> Candidate(k, m) in used
  {
    hide Candidate;
    name, n := k.child + "_TO_" + k.parent, 0;
    FirstCandidate(k);
    var suffix := 2;
    ghost var passed: set<string> := {};
    while name in used
      invariant name == Candidate(k, n) && suffix == n + 2
      invariant forall m :: 0 <= m < n ==> Candidate(k, m) in passed
      invariant forall x :: x in passed ==> exists m :: 0 <= m < n && x == Candidate(k, m)
      invariant passed <= used
      decreases used - passed
    {
      if name in passed {
        var m :| 0 <= m < n && name == Candidate(k, m);
        CandidatesDiffer(k, m, n);
      }
      passed := passed + {name};
      n := n + 1;
      name := k.child + "_TO_" + k.parent + "_" + ColumnTypes.ToStr(suffix);
      LaterCandidate(k, n);
      suffix := suffix + 1;
    }
  }

  lemma FirstCandidate(k: Key)
    ensures Candidate(k, 0) == k.child + "_TO_" + k.parent
  {}

  lemma LaterCandidate(k: Key, n: nat)
    requires n > 0
    ensures Candidate(k, n) == k.child + "_TO_" + k.parent + "_" + ColumnTypes.ToStr(n + 1)
  {}

  // ----- splice -----

  datatype Relationship = Relationship(name: string, key: Key)

  ghost function KeysOf(lines: seq<Relationship>): seq<Key> {
    seq(|lines|, i requires 0 <= i < |lines| => lines[i].key)
  }

  ghost function NamesOf(lines: seq<Relationship>): seq<string> {
    seq(|lines|, i requires 0 <= i < |lines| => lines[i].name)
  }

  /** The relationships written into the view, None where there are none to write. */
  method Splice(foreign: seq<Key>, primary: map<string, string>)
    returns (lines: Option<seq<Relationship>>, keys: map<string, string>)
    ensures Chosen(keys, Sort(KeyLe, foreign), primary)
    ensures Sorted(KeyLe, Sort(KeyLe, foreign)) && multiset(Sort(KeyLe, foreign)) == multiset(foreign)
    ensures lines.Some? ==>
              forall i :: 0 <= i < |lines.value| ==>
                lines.value[i].key in foreign && Declarable(keys, lines.value[i].key)
    ensures lines.None? <==> Kept(Sort(KeyLe, foreign), keys) == []
    ensures lines.Some? ==> KeysOf(lines.value) == Kept(Sort(KeyLe, foreign), keys) && Distinct(NamesOf(lines.value))
  {
    hide Kept, Chosen, Declarable, Candidate, Reaches, Pairs, EdgesOf;
    var ordered := Sort(KeyLe, foreign);
    keys := ChooseKeys(ordered, primary);
    var edges: Links, used: set<string>, list: seq<Relationship> := map[], {}, [];
    NothingKept(keys, edges);
    for i := 0 to |ordered|
      invariant KeysOf(list) == Kept(ordered[..i], keys) && Pairs(edges) == EdgesOf(KeysOf(list))
      invariant Distinct(NamesOf(list)) && forall n :: n in NamesOf(list) ==> n in used
    {
      var k := ordered[i];
      KeptMore(ordered[..i], keys, k);
      assert ordered[..i + 1] == ordered[..i] + [k];
      var reached := Leads(edges, k.parent, k.child);
      if Declarable(keys, k) && !reached {
        var name, n := FreshName(used, k);
        LineMore(list, Relationship(name, k), used);
        PairsMore(edges, k);
        EdgesMore(KeysOf(list), k);
        edges := edges[k.child := (if k.child in edges then edges[k.child] else {}) + {k.parent}];
        used, list := used + {name}, list + [Relationship(name, k)];
      }
    }
    assert ordered[..|ordered|] == ordered;
    KeyOrder();
    SortSorts(KeyLe, foreign);
    forall i | 0 <= i < |list| ensures list[i].key in foreign && Declarable(keys, list[i].key) {
      assert KeysOf(list)[i] in Kept(ordered, keys);
      KeptIsDeclarable(ordered, keys, list[i].key);
    }
    lines := if list == [] then None else Some(list);
  }

  lemma NothingKept(keys: map<string, string>, edges: Links)
    requires edges == map[]
    ensures Kept([], keys) == [] && Pairs(edges) == EdgesOf([]) == {}
  {}

  lemma PairsMore(edges: Links, k: Key)
    ensures Pairs(edges[k.child := (if k.child in edges then edges[k.child] else {}) + {k.parent}]) ==
            Pairs(edges) + {Edge(k)}
  {}

  lemma LineMore(lines: seq<Relationship>, line: Relationship, used: set<string>)
    requires Distinct(NamesOf(lines)) && (forall n :: n in NamesOf(lines) ==> n in used) && line.name !in used
    ensures KeysOf(lines + [line]) == KeysOf(lines) + [line.key]
    ensures NamesOf(lines + [line]) == NamesOf(lines) + [line.name]
    ensures Distinct(NamesOf(lines + [line]))
  {
    var before, after := NamesOf(lines), NamesOf(lines + [line]);
    forall i | 0 <= i < |before| ensures before[i] != line.name { assert before[i] in before; }
  }
}
