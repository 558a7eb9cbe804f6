/** `select_tables`: which tables a space keeps when a schema has more than its cap. */
module TableSelection {
  import opened Graphs
  import opened Ordering

  type Table = string
  type Edges = set<(Table, Table)>

  // ----- the schema's foreign keys -----

  function Nodes(tables: seq<Table>): set<Table> { set t | t in tables }

  /** The keys with both ends among the tables. */
  function Inside(rows: seq<(Table, Table)>, nodes: set<Table>): Edges {
    set e | e in rows && e.0 in nodes && e.1 in nodes
  }

  /** The tables a table is joined to, through any number of keys taken either way. */
  ghost function Component(E: Edges, nodes: set<Table>, t: Table): set<Table> {
    set u | u in nodes && Linked(E, t, u)
  }

  ghost predicate Bounded(E: Edges, nodes: set<Table>) { forall a, b :: (a, b) in E ==> a in nodes && b in nodes }

  ghost predicate Adjacent(adjacency: map<Table, set<Table>>, E: Edges, nodes: set<Table>) {
    adjacency.Keys == nodes &&
    forall a, b :: a in nodes ==> (b in adjacency[a] <==> (a, b) in E + Flip(E))
  }

  method BuildAdjacency(tables: seq<Table>, rows: seq<(Table, Table)>) returns (adjacency: map<Table, set<Table>>)
    ensures Adjacent(adjacency, Inside(rows, Nodes(tables)), Nodes(tables))
  {
    var nodes := Nodes(tables);
    adjacency := map t | t in nodes :: {};
    var i := 0;
    assert Inside(rows[..0], nodes) == {};
    while i < |rows|
      invariant 0 <= i <= |rows| && Adjacent(adjacency, Inside(rows[..i], nodes), nodes) && adjacency.Keys == nodes
    {
      hide Adjacent, Inside;
      var (child, parent) := rows[i];
      OneMoreRow(rows, i, nodes);
      if child in adjacency && parent in adjacency {
        AddKey(adjacency, Inside(rows[..i], nodes), nodes, child, parent);
        adjacency := adjacency[child := adjacency[child] + {parent}];
        adjacency := adjacency[parent := adjacency[parent] + {child}];
      }
      i := i + 1;
    }
    assert rows[..i] == rows;
  }

  lemma AddKey(adjacency: map<Table, set<Table>>, E: Edges, nodes: set<Table>, a: Table, b: Table)
    requires Adjacent(adjacency, E, nodes) && a in adjacency && b in adjacency
    ensures var once := adjacency[a := adjacency[a] + {b}];
            Adjacent(once[b := once[b] + {a}], E + {(a, b)}, nodes)
  {
    FlipAdded(E, a, b);
    var once := adjacency[a := adjacency[a] + {b}];
    var twice := once[b := once[b] + {a}];
    hide Flip;
    forall x, y | x in nodes ensures y in twice[x] <==> (x, y) in (E + {(a, b)}) + Flip(E + {(a, b)}) {
      assert y in adjacency[x] <==> (x, y) in E + Flip(E);
    }
  }

  lemma OneMoreRow(rows: seq<(Table, Table)>, i: nat, nodes: set<Table>)
    requires i < |rows|
    ensures Inside(rows[..i + 1], nodes) ==
            Inside(rows[..i], nodes) + (if rows[i].0 in nodes && rows[i].1 in nodes then {rows[i]} else {})
  {
    assert rows[..i + 1] == rows[..i] + [rows[i]];
  }

  lemma FlipAdded(E: Edges, a: Table, b: Table)
    ensures Flip(E + {(a, b)}) == Flip(E) + {(b, a)}
  {
    assert (a, b) in E + {(a, b)};
    forall e | e in Flip(E) ensures e in Flip(E + {(a, b)}) { assert (e.1, e.0) in E; }
  }

  // ----- one component, by depth-first search -----

  /** A set's members in whatever order they come. */
  method AnyOrder(s: set<Table>) returns (q: seq<Table>)
    ensures forall x :: x in q <==> x in s
  {
    q := [];
    var rest := s;
    while rest != {}
      invariant rest <= s && forall x :: x in q <==> x in s - rest
    {
      var x :| x in rest;
      q := q + [x];
      rest := rest - {x};
    }
  }

  /** What the search has found is joined to its root, and what it has found leads to is found or waiting. */
  ghost predicate Searching(E: Edges, nodes: set<Table>, root: Table, before: set<Table>, seen: set<Table>,
                            component: seq<Table>, stack: seq<Table>)
  {
    seen <= nodes && Distinct(component) &&
    (forall x :: x in seen <==> x in before || x in component) && (forall x :: x in component ==> x !in before) &&
    (forall x :: x in component ==> Linked(E, root, x)) &&
    (forall x :: x in stack ==> x in nodes && Linked(E, root, x)) &&
    (forall a, b :: a in component && (a, b) in E + Flip(E) ==> b in seen || b in stack) &&
    (root in component || root in stack)
  }

  lemma LinkedStep(E: Edges, root: Table, a: Table, b: Table)
    requires Linked(E, root, a) && (a, b) in E + Flip(E)
    ensures Linked(E, root, b)
  {
    Step(E + Flip(E), a, b);
    Through(E + Flip(E), root, a, b);
  }

  lemma Visit(E: Edges, nodes: set<Table>, root: Table, before: set<Table>, seen: set<Table>, component: seq<Table>,
              stack: seq<Table>, node: Table, more: seq<Table>)
    requires Bounded(E, nodes) && Searching(E, nodes, root, before, seen, component, stack + [node]) && node !in seen
    requires forall b :: b in more <==> (node, b) in E + Flip(E) && b !in seen + {node}
    ensures Searching(E, nodes, root, before, seen + {node}, component + [node], stack + more)
  {
    hide Linked;
    assert node in stack + [node];
    forall x | x in stack + more ensures x in nodes && Linked(E, root, x) {
      if x in stack { assert x in stack + [node]; } else { LinkedStep(E, root, node, x); }
    }
    forall a, b | a in component + [node] && (a, b) in E + Flip(E) ensures b in seen + {node} || b in stack + more {
      if a in component { assert b in seen || b in stack + [node]; }
    }
    assert root in component || root in stack + [node];
  }

  lemma Skip(E: Edges, nodes: set<Table>, root: Table, before: set<Table>, seen: set<Table>, component: seq<Table>,
             stack: seq<Table>, node: Table)
    requires Searching(E, nodes, root, before, seen, component, stack + [node]) && node in seen && root !in before
    ensures Searching(E, nodes, root, before, seen, component, stack)
  {
    hide Linked;
    forall x | x in stack ensures x in nodes && Linked(E, root, x) { assert x in stack + [node]; }
    forall a, b | a in component && (a, b) in E + Flip(E) ensures b in seen || b in stack {
      assert b in seen || b in stack + [node];
    }
    assert root in component || root in stack + [node];
  }

  /** A search that has nothing waiting has found its root's component, and all it has seen is closed. */
  lemma Found(E: Edges, nodes: set<Table>, root: Table, before: set<Table>, seen: set<Table>, component: seq<Table>)
    requires Searching(E, nodes, root, before, seen, component, []) && Closed(E + Flip(E), before) && root !in before
    ensures Closed(E + Flip(E), seen) && forall x :: x in component <==> x in Component(E, nodes, root)
  {
    var S := E + Flip(E);
    forall a, b | (a, b) in S && a in seen ensures b in seen {
      if a in component { assert b in seen || b in []; }
    }
    forall x | x in Component(E, nodes, root) ensures x in component {
      StaysInside(S, seen, root, x);
      if x in before {
        LinkedSymmetric(E, root, x);
        StaysInside(S, before, x, root);
      }
    }
  }

  method Explore(adjacency: map<Table, set<Table>>, root: Table, before: set<Table>, ghost E: Edges,
                 ghost nodes: set<Table>)
    returns (component: seq<Table>, seen: set<Table>)
    requires Adjacent(adjacency, E, nodes) && Bounded(E, nodes)
    requires root in nodes && root !in before && before <= nodes && Closed(E + Flip(E), before)
    ensures Distinct(component) && forall x :: x in component <==> x in Component(E, nodes, root)
    ensures seen == before + Component(E, nodes, root) && Closed(E + Flip(E), seen)
  {
    var stack := [root];
    component, seen := [], before;
    Here(E + Flip(E), root);
    while stack != []
      invariant Searching(E, nodes, root, before, seen, component, stack)
      decreases |nodes - seen|, |stack|
    {
      hide Linked, Searching, Closed, Component, Flip, Adjacent;
      var node, waiting := stack[|stack| - 1], stack[..|stack| - 1];
      assert stack == waiting + [node];
      NodeIsIn(adjacency, E, nodes, root, before, seen, component, waiting, node);
      stack := waiting;
      if node in seen {
        Skip(E, nodes, root, before, seen, component, waiting, node);
      } else {
        var next := adjacency[node] - (seen + {node});
        var more := AnyOrder(next);
        Visit(E, nodes, root, before, seen, component, waiting, node, more);
        assert nodes - (seen + {node}) < nodes - seen;
        seen := seen + {node};
        component := component + [node];
        stack := stack + more;
      }
    }
    Found(E, nodes, root, before, seen, component);
    ComponentIsIn(E, nodes, root, before, seen, component);
  }

  lemma ComponentIsIn(E: Edges, nodes: set<Table>, root: Table, before: set<Table>, seen: set<Table>,
                      component: seq<Table>)
    requires Searching(E, nodes, root, before, seen, component, [])
    requires forall x :: x in component <==> x in Component(E, nodes, root)
    ensures Distinct(component) && seen == before + Component(E, nodes, root)
  {}

  lemma NodeIsIn(adjacency: map<Table, set<Table>>, E: Edges, nodes: set<Table>, root: Table, before: set<Table>,
                 seen: set<Table>, component: seq<Table>, stack: seq<Table>, node: Table)
    requires Searching(E, nodes, root, before, seen, component, stack + [node]) && Adjacent(adjacency, E, nodes)
    ensures node in nodes && node in adjacency
    ensures forall b :: b in adjacency[node] <==> (node, b) in E + Flip(E)
  {
    hide Linked;
    assert node in stack + [node];
  }

  // ----- every component, largest first -----

  /** A component as a sorted list. */
  ghost function Listed(E: Edges, nodes: set<Table>, t: Table): (c: seq<Table>)
    ensures Ascending(StrLe, c) && forall x :: x in c <==> x in Component(E, nodes, t)
  {
    StringOrder();
    SortSet(StrLe, Component(E, nodes, t))
  }

  lemma SameComponent(E: Edges, nodes: set<Table>, t: Table, u: Table)
    requires t in nodes && u in Component(E, nodes, t)
    ensures Component(E, nodes, u) == Component(E, nodes, t) && Listed(E, nodes, u) == Listed(E, nodes, t)
  {
    hide Linked;
    LinkedSymmetric(E, t, u);
    forall x | x in Component(E, nodes, t) ensures x in Component(E, nodes, u) { LinkedTrans(E, u, t, x); }
    forall x | x in Component(E, nodes, u) ensures x in Component(E, nodes, t) { LinkedTrans(E, t, u, x); }
  }

  lemma OwnComponent(E: Edges, nodes: set<Table>, t: Table)
    requires t in nodes
    ensures t in Component(E, nodes, t) && t in Listed(E, nodes, t)
  {
    Here(E + Flip(E), t);
  }

  /** A list of some components, each once: those of the tables seen. */
  ghost predicate Components(E: Edges, nodes: set<Table>, seen: set<Table>, cs: seq<seq<Table>>) {
    Distinct(cs) && (forall t :: t in seen ==> Listed(E, nodes, t) in cs) &&
    (forall c :: c in cs ==> exists t :: t in seen && c == Listed(E, nodes, t))
  }

  lemma OneMoreComponent(E: Edges, nodes: set<Table>, seen: set<Table>, cs: seq<seq<Table>>, root: Table)
    requires Components(E, nodes, seen, cs) && seen <= nodes && Closed(E + Flip(E), seen) && root in nodes &&
             root !in seen
    ensures Components(E, nodes, seen + Component(E, nodes, root), cs + [Listed(E, nodes, root)])
  {
    hide Listed, Closed, Linked;
    var more, c := seen + Component(E, nodes, root), Listed(E, nodes, root);
    OwnComponent(E, nodes, root);
    if c in cs {
      var t :| t in seen && c == Listed(E, nodes, t);
      assert root in Component(E, nodes, t) by { OwnList(E, nodes, t, root); }
      Inward(E, nodes, seen, t, root);
    }
    forall t | t in more ensures Listed(E, nodes, t) in cs + [c] {
      if t !in seen { SameComponent(E, nodes, root, t); }
    }
    forall d | d in cs + [c] ensures exists t :: t in more && d == Listed(E, nodes, t) {
      if d in cs {
        var t :| t in seen && d == Listed(E, nodes, t);
      } else {
        assert root in more;
      }
    }
  }

  lemma OwnList(E: Edges, nodes: set<Table>, t: Table, x: Table)
    ensures x in Listed(E, nodes, t) <==> x in Component(E, nodes, t)
  {}

  lemma Inward(E: Edges, nodes: set<Table>, seen: set<Table>, t: Table, x: Table)
    requires Closed(E + Flip(E), seen) && t in seen && x in Component(E, nodes, t)
    ensures x in seen
  {
    StaysInside(E + Flip(E), seen, t, x);
  }

  /** Each component of the schema, once, in the order its first table is met. */
  method FindComponents(tables: seq<Table>, adjacency: map<Table, set<Table>>, ghost E: Edges)
    returns (cs: seq<seq<Table>>)
    requires Adjacent(adjacency, E, Nodes(tables)) && Bounded(E, Nodes(tables))
    ensures Components(E, Nodes(tables), Nodes(tables), cs)
  {
    ghost var nodes := Nodes(tables);
    var seen: set<Table> := {};
    cs := [];
    var i := 0;
    NoComponents(E, nodes);
    hide Adjacent, Bounded, Closed, Component, Components, Distinct, Listed, Flip, Linked, Sort, StrLe;
    while i < |tables|
      invariant 0 <= i <= |tables| && seen <= nodes && Closed(E + Flip(E), seen)
      invariant forall k :: 0 <= k < i ==> tables[k] in seen
      invariant Components(E, nodes, seen, cs)
    {
      var table := tables[i];
      assert table in nodes;
      if table !in seen {
        OneMoreComponent(E, nodes, seen, cs, table);
        var component;
        component, seen := Explore(adjacency, table, seen, E, nodes);
        SortsToList(E, nodes, table, component);
        InNodes(E, nodes, table);
        cs := cs + [Sort(StrLe, component)];
      }
      i := i + 1;
    }
    assert seen == nodes;
  }

  lemma NoComponents(E: Edges, nodes: set<Table>)
    ensures Components(E, nodes, {}, []) && Closed(E + Flip(E), {})
  {}

  lemma InNodes(E: Edges, nodes: set<Table>, t: Table)
    requires t in nodes
    ensures t in Component(E, nodes, t) && Component(E, nodes, t) <= nodes
  {
    OwnComponent(E, nodes, t);
  }

  lemma SortsToList(E: Edges, nodes: set<Table>, t: Table, component: seq<Table>)
    requires Distinct(component) && forall x :: x in component <==> x in Component(E, nodes, t)
    ensures Sort(StrLe, component) == Listed(E, nodes, t)
  {
    hide Component;
    StringOrder();
    SortDistinct(StrLe, component, Component(E, nodes, t));
  }

  function Head(c: seq<Table>): Table { if c == [] then "" else c[0] }

  /** More tables first, and of as many the one whose first table comes first. */
  predicate ComponentLe(a: seq<Table>, b: seq<Table>) { |a| > |b| || (|a| == |b| && StrLe(Head(a), Head(b))) }

  lemma ComponentPreorder()
    ensures Preorder(ComponentLe)
  {
    forall a, b ensures ComponentLe(a, b) || ComponentLe(b, a) { StrLeTotal(Head(a), Head(b)); }
    forall a, b, c | ComponentLe(a, b) && ComponentLe(b, c) ensures ComponentLe(a, c) {
      if |a| == |b| == |c| { StrLeTrans(Head(a), Head(b), Head(c)); }
    }
  }

  lemma SortKeepsComponents(E: Edges, nodes: set<Table>, cs: seq<seq<Table>>)
    requires Components(E, nodes, nodes, cs)
    ensures Components(E, nodes, nodes, Sort(ComponentLe, cs)) && Sorted(ComponentLe, Sort(ComponentLe, cs))
  {
    hide Listed;
    ComponentPreorder();
    SortSorts(ComponentLe, cs);
    DistinctByCount(cs);
    DistinctByCount(Sort(ComponentLe, cs));
  }

  /** The components are taken largest first, and of as many tables the one whose first table comes first. */
  lemma LargestFirst(cs: seq<seq<Table>>, i: nat, j: nat)
    requires i < j < |cs|
    ensures var s := Sort(ComponentLe, cs);
            |s| == |cs| && |s[i]| >= |s[j]| && (|s[i]| == |s[j]| ==> StrLe(Head(s[i]), Head(s[j])))
  {
    hide StrLe;
    ComponentPreorder();
    SortSorts(ComponentLe, cs);
    SortLength(cs);
  }

  lemma SortLength(cs: seq<seq<Table>>)
    ensures |Sort(ComponentLe, cs)| == |cs|
  {
    ComponentPreorder();
    SortSorts(ComponentLe, cs);
    assert |multiset(Sort(ComponentLe, cs))| == |multiset(cs)|;
  }

  // ----- packing -----

  /** What is kept of a list of components, first come first served. */
  function Pack(cs: seq<seq<Table>>, cap: int): seq<Table> {
    if cs == [] then []
    else
      var kept := Pack(cs[..|cs| - 1], cap);
      if |kept| + |cs[|cs| - 1]| <= cap then kept + cs[|cs| - 1] else kept
  }

  method PackAll(cs: seq<seq<Table>>, cap: int) returns (kept: seq<Table>)
    ensures kept == Pack(cs, cap)
  {
    kept := [];
    var i := 0;
    while i < |cs|
      invariant 0 <= i <= |cs| && kept == Pack(cs[..i], cap)
    {
      assert cs[..i + 1][..i] == cs[..i];
      if |kept| + |cs[i]| <= cap { kept := kept + cs[i]; }
      i := i + 1;
    }
    assert cs[..i] == cs;
  }

  /** No table is in two lists, or twice in one. */
  ghost predicate Apart(cs: seq<seq<Table>>) {
    (forall i :: 0 <= i < |cs| ==> Distinct(cs[i])) &&
    (forall i, j, x :: 0 <= i < |cs| && 0 <= j < |cs| && x in cs[i] && x in cs[j] ==> i == j)
  }

  /** The part of the packing a list of components had made before one of them was met. */
  function Before(cs: seq<seq<Table>>, cap: int, j: nat): seq<Table>
    requires j <= |cs|
  {
    Pack(cs[..j], cap)
  }

  lemma PackNext(cs: seq<seq<Table>>, cap: int, j: nat)
    requires j < |cs|
    ensures var p := Before(cs, cap, j);
            Before(cs, cap, j + 1) == if |p| + |cs[j]| <= cap then p + cs[j] else p
  {
    assert cs[..j + 1][..j] == cs[..j];
  }

  ghost predicate Among(cs: seq<seq<Table>>, n: nat, x: Table)
    requires n <= |cs|
  {
    exists k :: 0 <= k < n && x in cs[k]
  }

  lemma {:induction false} PackIsOf(cs: seq<seq<Table>>, cap: int, n: nat)
    requires n <= |cs| && Apart(cs)
    ensures forall x :: x in Before(cs, cap, n) ==> Among(cs, n, x)
    ensures Distinct(Before(cs, cap, n)) && |Before(cs, cap, n)| <= if cap < 0 then 0 else cap
  {
    if n > 0 {
      PackIsOf(cs, cap, n - 1);
      PackNext(cs, cap, n - 1);
      hide Before, Among;
      var p, q := Before(cs, cap, n - 1), Before(cs, cap, n);
      forall x | x in q ensures Among(cs, n, x) { Wider(cs, n, x); }
      assert Distinct(q) by {
        forall i, j | 0 <= i < j < |q| ensures q[i] != q[j] {
          if i < |p| <= j { Wider(cs, n, q[i]); assert q[j] == cs[n - 1][j - |p|] && q[i] in p; }
        }
      }
    }
  }

  lemma Wider(cs: seq<seq<Table>>, n: nat, x: Table)
    requires 0 < n <= |cs|
    ensures Among(cs, n - 1, x) || x in cs[n - 1] <==> Among(cs, n, x)
    ensures Apart(cs) ==> !(Among(cs, n - 1, x) && x in cs[n - 1])
  {}

  /** A component is kept whole, or not at all: it is kept if it fits beside what is kept of those before it. */
  lemma {:induction false} PackFits(cs: seq<seq<Table>>, cap: int, n: nat, k: nat, x: Table)
    requires k < n <= |cs| && Apart(cs) && x in cs[k]
    ensures x in Before(cs, cap, n) <==> |Before(cs, cap, k)| + |cs[k]| <= cap
    decreases n
  {
    hide Before;
    PackNext(cs, cap, n - 1);
    if k == n - 1 {
      PackIsOf(cs, cap, k);
      if x in Before(cs, cap, k) { Wider(cs, n, x); }
    } else {
      PackFits(cs, cap, n - 1, k, x);
    }
  }

  /** Of what is kept in the end, the part from earlier components is what had been kept when this one was met. */
  lemma EarlierPart(cs: seq<seq<Table>>, cap: int, j: nat, x: Table)
    requires j < |cs| && Apart(cs)
    ensures x in Before(cs, cap, j) <==> x in Before(cs, cap, |cs|) && Among(cs, j, x)
  {
    hide Before;
    PackIsOf(cs, cap, j);
    if Among(cs, j, x) {
      var k :| 0 <= k < j && x in cs[k];
      PackFits(cs, cap, j, k, x);
      PackFits(cs, cap, |cs|, k, x);
    }
  }

  // ----- what is selected -----

  /** A component met before another: one with more tables, or as many and an earlier first one. */
  ghost predicate Ahead(E: Edges, nodes: set<Table>, u: Table, t: Table) {
    ComponentLe(Listed(E, nodes, u), Listed(E, nodes, t)) && Listed(E, nodes, u) != Listed(E, nodes, t)
  }

  ghost function KeptAhead(E: Edges, nodes: set<Table>, r: seq<Table>, t: Table): set<Table> {
    set u | u in r && Ahead(E, nodes, u, t)
  }

  /** A table is kept exactly when its whole component fits beside the kept components ahead of it. */
  ghost predicate Selected(E: Edges, nodes: set<Table>, r: seq<Table>, cap: int) {
    (forall t :: t in r ==> t in nodes) &&
    forall t :: t in nodes ==> (t in r <==> |KeptAhead(E, nodes, r, t)| + |Component(E, nodes, t)| <= cap)
  }

  lemma {:induction false} DistinctSize(s: seq<Table>)
    requires Distinct(s)
    ensures |set x | x in s| == |s|
  {
    if s != [] {
      DistinctSize(s[1..]);
      assert (set x | x in s) == {s[0]} + (set x | x in s[1..]);
      assert s[0] !in s[1..];
    }
  }

  lemma ComponentsApart(E: Edges, nodes: set<Table>, cs: seq<seq<Table>>)
    requires Components(E, nodes, nodes, cs)
    ensures Apart(cs)
  {
    forall i, j, x | 0 <= i < |cs| && 0 <= j < |cs| && x in cs[i] && x in cs[j] ensures i == j {
      ListOf(E, nodes, cs, i, x);
      ListOf(E, nodes, cs, j, x);
    }
    forall i | 0 <= i < |cs| ensures Distinct(cs[i]) {
      assert cs[i] in cs;
      var t :| t in nodes && cs[i] == Listed(E, nodes, t);
    }
  }

  lemma ListOf(E: Edges, nodes: set<Table>, cs: seq<seq<Table>>, i: nat, x: Table)
    requires Components(E, nodes, nodes, cs) && i < |cs| && x in cs[i]
    ensures x in nodes && cs[i] == Listed(E, nodes, x)
  {
    assert cs[i] in cs;
    var t :| t in nodes && cs[i] == Listed(E, nodes, t);
    SameComponent(E, nodes, t, x);
  }

  lemma OneWay(cs: seq<seq<Table>>, j: nat, k: nat)
    requires Apart(cs) && j < |cs| && k < |cs| && cs[j] != [] && cs[k] != [] && j != k
    ensures cs[j] != cs[k] && !(ComponentLe(cs[j], cs[k]) && ComponentLe(cs[k], cs[j]))
  {
    StrLeTotal(Head(cs[j]), Head(cs[k]));
    assert cs[j][0] in cs[j] && cs[k][0] in cs[k];
  }

  lemma AheadIsEarlier(E: Edges, nodes: set<Table>, cs: seq<seq<Table>>, k: nat, j: nat, u: Table, t: Table)
    requires Components(E, nodes, nodes, cs) && Sorted(ComponentLe, cs)
    requires k < |cs| && j < |cs| && u in cs[k] && t in cs[j]
    ensures Ahead(E, nodes, u, t) <==> k < j
  {
    ComponentsApart(E, nodes, cs);
    ListOf(E, nodes, cs, k, u);
    ListOf(E, nodes, cs, j, t);
    hide Components, Listed, Apart, ComponentLe;
    assert k < j ==> ComponentLe(cs[k], cs[j]);
    assert j < k ==> ComponentLe(cs[j], cs[k]);
    if j != k { OneWay(cs, j, k); }
  }

  lemma KeptAheadIsBefore(E: Edges, nodes: set<Table>, cs: seq<seq<Table>>, cap: int, j: nat, t: Table)
    requires Components(E, nodes, nodes, cs) && Sorted(ComponentLe, cs) && j < |cs| && t in cs[j]
    ensures KeptAhead(E, nodes, Before(cs, cap, |cs|), t) == set x | x in Before(cs, cap, j)
  {
    hide Components, Sorted, Before, Ahead, Apart;
    ComponentsApart(E, nodes, cs);
    PackIsOf(cs, cap, |cs|);
    forall x ensures x in KeptAhead(E, nodes, Before(cs, cap, |cs|), t) <==> x in Before(cs, cap, j) {
      EarlierPart(cs, cap, j, x);
      if x in Before(cs, cap, |cs|) {
        var k :| 0 <= k < |cs| && x in cs[k];
        AheadIsEarlier(E, nodes, cs, k, j, x, t);
        EarlierAmong(cs, j, k, x);
      }
    }
  }

  lemma EarlierAmong(cs: seq<seq<Table>>, j: nat, k: nat, x: Table)
    requires Apart(cs) && j <= |cs| && k < |cs| && x in cs[k]
    ensures Among(cs, j, x) <==> k < j
  {}

  lemma PackSelects(E: Edges, nodes: set<Table>, cs: seq<seq<Table>>, cap: int)
    requires Components(E, nodes, nodes, cs) && Sorted(ComponentLe, cs)
    ensures Selected(E, nodes, Before(cs, cap, |cs|), cap)
  {
    hide Sorted, Before, Ahead, Apart, KeptAhead, Listed;
    var kept := Before(cs, cap, |cs|);
    ComponentsApart(E, nodes, cs);
    PackIsOf(cs, cap, |cs|);
    forall t | t in kept ensures t in nodes {
      var k :| 0 <= k < |cs| && t in cs[k];
      ListOf(E, nodes, cs, k, t);
    }
    forall t | t in nodes ensures t in kept <==> |KeptAhead(E, nodes, kept, t)| + |Component(E, nodes, t)| <= cap {
      OwnComponent(E, nodes, t);
      var j :| 0 <= j < |cs| && cs[j] == Listed(E, nodes, t);
      KeptAheadIsBefore(E, nodes, cs, cap, j, t);
      PackIsOf(cs, cap, j);
      DistinctSize(Before(cs, cap, j));
      ListSize(E, nodes, t);
      PackFits(cs, cap, |cs|, j, t);
    }
  }

  lemma ListSize(E: Edges, nodes: set<Table>, t: Table)
    ensures |Listed(E, nodes, t)| == |Component(E, nodes, t)|
  {
    var c := Listed(E, nodes, t);
    DistinctSize(c);
    assert (set x | x in c) == Component(E, nodes, t);
  }

  lemma SortedSelection(E: Edges, nodes: set<Table>, kept: seq<Table>, cap: int)
    requires Selected(E, nodes, kept, cap) && Distinct(kept)
    ensures var r := Sort(StrLe, kept); Selected(E, nodes, r, cap) && Ascending(StrLe, r) && |r| == |kept|
  {
    hide Ahead, Component;
    var r := Sort(StrLe, kept);
    StringOrder();
    SortSorts(StrLe, kept);
    DistinctByCount(kept);
    DistinctByCount(r);
    forall t ensures KeptAhead(E, nodes, r, t) == KeptAhead(E, nodes, kept, t) {}
  }

  /** Within the cap all tables are kept; above it, whole components in their order while they fit. */
  method SelectTables(tables: seq<Table>, rows: seq<(Table, Table)>, cap: int) returns (r: seq<Table>)
    ensures |tables| <= cap ==> r == tables
    ensures |tables| > cap ==>
              Ascending(StrLe, r) && |r| <= (if cap < 0 then 0 else cap) &&
              Selected(Inside(rows, Nodes(tables)), Nodes(tables), r, cap)
  {
    if |tables| <= cap { return tables; }
    hide Adjacent, Components, Selected, Ascending, Sort, Pack, Before;
    ghost var nodes := Nodes(tables);
    ghost var E := Inside(rows, nodes);
    var adjacency := BuildAdjacency(tables, rows);
    var found := FindComponents(tables, adjacency, E);
    SortKeepsComponents(E, nodes, found);
    var cs := Sort(ComponentLe, found);
    var kept := PackAll(cs, cap);
    WholeList(cs, cap);
    PackSelects(E, nodes, cs, cap);
    ComponentsApart(E, nodes, cs);
    PackIsOf(cs, cap, |cs|);
    SortedSelection(E, nodes, kept, cap);
    r := Sort(StrLe, kept);
  }

  lemma WholeList(cs: seq<seq<Table>>, cap: int)
    ensures Before(cs, cap, |cs|) == Pack(cs, cap)
  {
    assert cs[..|cs|] == cs;
  }

  /** Both ends of a foreign key are kept, or neither. */
  lemma KeysStayWhole(E: Edges, nodes: set<Table>, r: seq<Table>, cap: int, a: Table, b: Table)
    requires Selected(E, nodes, r, cap) && a in nodes && b in nodes && (a, b) in E
    ensures a in r <==> b in r
  {
    hide Linked;
    OwnComponent(E, nodes, a);
    LinkedStep(E, a, a, b);
    SameComponent(E, nodes, a, b);
    assert KeptAhead(E, nodes, r, a) == KeptAhead(E, nodes, r, b);
  }

  /** Nothing that was dropped fits in the room left. */
  lemma NothingElseFits(E: Edges, nodes: set<Table>, r: seq<Table>, cap: int, t: Table)
    requires Selected(E, nodes, r, cap) && Distinct(r) && t in nodes && t !in r
    ensures |r| + |Component(E, nodes, t)| > cap
  {
    var all := set u | u in r;
    DistinctSize(r);
    FewerAhead(KeptAhead(E, nodes, r, t), all);
  }

  lemma FewerAhead(a: set<Table>, b: set<Table>)
    requires a <= b
    ensures |a| <= |b|
  {
    assert a + (b - a) == b;
  }
}
