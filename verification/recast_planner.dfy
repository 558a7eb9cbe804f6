/** `plan_recasts` as it runs: union the known keys, collect the classes, choose and list the moves. */
module RecastPlanner {
  import opened Ordering
  import opened Graphs
  import opened ColumnTypes
  import opened RecastPlan
  import opened Components

  // ----- what the union-find has established -----

  /** The forest's keys are the columns of `E`, and two of them end together exactly when linked. */
  ghost predicate Represents(root: map<Column, Column>, E: set<(Column, Column)>) {
    && Forest(ColumnLe, root) && root.Keys == Nodes(E)
    && forall a, b {:trigger Rep(ColumnLe, root, a), Rep(ColumnLe, root, b)} :: a in root && b in root ==>
         (Rep(ColumnLe, root, a) == Rep(ColumnLe, root, b) <==> Linked(E, a, b))
  }

  lemma LoneNode(E: set<(Column, Column)>, a: Column, b: Column)
    requires Linked(E, a, b) && a != b
    ensures a in Nodes(E) && b in Nodes(E)
  {
    var c := FirstStep(E + Flip(E), a, b);
    var d := LastStep(E + Flip(E), a, b);
  }

  lemma NodesAfterAdding(E: set<(Column, Column)>, u: Column, v: Column)
    ensures Nodes(E + {(u, v)}) == Nodes(E) + {u, v}
  {
    var F := E + {(u, v)};
    assert (u, v) in F;
    forall x | x in Nodes(E) ensures x in Nodes(F) {
      var e :| e in E && (x == e.0 || x == e.1);
      assert e in F;
    }
  }

  /** Two ends meet exactly where the columns are linked, seen or not. */
  lemma EndsMeet(root: map<Column, Column>, E: set<(Column, Column)>, a: Column, b: Column)
    requires Represents(root, E)
    ensures End(ColumnLe, root, a) == End(ColumnLe, root, b) <==> Linked(E, a, b)
  {
    Here(E + Flip(E), a);
    if a != b && Linked(E, a, b) { LoneNode(E, a, b); }
  }

  lemma JoinRepresents(root: map<Column, Column>, E: set<(Column, Column)>, u: Column, v: Column,
                       next: map<Column, Column>)
    requires Represents(root, E) && Forest(ColumnLe, next) && next.Keys == root.Keys + {u, v}
    requires Joined(ColumnLe, root, End(ColumnLe, root, u), End(ColumnLe, root, v), next)
    ensures Represents(next, E + {(u, v)})
  {
    NodesAfterAdding(E, u, v);
    forall a, b | a in next && b in next
      ensures Rep(ColumnLe, next, a) == Rep(ColumnLe, next, b) <==> Linked(E + {(u, v)}, a, b)
    {
      LinkedAfterAdding(E, u, v, a, b);
      EndsMeet(root, E, a, b);
      EndsMeet(root, E, a, u);
      EndsMeet(root, E, a, v);
      EndsMeet(root, E, u, b);
      EndsMeet(root, E, v, b);
    }
  }

  lemma SameEndsRepresents(root: map<Column, Column>, E: set<(Column, Column)>, next: map<Column, Column>)
    requires Represents(root, E) && Forest(ColumnLe, next) && next.Keys == root.Keys && SameEnds(ColumnLe, root, next)
    ensures Represents(next, E)
  {}

  /** An end is the least column of its class. */
  lemma RepIsRoot(root: map<Column, Column>, E: set<(Column, Column)>, x: Column)
    requires Represents(root, E) && x in root
    ensures var r := Rep(ColumnLe, root, x);
            r in Roots(E) && Linked(E, r, x) && r in root && Rep(ColumnLe, root, r) == r
  {
    var r := Rep(ColumnLe, root, x);
    assert Rep(ColumnLe, root, r) == r;
    forall y | y in Class(E, r) ensures ColumnLe(r, y) {
      assert Rep(ColumnLe, root, y) == Rep(ColumnLe, root, r);
    }
  }

  // ----- the three loops -----

  lemma KnownStep(foreign: seq<ForeignKey>, types: Types, n: nat)
    requires n < |foreign|
    ensures var k := foreign[n];
            Known(foreign[..n + 1], types) ==
            Known(foreign[..n], types) +
            if k.Child() in types && k.Parent() in types then {(k.Child(), k.Parent())} else {}
  {
    assert foreign[..n + 1] == foreign[..n] + [foreign[n]];
  }

  method Unite(uf: UnionFind<Column>, ghost E: set<(Column, Column)>, child: Column, parent: Column)
    requires uf.le == ColumnLe && Represents(uf.root, E)
    modifies uf
    ensures Represents(uf.root, E + {(child, parent)})
  {
    uf.Union(child, parent);
    JoinRepresents(old(uf.root), E, child, parent, uf.root);
  }

  method UniteKeys(foreign: seq<ForeignKey>, types: Types) returns (uf: UnionFind<Column>)
    ensures fresh(uf) && uf.le == ColumnLe && Represents(uf.root, Known(foreign, types))
  {
    ColumnOrder();
    uf := new UnionFind(ColumnLe);
    ghost var E: set<(Column, Column)> := {};
    for n := 0 to |foreign|
      invariant fresh(uf) && uf.le == ColumnLe && E == Known(foreign[..n], types) && Represents(uf.root, E)
    {
      var child, parent := foreign[n].Child(), foreign[n].Parent();
      KnownStep(foreign, types, n);
      if child in types && parent in types {
        Unite(uf, E, child, parent);
        E := E + {(child, parent)};
      }
    }
    assert foreign[..|foreign|] == foreign;
  }

  ghost predicate Somewhere(components: map<Column, seq<Column>>, x: Column) {
    exists r :: r in components && x in components[r]
  }

  /** What the listing loop has collected once the keys in `done` are listed. */
  ghost predicate Listed(components: map<Column, seq<Column>>, done: set<Column>, E: set<(Column, Column)>) {
    && (forall r :: r in components ==> r in Roots(E) && Distinct(components[r]))
    && (forall r, x :: r in components && x in components[r] ==> x in done && Linked(E, r, x))
    && (forall x {:trigger Somewhere(components, x)} :: x in done ==> Somewhere(components, x))
  }

  lemma ListOne(components: map<Column, seq<Column>>, done: set<Column>, E: set<(Column, Column)>, r: Column,
                key: Column, next: map<Column, seq<Column>>)
    requires Listed(components, done, E) && key !in done && r in Roots(E) && Linked(E, r, key)
    requires next == components[r := (if r in components then components[r] else []) + [key]]
    ensures Listed(next, done + {key}, E)
  {
    forall x | x in done + {key} ensures Somewhere(next, x) {
      if x == key {
        assert r in next && x in next[r];
      } else {
        assert Somewhere(components, x);
        var s :| s in components && x in components[s];
        assert s in next && x in next[s];
      }
    }
    if r in components { assert key !in components[r]; }
  }

  lemma AllListed(components: map<Column, seq<Column>>, E: set<(Column, Column)>)
    requires Listed(components, Nodes(E), E)
    ensures components.Keys == Roots(E)
    ensures forall r :: r in components ==> forall x :: x in components[r] <==> x in Class(E, r)
  {
    forall r | r in Roots(E) ensures r in components {
      assert Somewhere(components, r);
      var s :| s in components && r in components[s];
      OneRoot(E, s, r);
    }
    forall r, x | r in components && x in Class(E, r) ensures x in components[r] {
      assert Somewhere(components, x);
      var s :| s in components && x in components[s];
      LinkedSymmetric(E, s, x);
      LinkedTrans(E, r, x, s);
      OneRoot(E, r, s);
    }
  }

  /** `components`: the keys of the forest, listed under the root each search ends at. */
  method Collect(uf: UnionFind<Column>, ghost E: set<(Column, Column)>) returns (components: map<Column, seq<Column>>)
    requires uf.le == ColumnLe && Represents(uf.root, E)
    modifies uf
    ensures components.Keys == Roots(E)
    ensures forall r :: r in components ==> Distinct(components[r])
    ensures forall r :: r in components ==> forall x :: x in components[r] <==> x in Class(E, r)
  {
    components := map[];
    var pending := uf.root.Keys;
    ghost var done: set<Column> := {};
    while pending != {}
      invariant Represents(uf.root, E) && pending + done == Nodes(E) && pending !! done
      invariant Listed(components, done, E)
      decreases pending
    {
      var key :| key in pending;
      var r := FindRoot(uf, E, key);
      var next := components[r := (if r in components then components[r] else []) + [key]];
      ListOne(components, done, E, r, key, next);
      components := next;
      pending, done := pending - {key}, done + {key};
    }
    assert done == Nodes(E);
    AllListed(components, E);
  }

  method FindRoot(uf: UnionFind<Column>, ghost E: set<(Column, Column)>, key: Column) returns (r: Column)
    requires uf.le == ColumnLe && Represents(uf.root, E) && key in Nodes(E)
    modifies uf
    ensures Represents(uf.root, E) && r in Roots(E) && Linked(E, r, key)
  {
    r := uf.Find(key);
    SameEndsRepresents(old(uf.root), E, uf.root);
    RepIsRoot(uf.root, E, key);
  }

  lemma TablesStep(a: seq<Column>, m: Column, types: Types, target: string)
    requires forall x :: x in a + [m] ==> x in types
    requires forall x :: x in a ==> x in types
    ensures types[m] == target ==> MovingTables(a + [m], types, target) == MovingTables(a, types, target)
    ensures types[m] != target ==> MovingTables(a + [m], types, target) == MovingTables(a, types, target) + {m.table}
  {}

  lemma NamesStep(a: seq<Column>, m: Column, types: Types, target: string, t: string)
    requires forall x :: x in a + [m] ==> x in types
    requires forall x :: x in a ==> x in types
    ensures MovingNames(a + [m], types, target, t) ==
            MovingNames(a, types, target, t) + if types[m] != target && t == m.table then {m.name} else {}
    ensures types[m] == target || t != m.table ==>
            MovingNames(a + [m], types, target, t) == MovingNames(a, types, target, t)
  {}

  lemma NoNames(a: seq<Column>, types: Types, target: string, t: string)
    requires forall x :: x in a ==> x in types
    requires t !in MovingTables(a, types, target)
    ensures MovingNames(a, types, target, t) == {}
  {}

  lemma ToMore(names: set<string>, name: string, target: string)
    ensures To(names + {name}, target) == To(names, target)[name := target]
    ensures To({}, target) == map[]
  {}

  lemma MovesStep(a: seq<Column>, m: Column, types: Types, target: string)
    requires forall x :: x in a + [m] ==> x in types
    requires forall x :: x in a ==> x in types
    ensures var before := Moves(a, types, target);
            Moves(a + [m], types, target) ==
            if types[m] == target then before
            else before[m.table := (if m.table in before then before[m.table] else map[])[m.name := target]]
  {
    hide MovingTables, MovingNames, To;
    var before, after := Moves(a, types, target), Moves(a + [m], types, target);
    TablesStep(a, m, types, target);
    forall t | t in before && (types[m] == target || t != m.table) ensures after[t] == before[t] {
      NamesStep(a, m, types, target, t);
    }
    if types[m] != target {
      NamesStep(a, m, types, target, m.table);
      var names := MovingNames(a, types, target, m.table);
      if m.table !in before { NoNames(a, types, target, m.table); }
      ToMore(names, m.name, target);
    }
  }

  /** The moves of one component, `setdefault` by `setdefault`. */
  method ListMoves(members: seq<Column>, types: Types, target: string) returns (moves: Component)
    requires forall m :: m in members ==> m in types
    ensures moves == Moves(members, types, target)
  {
    moves := map[];
    for n := 0 to |members|
      invariant moves == Moves(members[..n], types, target)
    {
      var m := members[n];
      assert members[..n + 1] == members[..n] + [m];
      MovesStep(members[..n], m, types, target);
      if types[m] != target {
        moves := moves[m.table := (if m.table in moves then moves[m.table] else map[])[m.name := target]];
      }
    }
    assert members[..|members|] == members;
  }

  method BuildEntry(members: seq<Column>, types: Types) returns (moves: Component)
    requires forall m :: m in members ==> m in types
    ensures moves == Entry(members, types)
  {
    RankOrder();
    var offered := NumericTypes(members, types);
    SortSorts(RankLe, offered);
    var numeric := Sort(RankLe, offered);
    if numeric == [] {
      return map[];
    }
    moves := ListMoves(members, types, numeric[0]);
  }

  /** `picked` is the members of `roots` that are in `B`, in order. */
  ghost predicate Picks(picked: seq<Column>, roots: seq<Column>, B: set<Column>) {
    Ascending(ColumnLe, picked) && forall r :: r in picked <==> r in roots && r in B
  }

  lemma PickNext(picked: seq<Column>, roots: seq<Column>, n: nat, B: set<Column>)
    requires n < |roots| && Ascending(ColumnLe, roots) && Picks(picked, roots[..n], B)
    ensures Picks(if roots[n] in B then picked + [roots[n]] else picked, roots[..n + 1], B)
  {
    assert roots[..n + 1] == roots[..n] + [roots[n]];
    forall i | 0 <= i < |picked| ensures ColumnLe(picked[i], roots[n]) && picked[i] != roots[n] {
      assert picked[i] in roots[..n];
    }
    var next := picked + [roots[n]];
    assert forall x :: x in next <==> x in picked || x == roots[n];
  }

  lemma PlanOfNext(roots: seq<Column>, r: Column, E: set<(Column, Column)>, types: Types)
    requires Nodes(E) <= types.Keys
    ensures PlanOf(roots + [r], E, types) == PlanOf(roots, E, types) + [EntryOf(Class(E, r), types)]
  {}

  method BuildFor(listed: seq<Column>, types: Types, ghost C: set<Column>) returns (moves: Component)
    requires C <= types.Keys && Distinct(listed) && forall x :: x in listed <==> x in C
    ensures moves == EntryOf(C, types)
  {
    ColumnOrder();
    SortDistinct(ColumnLe, listed, C);
    moves := BuildEntry(Sort(ColumnLe, listed), types);
  }

  /** The entry of each class in root order, leaving out those with nothing to recast. */
  method ListEntries(components: map<Column, seq<Column>>, types: Types, ghost E: set<(Column, Column)>)
    returns (plan: seq<Component>, ghost busy: seq<Column>)
    requires Nodes(E) <= types.Keys && components.Keys == Roots(E)
    requires forall r :: r in components ==> Distinct(components[r])
    requires forall r :: r in components ==> forall x :: x in components[r] <==> x in Class(E, r)
    ensures Picks(busy, SortedRoots(E), Busy(E, types)) && plan == PlanOf(busy, E, types)
  {
    ColumnOrder();
    var roots := SortSet(ColumnLe, components.Keys);
    plan, busy := [], [];
    for n := 0 to |roots|
      invariant Picks(busy, roots[..n], Busy(E, types)) && plan == PlanOf(busy, E, types)
    {
      var r := roots[n];
      assert r in roots;
      var moves := BuildFor(components[r], types, Class(E, r));
      PickNext(busy, roots, n, Busy(E, types));
      PlanOfNext(busy, r, E, types);
      if moves != map[] {
        plan, busy := plan + [moves], busy + [r];
      }
    }
    assert roots[..|roots|] == roots;
  }

  ghost function SortedRoots(E: set<(Column, Column)>): seq<Column> {
    ColumnOrder();
    SortSet(ColumnLe, Roots(E))
  }

  /** The whole plan, found by the union-find and stated without it. */
  method PlanRecasts(foreign: seq<ForeignKey>, types: Types) returns (plan: seq<Component>)
    ensures plan == Plan(foreign, types)
  {
    ghost var E := Known(foreign, types);
    KnownColumns(foreign, types);
    ColumnOrder();
    var uf := UniteKeys(foreign, types);
    var components := Collect(uf, E);
    ghost var busy;
    plan, busy := ListEntries(components, types, E);
    AscendingUnique(ColumnLe, busy, SortSet(ColumnLe, Busy(E, types)));
  }
}
