/** `plan_recasts`: one target type per connected component of foreign-key columns. */
module RecastPlan {
  import opened Characters
  import opened Ordering
  import opened Graphs
  import opened ColumnTypes
  import Components

  datatype Column = Column(table: string, name: string)

  function ColumnKey(c: Column): seq<string> { [c.table, c.name] }

  predicate ColumnLe(a: Column, b: Column) { LexLe(ColumnKey(a), ColumnKey(b)) }

  lemma ColumnOrder()
    ensures Order(ColumnLe)
  {
    forall a, b | ColumnKey(a) == ColumnKey(b) ensures a == b {
      assert ColumnKey(a)[0] == ColumnKey(b)[0] && ColumnKey(a)[1] == ColumnKey(b)[1];
    }
    OrderByKey(ColumnLe, ColumnKey);
  }

  datatype ForeignKey = ForeignKey(table: string, column: string, refTable: string, refColumn: string) {
    function Child(): Column { Column(Upper(table), Upper(column)) }
    function Parent(): Column { Column(Upper(refTable), Upper(refColumn)) }
    function Flipped(): ForeignKey { ForeignKey(refTable, refColumn, table, column) }
  }

  type Types = map<Column, string>
  type Component = map<string, map<string, string>>

  // ----- what the plan is, without the union-find -----

  /** The keys whose two columns the schema has; any other is a stale entry and is skipped. */
  function Known(foreign: seq<ForeignKey>, types: Types): set<(Column, Column)> {
    set k | k in foreign && k.Child() in types && k.Parent() in types :: (k.Child(), k.Parent())
  }

  ghost function Nodes(E: set<(Column, Column)>): set<Column> {
    (set e | e in E :: e.0) + (set e | e in E :: e.1)
  }

  ghost function Class(E: set<(Column, Column)>, a: Column): set<Column> {
    set x | x in Nodes(E) && Linked(E, a, x)
  }

  /** The least member of each class, which is what the class is known by. */
  ghost function Roots(E: set<(Column, Column)>): set<Column> {
    set x | x in Nodes(E) && forall y :: y in Class(E, x) ==> ColumnLe(x, y)
  }

  /** The types of a component's numeric members, in member order. */
  function NumericTypes(members: seq<Column>, types: Types): (ts: seq<string>)
    requires forall m :: m in members ==> m in types
    ensures forall t :: t in ts <==> exists m :: m in members && types[m] == t && Numeric(t)
    ensures ts == [] <==> forall m :: m in members ==> !Numeric(types[m])
  {
    if members == [] then [] else
      var rest := NumericTypes(members[1..], types);
      assert forall m :: m in members <==> m == members[0] || m in members[1..];
      if Numeric(types[members[0]]) then [types[members[0]]] + rest else rest
  }

  function MovingTables(members: seq<Column>, types: Types, target: string): set<string>
    requires forall m :: m in members ==> m in types
  {
    set m | m in members && types[m] != target :: m.table
  }

  function MovingNames(members: seq<Column>, types: Types, target: string, table: string): set<string>
    requires forall m :: m in members ==> m in types
  {
    set m | m in members && m.table == table && types[m] != target :: m.name
  }

  function To(names: set<string>, target: string): map<string, string> {
    map n | n in names :: target
  }

  /** The rewrites of one component: each member not yet at the target, grouped by table. */
  function Moves(members: seq<Column>, types: Types, target: string): Component
    requires forall m :: m in members ==> m in types
  {
    map t | t in MovingTables(members, types, target) :: To(MovingNames(members, types, target, t), target)
  }

  /** Whether the entry recasts `x`. */
  predicate Recasts(entry: Component, x: Column) {
    x.table in entry && x.name in entry[x.table]
  }

  lemma {:induction false} MovesExactly(members: seq<Column>, types: Types, target: string, x: Column)
    requires forall m :: m in members ==> m in types
    ensures Recasts(Moves(members, types, target), x) <==> x in members && types[x] != target
    ensures Recasts(Moves(members, types, target), x) ==> Moves(members, types, target)[x.table][x.name] == target
  {
    if x in members && types[x] != target {
      assert x.table in MovingTables(members, types, target);
      assert x.name in MovingNames(members, types, target, x.table);
    }
    if Recasts(Moves(members, types, target), x) {
      var m :| m in members && m.table == x.table && types[m] != target && m.name == x.name;
      assert m == x;
    }
  }

  function Entry(members: seq<Column>, types: Types): Component
    requires forall m :: m in members ==> m in types
  {
    var numeric := NumericTypes(members, types);
    if numeric == [] then map[] else Moves(members, types, Choose(numeric))
  }

  /** The entry of the component `C`, its members taken in order. */
  function EntryOf(C: set<Column>, types: Types): Component
    requires C <= types.Keys
  {
    ColumnOrder();
    Entry(SortSet(ColumnLe, C), types)
  }

  /** The classes with something to recast, by their roots. */
  ghost function Busy(E: set<(Column, Column)>, types: Types): set<Column>
    requires Nodes(E) <= types.Keys
  {
    set r | r in Roots(E) && EntryOf(Class(E, r), types) != map[]
  }

  ghost function PlanOf(roots: seq<Column>, E: set<(Column, Column)>, types: Types): seq<Component>
    requires Nodes(E) <= types.Keys
  {
    seq(|roots|, i requires 0 <= i < |roots| => EntryOf(Class(E, roots[i]), types))
  }

  lemma KnownColumns(foreign: seq<ForeignKey>, types: Types)
    ensures Nodes(Known(foreign, types)) <= types.Keys
  {}

  /** One entry a component that has anything to recast, in the order of their least members. */
  ghost function Plan(foreign: seq<ForeignKey>, types: Types): seq<Component> {
    ColumnOrder();
    KnownColumns(foreign, types);
    var E := Known(foreign, types);
    PlanOf(SortSet(ColumnLe, Busy(E, types)), E, types)
  }

  // ----- the plan does not depend on how the keys were listed -----

  ghost predicate SameKeys(f: seq<ForeignKey>, g: seq<ForeignKey>) {
    && (forall k :: k in f ==> k in g || k.Flipped() in g)
    && (forall k :: k in g ==> k in f || k.Flipped() in f)
  }

  lemma SameKeysSameEdges(f: seq<ForeignKey>, g: seq<ForeignKey>, types: Types)
    requires SameKeys(f, g)
    ensures var E, F := Known(f, types), Known(g, types); E + Flip(E) == F + Flip(F) && Nodes(E) == Nodes(F)
  {
    SameKeysFewerEdges(f, g, types);
    SameKeysFewerEdges(g, f, types);
  }

  lemma SameKeysFewerEdges(f: seq<ForeignKey>, g: seq<ForeignKey>, types: Types)
    requires SameKeys(f, g)
    ensures var E, F := Known(f, types), Known(g, types); E + Flip(E) <= F + Flip(F) && Nodes(E) <= Nodes(F)
  {
    var E, F := Known(f, types), Known(g, types);
    forall e | e in E ensures e in F || (e.1, e.0) in F {
      var k :| k in f && k.Child() in types && k.Parent() in types && e == (k.Child(), k.Parent());
      if k !in g {
        var h := k.Flipped();
        assert h in g && h.Child() == k.Parent() && h.Parent() == k.Child();
      }
    }
    forall e | e in E + Flip(E) ensures e in F + Flip(F) {
      var d := if e in E then e else (e.1, e.0);
      if d in F { assert (d.1, d.0) in Flip(F); } else { assert (d.1, d.0) in F; assert d in Flip(F); }
    }
    forall x | x in Nodes(E) ensures x in Nodes(F) {
      var e :| e in E && (x == e.0 || x == e.1);
      if e !in F { assert (e.1, e.0) in F; }
    }
  }

  /** Reordering, repeating or flipping the foreign keys leaves the plan as it was. */
  lemma PlanIgnoresOrder(f: seq<ForeignKey>, g: seq<ForeignKey>, types: Types)
    requires SameKeys(f, g)
    ensures Plan(f, types) == Plan(g, types)
  {
    var E, F := Known(f, types), Known(g, types);
    SameKeysSameEdges(f, g, types);
    KnownColumns(f, types);
    KnownColumns(g, types);
    SameEdgesSamePlan(E, F, types);
  }

  lemma SameEdgesSamePlan(E: set<(Column, Column)>, F: set<(Column, Column)>, types: Types)
    requires Nodes(E) == Nodes(F) <= types.Keys && E + Flip(E) == F + Flip(F)
    ensures forall a :: Class(E, a) == Class(F, a)
    ensures Busy(E, types) == Busy(F, types)
    ensures forall roots :: PlanOf(roots, E, types) == PlanOf(roots, F, types)
  {
    forall a ensures Class(E, a) == Class(F, a) {}
    assert Roots(E) == Roots(F);
    forall roots ensures PlanOf(roots, E, types) == PlanOf(roots, F, types) {}
  }

  // ----- classes -----

  lemma InOwnClass(E: set<(Column, Column)>, x: Column)
    requires x in Nodes(E)
    ensures x in Class(E, x)
  {
    Here(E + Flip(E), x);
  }

  lemma SameClass(E: set<(Column, Column)>, a: Column, b: Column)
    requires Linked(E, a, b)
    ensures Class(E, a) == Class(E, b)
  {
    LinkedSymmetric(E, a, b);
    forall x | x in Nodes(E) ensures Linked(E, a, x) <==> Linked(E, b, x) {
      if Linked(E, a, x) { LinkedTrans(E, b, a, x); }
      if Linked(E, b, x) { LinkedTrans(E, a, b, x); }
    }
  }

  lemma EndsLinked(E: set<(Column, Column)>, e: (Column, Column))
    requires e in E
    ensures Linked(E, e.0, e.1) && e.0 in Nodes(E) && e.1 in Nodes(E)
  {
    Step(E + Flip(E), e.0, e.1);
  }

  /** Every node is in the class of exactly one root. */
  lemma RootOf(E: set<(Column, Column)>, x: Column) returns (r: Column)
    requires x in Nodes(E)
    ensures r in Roots(E) && Linked(E, r, x) && Class(E, r) == Class(E, x)
  {
    ColumnOrder();
    InOwnClass(E, x);
    LeastExists(ColumnLe, Class(E, x));
    r :| Least(ColumnLe, Class(E, x), r);
    SameClass(E, x, r);
    LinkedSymmetric(E, x, r);
  }

  lemma OneRoot(E: set<(Column, Column)>, r: Column, s: Column)
    requires r in Roots(E) && s in Roots(E) && Linked(E, r, s)
    ensures r == s
  {
    ColumnOrder();
    LinkedSymmetric(E, r, s);
    assert s in Class(E, r) && r in Class(E, s);
    Antisym(ColumnLe, r, s);
  }

  // ----- names in any case -----

  /** The letter is the upper-case one, or its lower-case form. */
  predicate Spells(c: char, upper: char) { c == upper || ('A' <= upper <= 'Z' && c as int == upper as int + 32) }

  /** An upper-case name, spelled in any case. */
  predicate InAnyCase(name: string, stored: string) {
    |name| == |stored| && forall i :: 0 <= i < |stored| ==> Spells(name[i], stored[i]) && !('a' <= stored[i] <= 'z')
  }

  lemma UpperSpells(name: string, stored: string)
    requires InAnyCase(name, stored)
    ensures Upper(name) == stored
  {}

  /** A key finds the columns it names whatever case it names them in. */
  lemma KnownInAnyCase(foreign: seq<ForeignKey>, types: Types, k: ForeignKey, child: Column, parent: Column)
    requires k in foreign && child in types && parent in types
    requires InAnyCase(k.table, child.table) && InAnyCase(k.column, child.name)
    requires InAnyCase(k.refTable, parent.table) && InAnyCase(k.refColumn, parent.name)
    ensures (child, parent) in Known(foreign, types)
  {
    UpperSpells(k.table, child.table);
    UpperSpells(k.column, child.name);
    UpperSpells(k.refTable, parent.table);
    UpperSpells(k.refColumn, parent.name);
  }
}
