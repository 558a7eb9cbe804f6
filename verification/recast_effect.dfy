/** What carrying out a recast plan does to the column types, wholly or in part. */
module RecastEffect {
  import opened Ordering
  import opened Graphs
  import opened ColumnTypes
  import opened RecastPlan

  /** The column types once the tables in `written` have been recreated with the entry's casts. */
  function Rewrite(types: Types, entry: Component, written: set<string>): (next: Types)
    ensures next.Keys == types.Keys
  {
    map x | x in types :: if x.table in written && Recasts(entry, x) then entry[x.table][x.name] else types[x]
  }

  /** The types after a run that wrote the tables `written[i]` of each planned component. */
  function Replay(types: Types, plan: seq<Component>, written: seq<set<string>>): (next: Types)
    requires |plan| == |written|
    ensures next.Keys == types.Keys
    decreases |plan|
  {
    if plan == [] then types else
      var n := |plan| - 1;
      Rewrite(Replay(types, plan[..n], written[..n]), plan[n], written[n])
  }

  /** Every planned component wholly rewritten. */
  function Everything(plan: seq<Component>): seq<set<string>> {
    seq(|plan|, i requires 0 <= i < |plan| => plan[i].Keys)
  }

  // ----- one component -----

  predicate HasNumeric(C: set<Column>, types: Types)
    requires C <= types.Keys
  {
    exists m :: m in C && Numeric(types[m])
  }

  /** The type a component with a numeric member is brought to: the least of them by rank. */
  function Target(C: set<Column>, types: Types): (t: string)
    requires C <= types.Keys && HasNumeric(C, types)
    ensures Numeric(t) && exists m :: m in C && types[m] == t
    ensures forall m :: m in C && Numeric(types[m]) ==> RankLe(t, types[m])
  {
    ColumnOrder();
    var ts := NumericTypes(SortSet(ColumnLe, C), types);
    var m :| m in C && Numeric(types[m]);
    assert types[m] in ts;
    Choose(ts)
  }

  /** The entry recasts exactly the members that are not at the target, and to the target. */
  lemma {:induction false} EntryExactly(C: set<Column>, types: Types, x: Column)
    requires C <= types.Keys
    ensures Recasts(EntryOf(C, types), x) <==> x in C && HasNumeric(C, types) && types[x] != Target(C, types)
    ensures Recasts(EntryOf(C, types), x) ==> EntryOf(C, types)[x.table][x.name] == Target(C, types)
  {
    ColumnOrder();
    var members := SortSet(ColumnLe, C);
    if HasNumeric(C, types) {
      var m :| m in C && Numeric(types[m]);
      assert types[m] in NumericTypes(members, types);
      MovesExactly(members, types, Target(C, types), x);
    }
  }

  lemma EmptyEntry(C: set<Column>, types: Types)
    requires C <= types.Keys
    ensures EntryOf(C, types) == map[] <==> forall x :: x in C ==> !Recasts(EntryOf(C, types), x)
  {
    var entry := EntryOf(C, types);
    if entry != map[] {
      ColumnOrder();
      var members := SortSet(ColumnLe, C);
      var t :| t in entry;
      var m :| m in members && m.table == t && types[m] != Choose(NumericTypes(members, types));
      MovesExactly(members, types, Choose(NumericTypes(members, types)), m);
    }
  }

  // ----- the components behind a plan -----

  /** The plan's entries are those of disjoint sets of known columns. */
  ghost predicate Laid(plan: seq<Component>, cs: seq<set<Column>>, types: Types) {
    && |plan| == |cs|
    && (forall i :: 0 <= i < |cs| ==> cs[i] <= types.Keys)
    && (forall i :: 0 <= i < |cs| ==> plan[i] == EntryOf(cs[i], types))
    && (forall i, j :: 0 <= i < j < |cs| ==> cs[i] !! cs[j])
  }

  lemma RootsApart(E: set<(Column, Column)>, r: Column, s: Column)
    requires r in Roots(E) && s in Roots(E) && r != s
    ensures Class(E, r) !! Class(E, s)
  {
    forall x | x in Class(E, r) ensures x !in Class(E, s) {
      if x in Class(E, s) {
        LinkedSymmetric(E, s, x);
        LinkedTrans(E, r, x, s);
        OneRoot(E, r, s);
      }
    }
  }

  ghost function Behind(E: set<(Column, Column)>, types: Types): seq<set<Column>>
    requires Nodes(E) <= types.Keys
  {
    ColumnOrder();
    var roots := SortSet(ColumnLe, Busy(E, types));
    seq(|roots|, i requires 0 <= i < |roots| => Class(E, roots[i]))
  }

  lemma ClassKnown(E: set<(Column, Column)>, r: Column)
    ensures Class(E, r) <= Nodes(E)
  {}

  lemma BehindApart(E: set<(Column, Column)>, types: Types, i: nat, j: nat)
    requires Nodes(E) <= types.Keys && i < j < |Behind(E, types)|
    ensures Behind(E, types)[i] !! Behind(E, types)[j]
  {
    ColumnOrder();
    var roots := SortSet(ColumnLe, Busy(E, types));
    assert roots[i] in roots && roots[j] in roots;
    RootsApart(E, roots[i], roots[j]);
  }

  lemma PlanIsLaid(foreign: seq<ForeignKey>, types: Types)
    ensures Nodes(Known(foreign, types)) <= types.Keys
    ensures Laid(Plan(foreign, types), Behind(Known(foreign, types), types), types)
  {
    hide EntryOf, Class, Busy, Known;
    var E := Known(foreign, types);
    KnownColumns(foreign, types);
    forall r ensures Class(E, r) <= Nodes(E) { ClassKnown(E, r); }
    forall i, j | 0 <= i < j < |Behind(E, types)| ensures Behind(E, types)[i] !! Behind(E, types)[j] {
      BehindApart(E, types, i, j);
    }
    assert |Plan(foreign, types)| == |Behind(E, types)|;
  }

  /** A class is behind the plan unless it has nothing to recast; the two ends of a key share one. */
  lemma ClassBehind(E: set<(Column, Column)>, types: Types, x: Column)
    requires Nodes(E) <= types.Keys && x in Nodes(E)
    ensures x in Class(E, x)
    ensures Class(E, x) in Behind(E, types) || EntryOf(Class(E, x), types) == map[]
  {
    ColumnOrder();
    InOwnClass(E, x);
    var r := RootOf(E, x);
    if EntryOf(Class(E, x), types) != map[] {
      var roots := SortSet(ColumnLe, Busy(E, types));
      assert r in Busy(E, types);
      var i :| 0 <= i < |roots| && roots[i] == r;
      assert Behind(E, types)[i] == Class(E, x);
    }
  }

  lemma BehindAreClasses(E: set<(Column, Column)>, types: Types, C: set<Column>, a: Column, b: Column)
    requires Nodes(E) <= types.Keys && C in Behind(E, types) && (a, b) in E
    ensures a in C <==> b in C
  {
    ColumnOrder();
    var roots := SortSet(ColumnLe, Busy(E, types));
    var i :| 0 <= i < |roots| && C == Class(E, roots[i]);
    EndsLinked(E, (a, b));
    LinkedSymmetric(E, a, b);
    if a in C { LinkedTrans(E, roots[i], a, b); }
    if b in C { LinkedTrans(E, roots[i], b, a); }
  }

  // ----- replaying a plan -----

  lemma {:induction false} ReplayOutside(types: Types, plan: seq<Component>, cs: seq<set<Column>>,
                                         written: seq<set<string>>, x: Column)
    requires Laid(plan, cs, types) && |written| == |plan| && x in types
    requires forall i :: 0 <= i < |cs| ==> !Recasts(plan[i], x)
    ensures Replay(types, plan, written)[x] == types[x]
    decreases |plan|
  {
    hide EntryOf, Recasts;
    if plan != [] {
      var n := |plan| - 1;
      ReplayOutside(types, plan[..n], cs[..n], written[..n], x);
    }
  }

  /** The last entry's part: it recasts only members of its own class. */
  lemma LastOutside(types: Types, plan: seq<Component>, cs: seq<set<Column>>, i: nat, x: Column)
    requires Laid(plan, cs, types) && i < |cs| && x in cs[i]
    ensures forall j :: 0 <= j < |cs| && j != i ==> !Recasts(plan[j], x)
    ensures x in types
    ensures Recasts(plan[i], x) ==> HasNumeric(cs[i], types) && plan[i][x.table][x.name] == Target(cs[i], types)
  {
    hide EntryOf, Target, HasNumeric, Recasts;
    EntryExactly(cs[i], types, x);
    forall j | 0 <= j < |cs| && j != i ensures !Recasts(plan[j], x) { EntryExactly(cs[j], types, x); }
  }

  lemma ReplayLast(types: Types, plan: seq<Component>, written: seq<set<string>>, x: Column)
    requires |plan| == |written| > 0 && x in types
    ensures var n := |plan| - 1;
            Replay(types, plan, written)[x] ==
            if x.table in written[n] && Recasts(plan[n], x) then plan[n][x.table][x.name]
            else Replay(types, plan[..n], written[..n])[x]
  {}

  lemma {:induction false} ReplayInside(types: Types, plan: seq<Component>, cs: seq<set<Column>>,
                                        written: seq<set<string>>, i: nat, x: Column)
    requires Laid(plan, cs, types) && |written| == |plan| && i < |cs| && x in cs[i]
    ensures Replay(types, plan, written)[x] ==
            if x.table in written[i] && Recasts(plan[i], x) then Target(cs[i], types) else types[x]
    decreases |plan|
  {
    hide EntryOf, Target, HasNumeric, Recasts, Replay;
    var n := |plan| - 1;
    LastOutside(types, plan, cs, i, x);
    ReplayLast(types, plan, written, x);
    if i == n {
      ReplayOutside(types, plan[..n], cs[..n], written[..n], x);
    } else {
      ReplayInside(types, plan[..n], cs[..n], written[..n], i, x);
    }
  }

  /** Each component is rewritten wholly or not at all. */
  ghost predicate Whole(plan: seq<Component>, written: seq<set<string>>) {
    |plan| == |written| && forall i :: 0 <= i < |plan| ==> written[i] == {} || written[i] == plan[i].Keys
  }

  /** The column types after a whole run, class by class. */
  lemma WholeReplay(types: Types, plan: seq<Component>, cs: seq<set<Column>>, written: seq<set<string>>, i: nat,
                    x: Column)
    requires Laid(plan, cs, types) && Whole(plan, written) && i < |cs| && x in cs[i]
    ensures Replay(types, plan, written)[x] ==
            if written[i] == plan[i].Keys && HasNumeric(cs[i], types) then Target(cs[i], types) else types[x]
  {
    hide EntryOf, Replay, Target;
    ReplayInside(types, plan, cs, written, i, x);
    EntryExactly(cs[i], types, x);
  }

  /** No component split, no relationship broken: keys that agreed still agree. */
  lemma AgreementKept(foreign: seq<ForeignKey>, types: Types, written: seq<set<string>>, k: ForeignKey)
    requires Whole(Plan(foreign, types), written)
    requires k in foreign && k.Child() in types && k.Parent() in types && types[k.Child()] == types[k.Parent()]
    ensures var after := Replay(types, Plan(foreign, types), written); after[k.Child()] == after[k.Parent()]
  {
    var E := Known(foreign, types);
    PlanIsLaid(foreign, types);
    var cs := Behind(E, types);
    assert (k.Child(), k.Parent()) in E;
    forall C | C in cs ensures k.Child() in C <==> k.Parent() in C {
      BehindAreClasses(E, types, C, k.Child(), k.Parent());
    }
    SettledOrNot(types, Plan(foreign, types), cs, written, k.Child(), k.Parent());
  }

  lemma SettledOrNot(types: Types, plan: seq<Component>, cs: seq<set<Column>>, written: seq<set<string>>, a: Column,
                     b: Column)
    requires Laid(plan, cs, types) && Whole(plan, written)
    requires a in types && b in types && types[a] == types[b]
    requires forall C :: C in cs ==> (a in C <==> b in C)
    ensures var after := Replay(types, plan, written); after[a] == after[b]
  {
    hide EntryOf, Replay, Target, HasNumeric, Recasts;
    if i :| 0 <= i < |cs| && a in cs[i] {
      assert cs[i] in cs;
      WholeReplay(types, plan, cs, written, i, a);
      WholeReplay(types, plan, cs, written, i, b);
    } else {
      forall i | 0 <= i < |cs| ensures !Recasts(plan[i], a) && !Recasts(plan[i], b) {
        assert cs[i] in cs;
        EntryExactly(cs[i], types, a);
        EntryExactly(cs[i], types, b);
      }
      ReplayOutside(types, plan, cs, written, a);
      ReplayOutside(types, plan, cs, written, b);
    }
  }

  // ----- the whole plan -----

  lemma BehindContaining(E: set<(Column, Column)>, types: Types, i: nat, x: Column)
    requires Nodes(E) <= types.Keys && i < |Behind(E, types)| && x in Behind(E, types)[i]
    ensures Behind(E, types)[i] == Class(E, x)
  {
    ColumnOrder();
    SameClass(E, SortSet(ColumnLe, Busy(E, types))[i], x);
  }

  /** With everything written, each component with a numeric member stands at one type and the
      all-text components stand where they were. */
  lemma EverythingSettles(foreign: seq<ForeignKey>, types: Types, x: Column)
    requires x in Nodes(Known(foreign, types)) && Nodes(Known(foreign, types)) <= types.Keys
    ensures var C := Class(Known(foreign, types), x);
            Replay(types, Plan(foreign, types), Everything(Plan(foreign, types)))[x] ==
            if HasNumeric(C, types) then Target(C, types) else types[x]
  {
    hide EntryOf, Class, Nodes, Known, Target, Replay, Recasts;
    var E := Known(foreign, types);
    var plan := Plan(foreign, types);
    PlanIsLaid(foreign, types);
    var cs := Behind(E, types);
    InOwnClass(E, x);
    ClassBehind(E, types, x);
    if i :| 0 <= i < |cs| && x in cs[i] {
      BehindContaining(E, types, i, x);
      WholeReplay(types, plan, cs, Everything(plan), i, x);
    } else {
      ClassKnown(E, x);
      EmptyEntry(Class(E, x), types);
      EntryExactly(Class(E, x), types, x);
      forall i | 0 <= i < |cs| ensures !Recasts(plan[i], x) { EntryExactly(cs[i], types, x); }
      ReplayOutside(types, plan, cs, Everything(plan), x);
    }
  }

  /** With everything written, the two ends of every key in a component with a numeric member agree. */
  lemma NumericKeysAgree(foreign: seq<ForeignKey>, types: Types, k: ForeignKey)
    requires k in foreign && k.Child() in types && k.Parent() in types
    requires Class(Known(foreign, types), k.Child()) <= types.Keys &&
             HasNumeric(Class(Known(foreign, types), k.Child()), types)
    ensures var after := Replay(types, Plan(foreign, types), Everything(Plan(foreign, types)));
            after[k.Child()] == after[k.Parent()] && Numeric(after[k.Child()])
  {
    var E := Known(foreign, types);
    KnownColumns(foreign, types);
    assert (k.Child(), k.Parent()) in E;
    EndsLinked(E, (k.Child(), k.Parent()));
    SameClass(E, k.Child(), k.Parent());
    EverythingSettles(foreign, types, k.Child());
    EverythingSettles(foreign, types, k.Parent());
  }

  lemma NothingLeft(E: set<(Column, Column)>, types: Types, after: Types, r: Column)
    requires Nodes(E) <= types.Keys == after.Keys
    requires forall x :: x in Class(E, r) ==>
      (after[x] == if HasNumeric(Class(E, r), types) then Target(Class(E, r), types) else types[x])
    ensures EntryOf(Class(E, r), after) == map[]
  {
    var C := Class(E, r);
    EmptyEntry(C, after);
    forall x | x in C ensures !Recasts(EntryOf(C, after), x) { EntryExactly(C, after, x); }
  }

  /** Carried out in full, the plan leaves nothing to plan. */
  lemma ReplanIsEmpty(foreign: seq<ForeignKey>, types: Types)
    ensures Plan(foreign, Replay(types, Plan(foreign, types), Everything(Plan(foreign, types)))) == []
  {
    var E := Known(foreign, types);
    var after := Replay(types, Plan(foreign, types), Everything(Plan(foreign, types)));
    KnownColumns(foreign, types);
    assert Known(foreign, after) == E;
    forall r | r in Roots(E) ensures EntryOf(Class(E, r), after) == map[] {
      forall x | x in Class(E, r)
        ensures after[x] == if HasNumeric(Class(E, r), types) then Target(Class(E, r), types) else types[x]
      {
        EverythingSettles(foreign, types, x);
        SameClass(E, r, x);
      }
      NothingLeft(E, types, after, r);
    }
    assert Busy(E, after) == {};
  }

  // ----- why the schemas of a run must be apart -----

  lemma NotInPlan(foreign: seq<ForeignKey>, types: Types, written: seq<set<string>>, x: Column)
    requires x in types && x !in Nodes(Known(foreign, types)) && |written| == |Plan(foreign, types)|
    ensures Replay(types, Plan(foreign, types), written)[x] == types[x]
  {
    hide EntryOf, Class, Busy, Known, Nodes, Replay, Recasts, Plan;
    var E := Known(foreign, types);
    PlanIsLaid(foreign, types);
    forall i | 0 <= i < |Behind(E, types)| ensures !Recasts(Plan(foreign, types)[i], x) {
      ColumnOrder();
      ClassKnown(E, SortSet(ColumnLe, Busy(E, types))[i]);
      EntryExactly(Behind(E, types)[i], types, x);
    }
    ReplayOutside(types, Plan(foreign, types), Behind(E, types), written, x);
  }

  lemma AllTextPlansNothing(foreign: seq<ForeignKey>, types: Types)
    requires forall x :: x in types ==> x in Nodes(Known(foreign, types)) ==> !Numeric(types[x])
    ensures Plan(foreign, types) == []
  {
    hide EntryOf, Known, Recasts, Target;
    var E := Known(foreign, types);
    KnownColumns(foreign, types);
    ColumnOrder();
    forall r | r in Roots(E) ensures EntryOf(Class(E, r), types) == map[] {
      EmptyEntry(Class(E, r), types);
      forall x | x in Class(E, r) ensures !Recasts(EntryOf(Class(E, r), types), x) {
        EntryExactly(Class(E, r), types, x);
      }
    }
    assert Busy(E, types) == {};
  }

  lemma NumericPartnerMoves(l: ForeignKey, types: Types, x: Column)
    requires l.Child() in types && l.Parent() in types && Numeric(types[l.Parent()])
    requires x in types && x != l.Child() && x != l.Parent()
    ensures var after := Replay(types, Plan([l], types), Everything(Plan([l], types)));
            Numeric(after[l.Child()]) && after[x] == types[x]
  {
    hide EntryOf, Plan, Replay, Recasts;
    var F := Known([l], types);
    assert l in [l];
    assert F == {(l.Child(), l.Parent())};
    NotInPlan([l], types, Everything(Plan([l], types)), x);
    KnownColumns([l], types);
    EndsLinked(F, (l.Child(), l.Parent()));
    EverythingSettles([l], types, l.Child());
    assert l.Parent() in Class(F, l.Child());
  }

  const FIRST_KEY := ForeignKey("A", "K", "B", "K")
  const SECOND_KEY := ForeignKey("B", "K", "C", "K")

  /** Two text columns that agree, and a number the second of them is joined to by another database's key. */
  function SharedTypes(): Types {
    map[Column("A", "K") := "TEXT", Column("B", "K") := "TEXT", Column("C", "K") := "NUMBER"]
  }

  /** The first key plans nothing; the second's plan, wholly written, parts the first key's columns. */
  lemma SharedSchemaBreaksAgreement()
    ensures var types, k, l := SharedTypes(), FIRST_KEY, SECOND_KEY;
            Plan([k], types) == [] && k.Child() in types && k.Parent() in types &&
            types[k.Child()] == types[k.Parent()] &&
            var after := Replay(types, Plan([l], types), Everything(Plan([l], types)));
            after[k.Child()] != after[k.Parent()]
  {
    hide Plan, Replay, Known;
    var a, b, c := Column("A", "K"), Column("B", "K"), Column("C", "K");
    var k, l := FIRST_KEY, SECOND_KEY;
    var types := SharedTypes();
    assert k.Child() == a && k.Parent() == b && l.Child() == b && l.Parent() == c;
    OnlyNodes(k, types);
    assert "TEXT"[0] == 'T' && "NUMBER"[0] == 'N' && "FLOAT"[0] == 'F' && "INT"[0] == 'I';
    assert !Numeric("TEXT") && Numeric("NUMBER");
    AllTextPlansNothing([k], types);
    NumericPartnerMoves(l, types, a);
  }

  lemma OnlyNodes(k: ForeignKey, types: Types)
    ensures Nodes(Known([k], types)) <= {k.Child(), k.Parent()}
  {}
}
