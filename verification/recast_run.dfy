/** Probing, rewriting and reporting, against a warehouse in which any statement may fail. */
module RecastRun {
  import opened CastCounts
  import opened Characters
  import opened ColumnTypes
  import opened Options
  import opened Ordering
  import opened RecastPlan
  import opened RecastPlanner
  import opened RecastEffect
  import opened RecastWarehouse

  /** No statement of the run failed, and no probe refused. */
  ghost predicate Smooth(raises: nat -> bool, from: nat, trail: seq<Statement>) {
    forall i :: from <= i < |trail| ==>
      !raises(i) && (trail[i].Asked? ==> !Refuses(trail[i].answer, trail[i].target))
  }

  /** A warehouse where no statement fails and no cast loses anything. */
  ghost predicate Harmless(w: Warehouse) {
    (forall n :: !w.raises(n)) &&
    forall target, v :: w.k.cast(target, v).Some? && !w.k.fractional(v)
  }

  // ----- probe_component -----

  /** Why a column's values would not survive the cast: unreadable, lost to NULL, or rounded. */
  predicate Refuses(answer: Answer, target: string) {
    || answer.Raised?
    || answer.nonNull != answer.converted
    || ("NUMBER" <= Upper(target) && answer.fractional != 0)
  }

  /** A probe that counts refuses exactly the casts that would lose or round a value. */
  lemma RefusesExactly(k: Casts<string>, target: string, vs: Values)
    ensures Refuses(CountsOf(k, target, vs), target) <==> !Survives(k, target, IsNumber(target), vs)
  {
    CountsTell(k, target, IsNumber(target), vs);
    NumberMeans(target);
  }

  lemma NumberMeans(target: string)
    ensures IsNumber(target) <==> "NUMBER" <= Upper(target)
  {
    if |target| >= 6 { assert Upper(target)[..6] == Upper(target[..6]); }
  }

  /** The type an entry recasts `x` to. */
  function Aim(entry: Component, x: Column): string {
    if Recasts(entry, x) then entry[x.table][x.name] else ""
  }

  /** What the `n`-th statement was answered, if it was a probe. */
  function Said(trail: seq<Statement>, n: nat): Answer {
    if n < |trail| && trail[n].Asked? then trail[n].answer else Raised
  }

  /** Of the columns asked about, the `k`-th by statement `lo + k`, those whose answer refuses the cast. */
  function LossyOf(trail: seq<Statement>, lo: nat, asked: seq<Column>, entry: Component): seq<Column> {
    if asked == [] then [] else
      var k := |asked| - 1;
      LossyOf(trail, lo, asked[..k], entry) +
      if Refuses(Said(trail, lo + k), Aim(entry, asked[k])) then [asked[k]] else []
  }

  /** A component comes back with nothing lossy exactly when no answer refused. */
  lemma {:induction false} NothingLossy(trail: seq<Statement>, lo: nat, asked: seq<Column>, entry: Component)
    ensures LossyOf(trail, lo, asked, entry) == [] <==>
            forall k :: 0 <= k < |asked| ==> !Refuses(Said(trail, lo + k), Aim(entry, asked[k]))
  {
    hide Refuses, Aim, Said;
    if asked != [] {
      NothingLossy(trail, lo, asked[..|asked| - 1], entry);
    }
  }

  /** Later statements do not change what the earlier ones were answered. */
  lemma {:induction false} LossyStays(trail: seq<Statement>, more: seq<Statement>, lo: nat, asked: seq<Column>,
                                      entry: Component)
    requires trail <= more && lo + |asked| <= |trail|
    ensures LossyOf(more, lo, asked, entry) == LossyOf(trail, lo, asked, entry)
  {
    hide Refuses, Aim;
    if asked != [] {
      LossyStays(trail, more, lo, asked[..|asked| - 1], entry);
    }
  }

  /** What a component's list names: a cast whose probe raised, or that would lose or round a value. */
  lemma {:induction false} LossyExactly(k: Casts<string>, data: Data, raises: nat -> bool, trail: seq<Statement>,
                                        lo: nat, schema: string, asked: seq<Column>, entry: Component, x: Column)
    requires AsksFrom(trail, lo, schema, entry, asked) && Truthful(k, data, raises, trail, lo)
    ensures x in LossyOf(trail, lo, asked, entry) <==>
              exists n :: 0 <= n < |asked| && asked[n] == x &&
                          (raises(lo + n) ||
                           !Survives(k, Aim(entry, x), IsNumber(Aim(entry, x)), ValuesAt(data, schema, x)))
  {
    hide Refuses, Aim, CountsOf, Survives, ValuesAt;
    if asked != [] {
      var n := |asked| - 1;
      var y := asked[n];
      LossyExactly(k, data, raises, trail, lo, schema, asked[..n], entry, x);
      assert AsksFor(trail[lo + n], schema, asked[n], Aim(entry, asked[n]));
      RaisedRefuses(Aim(entry, y));
      RefusesExactly(k, Aim(entry, y), ValuesAt(data, schema, y));
      assert forall m :: 0 <= m < n ==> asked[..n][m] == asked[m];
    }
  }

  function CellsOf(table: string, names: seq<string>): (cells: seq<Column>)
    ensures |cells| == |names|
  {
    seq(|names|, j requires 0 <= j < |names| => Column(table, names[j]))
  }

  function SortedKeys<X>(dict: map<string, X>): (names: seq<string>)
    ensures Ascending(StrLe, names) && forall n :: n in names <==> n in dict
  {
    StringOrder();
    SortSet(StrLe, dict.Keys)
  }

  /** The casts of some tables of an entry, table by table and name by name, both in order. */
  function CastsOf(entry: Component, tables: seq<string>): seq<Column>
    requires forall t :: t in tables ==> t in entry
  {
    if tables == [] then []
    else
      var n := |tables| - 1;
      assert tables[n] in tables;
      CastsOf(entry, tables[..n]) + CellsOf(tables[n], SortedKeys(entry[tables[n]]))
  }

  /** The planned casts of a component, in the order they are probed. */
  function PlannedCasts(entry: Component): seq<Column> { CastsOf(entry, SortedKeys(entry)) }

  /** Every planned cast is probed, once. */
  lemma PlannedOnce(entry: Component)
    ensures Distinct(PlannedCasts(entry)) && forall x :: x in PlannedCasts(entry) <==> Recasts(entry, x)
  {
    CastsOnce(entry, SortedKeys(entry));
  }

  lemma {:induction false} CastsOnce(entry: Component, tables: seq<string>)
    requires Distinct(tables) && forall t :: t in tables ==> t in entry
    ensures Distinct(CastsOf(entry, tables))
    ensures forall x: Column :: x in CastsOf(entry, tables) <==> x.table in tables && Recasts(entry, x)
  {
    if tables != [] {
      var n := |tables| - 1;
      var t, front := tables[n], tables[..n];
      assert t in tables && tables == front + [t] && t !in front;
      CastsOnce(entry, front);
      CellsOnce(t, SortedKeys(entry[t]));
      var a, b := CastsOf(entry, front), CellsOf(t, SortedKeys(entry[t]));
      forall i, j | 0 <= i < |a| && 0 <= j < |b| ensures a[i] != b[j] { assert a[i] in a && b[j] in b; }
    }
  }

  lemma CellsOnce(table: string, names: seq<string>)
    requires Distinct(names)
    ensures Distinct(CellsOf(table, names))
    ensures forall x: Column :: x in CellsOf(table, names) <==> x.table == table && x.name in names
  {
    var cells := CellsOf(table, names);
    forall n | n in names ensures Column(table, n) in cells {
      var j :| 0 <= j < |names| && names[j] == n;
      assert cells[j] == Column(table, n);
    }
  }

  /** This statement asks about this cast. */
  predicate AsksFor(e: Statement, schema: string, x: Column, target: string) {
    e.Asked? && e.schema == schema && e.column == x && e.target == target
  }

  /** From `lo` on the trail is the probes of some columns' casts, in order. */
  ghost predicate AsksFrom(trail: seq<Statement>, lo: nat, schema: string, entry: Component, casts: seq<Column>) {
    lo + |casts| <= |trail| &&
    forall k :: 0 <= k < |casts| ==> AsksFor(trail[lo + k], schema, casts[k], Aim(entry, casts[k]))
  }

  /** Each of them raised, or counted the values as they stand. */
  ghost predicate Truthful(k: Casts<string>, data: Data, raises: nat -> bool, trail: seq<Statement>, lo: nat) {
    forall n :: lo <= n < |trail| && trail[n].Asked? ==>
      trail[n].answer == if raises(n) then Raised
                         else CountsOf(k, trail[n].target, ValuesAt(data, trail[n].schema, trail[n].column))
  }

  /** Every planned column of the component is probed, in order, one statement each; any refusal refuses it whole. */
  method ProbeComponent(w: Warehouse, schema: string, entry: Component) returns (lossy: seq<Column>)
    modifies w`trail
    ensures lossy == LossyOf(w.trail, |old(w.trail)|, PlannedCasts(entry), entry)
    ensures old(w.trail) <= w.trail && |w.trail| == |old(w.trail)| + |PlannedCasts(entry)|
    ensures AsksFrom(w.trail, |old(w.trail)|, schema, entry, PlannedCasts(entry))
    ensures Truthful(w.k, w.data, w.raises, w.trail, |old(w.trail)|)
  {
    hide SortedKeys, LossyOf, Aim, CastsOf, CellsOf, AsksFor;
    lossy := [];
    var tables := SortedKeys(entry);
    NoneLossy(w.trail, |w.trail|, entry);
    NoCasts(entry, tables);
    for i := 0 to |tables|
      invariant lossy == LossyOf(w.trail, |old(w.trail)|, CastsOf(entry, tables[..i]), entry)
      invariant old(w.trail) <= w.trail && |w.trail| == |old(w.trail)| + |CastsOf(entry, tables[..i])|
      invariant AsksFrom(w.trail, |old(w.trail)|, schema, entry, CastsOf(entry, tables[..i]))
      invariant Truthful(w.k, w.data, w.raises, w.trail, |old(w.trail)|)
    {
      CastsMore(entry, tables, i);
      lossy := ProbeNames(w, schema, entry, tables[i], SortedKeys(entry[tables[i]]), lossy, CastsOf(entry, tables[..i]),
                          old(w.trail));
    }
    assert tables[..|tables|] == tables;
  }

  lemma NoCasts(entry: Component, tables: seq<string>)
    ensures CastsOf(entry, tables[..0]) == []
  {}

  lemma CastsMore(entry: Component, tables: seq<string>, i: nat)
    requires i < |tables| && forall t :: t in tables ==> t in entry
    ensures tables[i] in entry
    ensures (forall t :: t in tables[..i] ==> t in entry) && forall t :: t in tables[..i + 1] ==> t in entry
    ensures CastsOf(entry, tables[..i + 1]) ==
            CastsOf(entry, tables[..i]) + CellsOf(tables[i], SortedKeys(entry[tables[i]]))
  {
    hide SortedKeys, CellsOf;
    assert tables[i] in tables && tables[..i + 1][..i] == tables[..i];
  }

  lemma NoneLossy(trail: seq<Statement>, lo: nat, entry: Component)
    ensures LossyOf(trail, lo, [], entry) == []
  {}

  lemma CellsMore(table: string, names: seq<string>, name: string)
    ensures CellsOf(table, names + [name]) == CellsOf(table, names) + [Column(table, name)]
    ensures CellsOf(table, []) == []
  {}

  /** One more cast asked about. */
  lemma AskedMore(trail: seq<Statement>, lo: nat, schema: string, entry: Component, casts: seq<Column>, x: Column,
                  e: Statement)
    requires AsksFrom(trail, lo, schema, entry, casts) && |trail| == lo + |casts|
    requires AsksFor(e, schema, x, Aim(entry, x))
    ensures AsksFrom(trail + [e], lo, schema, entry, casts + [x])
    ensures LossyOf(trail + [e], lo, casts + [x], entry) ==
            LossyOf(trail, lo, casts, entry) + if Refuses(e.answer, Aim(entry, x)) then [x] else []
  {
    hide Aim, Refuses;
    var more := casts + [x];
    assert more[..|more| - 1] == casts;
    LossyStays(trail, trail + [e], lo, casts, entry);
  }

  method ProbeNames(w: Warehouse, schema: string, entry: Component, table: string, names: seq<string>,
                    found: seq<Column>, ghost before: seq<Column>, ghost start: seq<Statement>)
    returns (lossy: seq<Column>)
    requires table in entry && forall j :: 0 <= j < |names| ==> names[j] in entry[table]
    requires found == LossyOf(w.trail, |start|, before, entry) && start <= w.trail && |w.trail| == |start| + |before|
    requires AsksFrom(w.trail, |start|, schema, entry, before)
    requires Truthful(w.k, w.data, w.raises, w.trail, |start|)
    modifies w`trail
    ensures lossy == LossyOf(w.trail, |start|, before + CellsOf(table, names), entry)
    ensures start <= w.trail && |w.trail| == |start| + |before| + |names|
    ensures AsksFrom(w.trail, |start|, schema, entry, before + CellsOf(table, names))
    ensures Truthful(w.k, w.data, w.raises, w.trail, |start|)
  {
    hide Refuses, LossyOf, CellsOf, AsksFrom, AsksFor;
    lossy := found;
    ghost var cells: seq<Column> := [];
    CellsMore(table, [], "");
    assert before + cells == before;
    for j := 0 to |names|
      invariant cells == CellsOf(table, names[..j]) && |cells| == j
      invariant lossy == LossyOf(w.trail, |start|, before + cells, entry)
      invariant start <= w.trail && |w.trail| == |start| + |before| + j
      invariant AsksFrom(w.trail, |start|, schema, entry, before + cells)
      invariant Truthful(w.k, w.data, w.raises, w.trail, |start|)
    {
      var column := Column(table, names[j]);
      ghost var trail := w.trail;
      var answer := w.Probe(schema, column, entry[table][names[j]]);
      lossy := if Refuses(answer, entry[table][names[j]]) then lossy + [column] else lossy;
      assert Aim(entry, column) == entry[table][names[j]];
      AsksItself(schema, column, entry[table][names[j]], answer);
      AskedMore(trail, |start|, schema, entry, before + cells, column, w.trail[|trail|]);
      CellsMore(table, names[..j], names[j]);
      assert names[..j + 1] == names[..j] + [names[j]];
      assert (before + cells) + [column] == before + (cells + [column]);
      cells := cells + [column];
    }
    assert names[..|names|] == names;
  }

  lemma AsksItself(schema: string, x: Column, target: string, answer: Answer)
    ensures AsksFor(Asked(schema, x, target, answer), schema, x, target)
  {}

  // ----- apply_component -----

  datatype Outcome =
    | Unreadable
    | Wrote(written: seq<string>, failed: Option<string>, unattempted: seq<string>)
  {
    /** The tables this component had rewritten. */
    function Written(): set<string> {
      if Unreadable? then {} else set t | t in written
    }

    /** The tables a rewrite was sent for. */
    function Attempts(): seq<string> {
      if Unreadable? then [] else written + (if failed.Some? then [failed.value] else [])
    }

    /** Some of its tables rewritten and some not: the one outcome that makes a schema worse. */
    predicate Split() { Wrote? && failed.Some? && written != [] }
  }

  function Tables(entry: Component): seq<string> {
    StringOrder();
    SortSet(StrLe, entry.Keys)
  }

  /** What was written, what failed and what was never tried are the plan, in its order. */
  ghost predicate Accounts(entry: Component, o: Outcome) {
    o.Wrote? ==>
      && o.written + (if o.failed.Some? then [o.failed.value] else []) + o.unattempted == Tables(entry)
      && (o.failed.None? ==> o.unattempted == [])
  }

  /** A split is exactly some, but not all, of the planned tables. */
  lemma SplitIsPartial(entry: Component, o: Outcome)
    requires Accounts(entry, o)
    ensures o.Split() <==> o.Written() != {} && o.Written() != entry.Keys
    ensures !o.Split() ==> o.Written() == {} || o.Written() == entry.Keys
  {
    StringOrder();
    if o.Wrote? {
      var all := Tables(entry);
      assert forall t :: t in all <==> t in entry;
      assert forall i :: 0 <= i < |o.written| ==> all[i] == o.written[i];
      if o.failed.Some? {
        var n := |o.written|;
        assert all[n] == o.failed.value;
        assert o.failed.value in all;
        assert o.failed.value !in o.written;
      } else {
        assert o.written == all;
      }
      assert o.written != [] ==> o.written[0] in o.Written();
    }
  }

  /** The rewrites of some tables of an entry, each casting what is planned of its table. */
  function WritesOf(schema: string, entry: Component, tables: seq<string>): seq<Statement> {
    seq(|tables|, k requires 0 <= k < |tables| =>
      Recreated(schema, tables[k], if tables[k] in entry then entry[tables[k]] else map[]))
  }

  /** Reads only. */
  ghost predicate OnlyReads(before: seq<Statement>, after: seq<Statement>) {
    before <= after && forall i :: |before| <= i < |after| ==> after[i].NamesRead?
  }

  /** Reads, and then the rewrites of these tables. */
  ghost predicate ReadsThenWrites(schema: string, entry: Component, before: seq<Statement>, after: seq<Statement>,
                                  tables: seq<string>) {
    exists mid :: OnlyReads(before, mid) && after == mid + WritesOf(schema, entry, tables)
  }

  /** The casts `build_rewrites` puts in a table's projection: of its own columns, those planned. */
  method BuildRewrites(w: Warehouse, schema: string, entry: Component)
    returns (rewrites: Option<seq<(string, map<string, string>)>>)
    requires forall x :: Recasts(entry, x) ==> x in w.Schema(schema)
    modifies w`trail
    ensures OnlyReads(old(w.trail), w.trail)
    ensures rewrites.None? ==> exists n: nat :: |old(w.trail)| <= n < |w.trail| && w.raises(n)
    ensures rewrites.Some? ==> |rewrites.value| == |Tables(entry)|
    ensures rewrites.Some? ==> forall i :: 0 <= i < |rewrites.value| ==>
      Tables(entry)[i] in entry && rewrites.value[i] == (Tables(entry)[i], entry[Tables(entry)[i]])
  {
    StringOrder();
    var tables := Tables(entry);
    var list: seq<(string, map<string, string>)> := [];
    for i := 0 to |tables|
      invariant |list| == i && OnlyReads(old(w.trail), w.trail)
      invariant forall k :: 0 <= k < i ==> tables[k] in entry && list[k] == (tables[k], entry[tables[k]])
    {
      var table := tables[i];
      assert table in tables;
      var names := w.ReadNames(schema, table);
      if names.None? {
        assert w.raises(|w.trail| - 1);
        return None;
      }
      var casts := map n | n in entry[table] && n in names.value :: entry[table][n];
      assert casts == entry[table] by {
        forall n | n in entry[table] ensures n in names.value { assert Recasts(entry, Column(table, n)); }
      }
      list := list + [(table, casts)];
    }
    return Some(list);
  }

  /** One more table of the entry written. */
  lemma RewriteMore(types: Types, entry: Component, written: set<string>, table: string)
    requires table in entry
    ensures Rewrite(Rewrite(types, entry, written), map[table := entry[table]], {table}) ==
            Rewrite(types, entry, written + {table})
  {
    var one, more := map[table := entry[table]], written + {table};
    forall x | x in types
      ensures Rewrite(Rewrite(types, entry, written), one, {table})[x] == Rewrite(types, entry, more)[x]
    {
      assert x.table in more <==> x.table in written || x.table == table;
    }
  }

  lemma RewriteNone(types: Types, entry: Component)
    ensures Rewrite(types, entry, {}) == types
  {}

  /** All reads before any write; the first write that fails ends the component, with an account of it. */
  method ApplyComponent(w: Warehouse, schema: string, entry: Component) returns (o: Outcome)
    requires forall x :: Recasts(entry, x) ==> x in w.Schema(schema)
    modifies w
    ensures Accounts(entry, o)
    ensures ReadsThenWrites(schema, entry, old(w.trail), w.trail, o.Attempts())
    ensures (o.Wrote? && o.failed.None?) || exists n: nat :: |old(w.trail)| <= n < |w.trail| && w.raises(n)
    ensures Changed(old(w.schemas), schema, Rewrite(old(w.Schema(schema)), entry, o.Written()), w.schemas)
    ensures Changed(old(w.data), schema, CastRows(w.k, At(old(w.data), schema), entry, o.Written()), w.data)
  {
    hide Rewrite, CastRows, WritesOf;
    RewriteNone(w.Schema(schema), entry);
    CastNone(w.k, At(w.data, schema), entry);
    var rewrites := BuildRewrites(w, schema, entry);
    ghost var mid := w.trail;
    if rewrites.None? {
      NoWrites(schema, entry);
      assert mid == mid + WritesOf(schema, entry, []);
      return Unreadable;
    }
    TablesOnce(entry);
    o := ExecuteRewrites(w, schema, entry, rewrites.value, Tables(entry));
  }

  lemma NoWrites(schema: string, entry: Component)
    ensures WritesOf(schema, entry, []) == []
  {}

  lemma TablesOnce(entry: Component)
    ensures Distinct(Tables(entry))
  {
    StringOrder();
  }

  method WriteOne(w: Warehouse, schema: string, ghost types: Types, ghost rows: map<Column, Values>, entry: Component,
                  ghost names: set<string>, table: string, casts: map<string, string>)
    returns (ok: bool)
    requires w.Schema(schema) == Rewrite(types, entry, names) && At(w.data, schema) == CastRows(w.k, rows, entry, names)
    requires table in entry && casts == entry[table] && table !in names
    modifies w
    ensures w.trail == old(w.trail) + [Recreated(schema, table, casts)] && (ok || w.raises(|old(w.trail)|))
    ensures Changed(old(w.schemas), schema, Rewrite(types, entry, if ok then names + {table} else names), w.schemas)
    ensures Changed(old(w.data), schema, CastRows(w.k, rows, entry, if ok then names + {table} else names), w.data)
  {
    RewriteMore(types, entry, names, table);
    CastMore(w.k, rows, entry, names, table);
    hide Rewrite, CastRows;
    ok := w.Recreate(schema, table, casts);
  }

  lemma WritesMore(schema: string, entry: Component, tables: seq<string>, i: nat)
    requires i < |tables| && tables[i] in entry
    ensures WritesOf(schema, entry, tables[..i + 1]) ==
            WritesOf(schema, entry, tables[..i]) + [Recreated(schema, tables[i], entry[tables[i]])]
  {}

  method ExecuteRewrites(w: Warehouse, schema: string, entry: Component, list: seq<(string, map<string, string>)>,
                         ghost tables: seq<string>)
    returns (o: Outcome)
    requires |list| == |tables|
    requires forall i :: 0 <= i < |list| ==> tables[i] in entry && list[i] == (tables[i], entry[tables[i]])
    requires Distinct(tables)
    modifies w
    ensures o.Wrote? && o.written + (if o.failed.Some? then [o.failed.value] else []) + o.unattempted == tables
    ensures o.failed.None? ==> o.unattempted == []
    ensures w.trail == old(w.trail) + WritesOf(schema, entry, o.Attempts())
    ensures o.failed.None? || exists n: nat :: |old(w.trail)| <= n < |w.trail| && w.raises(n)
    ensures Changed(old(w.schemas), schema, Rewrite(old(w.Schema(schema)), entry, o.Written()), w.schemas)
    ensures Changed(old(w.data), schema, CastRows(w.k, At(old(w.data), schema), entry, o.Written()), w.data)
  {
    hide Rewrite, CastRows;
    ghost var types, rows := w.Schema(schema), At(w.data, schema);
    RewriteNone(types, entry);
    CastNone(w.k, rows, entry);
    var written: seq<string> := [];
    ghost var names: set<string> := {};
    for i := 0 to |list|
      invariant w.trail == old(w.trail) + WritesOf(schema, entry, tables[..i])
      invariant written == tables[..i] && names == set t | t in written
      invariant Changed(old(w.schemas), schema, Rewrite(types, entry, names), w.schemas)
      invariant Changed(old(w.data), schema, CastRows(w.k, rows, entry, names), w.data)
    {
      var (table, casts) := list[i];
      var ok := WriteOne(w, schema, types, rows, entry, names, table, casts);
      WritesMore(schema, entry, tables, i);
      if !ok {
        assert w.raises(|w.trail| - 1);
        var rest := list[i + 1..];
        o := Wrote(written, Some(table), seq(|rest|, k requires 0 <= k < |rest| => rest[k].0));
        return;
      }
      written, names := written + [table], names + {table};
    }
    o := Wrote(written, None, []);
  }

  // ----- main: one schema -----

  /** What the run says of one planned component. */
  datatype Report = Skipped(lossy: seq<Column>) | Attempted(outcome: Outcome) {
    function Written(): set<string> {
      if Attempted? then outcome.Written() else {}
    }

    predicate Split() { Attempted? && outcome.Split() }
  }

  /** A rewrite of this table, casting what is planned of it, was sent from `lo` on. */
  ghost predicate WroteAt(trail: seq<Statement>, schema: string, lo: nat, entry: Component, table: string) {
    table in entry && exists i :: lo <= i < |trail| && trail[i] == Recreated(schema, table, entry[table])
  }

  /** The component's planned casts are what statements `lo` on ask; it is written only after them, and only if no
      answer refused. */
  ghost predicate ProbedFrom(trail: seq<Statement>, schema: string, lo: nat, entry: Component, r: Report) {
    var casts := PlannedCasts(entry);
    var lossy := LossyOf(trail, lo, casts, entry);
    AsksFrom(trail, lo, schema, entry, casts) &&
    if lossy != [] then r == Skipped(lossy)
    else r.Attempted? && forall t :: t in r.Written() ==> WroteAt(trail, schema, lo + |casts|, entry, t)
  }

  /** So it was, by statements from `from` on. */
  ghost predicate Probed(trail: seq<Statement>, schema: string, from: nat, entry: Component, r: Report) {
    exists lo: nat :: from <= lo && ProbedFrom(trail, schema, lo, entry, r)
  }

  ghost predicate EachProbed(trail: seq<Statement>, schema: string, from: nat,
                             plan: seq<Component>, reports: seq<Report>) {
    |plan| == |reports| && forall i :: 0 <= i < |plan| ==> Probed(trail, schema, from, plan[i], reports[i])
  }

  lemma ProbedFromStays(trail: seq<Statement>, more: seq<Statement>, schema: string, lo: nat, entry: Component,
                        r: Report)
    requires ProbedFrom(trail, schema, lo, entry, r) && trail <= more
    ensures ProbedFrom(more, schema, lo, entry, r)
  {
    hide LossyOf, PlannedCasts, AsksFor;
    LossyStays(trail, more, lo, PlannedCasts(entry), entry);
    var hi := lo + |PlannedCasts(entry)|;
    if r.Attempted? {
      forall t | t in r.Written() && WroteAt(trail, schema, hi, entry, t) ensures WroteAt(more, schema, hi, entry, t) {
        var i :| hi <= i < |trail| && trail[i] == Recreated(schema, t, entry[t]);
        assert more[i] == trail[i];
      }
    }
  }

  lemma EachProbedStays(trail: seq<Statement>, more: seq<Statement>, schema: string, from: nat,
                        low: nat, plan: seq<Component>, reports: seq<Report>)
    requires EachProbed(trail, schema, from, plan, reports) && trail <= more && low <= from
    ensures EachProbed(more, schema, low, plan, reports)
  {
    hide ProbedFrom;
    forall i | 0 <= i < |plan| ensures Probed(more, schema, low, plan[i], reports[i]) {
      assert Probed(trail, schema, from, plan[i], reports[i]);
      var lo: nat :| from <= lo && ProbedFrom(trail, schema, lo, plan[i], reports[i]);
      ProbedFromStays(trail, more, schema, lo, plan[i], reports[i]);
    }
  }

  lemma EachProbedMore(from: nat, mid: seq<Statement>, trail: seq<Statement>, schema: string,
                       plan: seq<Component>, reports: seq<Report>, entry: Component, r: Report)
    requires EachProbed(mid, schema, from, plan, reports) && from <= |mid| && mid <= trail
    requires ProbedFrom(trail, schema, |mid|, entry, r)
    ensures EachProbed(trail, schema, from, plan + [entry], reports + [r])
  {
    hide ProbedFrom;
    EachProbedStays(mid, trail, schema, from, from, plan, reports);
    assert Probed(trail, schema, from, entry, r);
  }

  lemma NoneProbed(trail: seq<Statement>, schema: string, from: nat)
    ensures EachProbed(trail, schema, from, [], [])
  {}

  /** This cast was asked about between these two statements, and the answer did not refuse it. */
  ghost predicate AskedAndKept(trail: seq<Statement>, from: nat, to: nat, schema: string, x: Column, target: string) {
    to <= |trail| &&
    exists k :: from <= k < to && AsksFor(trail[k], schema, x, target) && !Refuses(trail[k].answer, target)
  }

  /** A component that was written: before any rewrite of it every cast it plans was asked about, and none refused. */
  lemma WrittenWasProbed(trail: seq<Statement>, schema: string, from: nat, entry: Component,
                         r: Report, table: string)
    requires Probed(trail, schema, from, entry, r) && table in r.Written()
    ensures table in entry
    ensures exists i :: from <= i < |trail| && trail[i] == Recreated(schema, table, entry[table]) &&
                        forall x :: Recasts(entry, x) ==> AskedAndKept(trail, from, i, schema, x, Aim(entry, x))
  {
    hide Refuses, PlannedCasts, Aim, LossyOf;
    var lo: nat :| from <= lo && ProbedFrom(trail, schema, lo, entry, r);
    var hi := lo + |PlannedCasts(entry)|;
    assert WroteAt(trail, schema, hi, entry, table);
    var i :| hi <= i < |trail| && trail[i] == Recreated(schema, table, entry[table]);
    forall x | Recasts(entry, x) ensures AskedAndKept(trail, from, i, schema, x, Aim(entry, x)) {
      CastAsked(trail, schema, lo, hi, entry, x);
    }
  }

  lemma CastAsked(trail: seq<Statement>, schema: string, lo: nat, hi: nat, entry: Component, x: Column)
    requires hi == lo + |PlannedCasts(entry)| && AsksFrom(trail, lo, schema, entry, PlannedCasts(entry))
    requires LossyOf(trail, lo, PlannedCasts(entry), entry) == [] && Recasts(entry, x)
    ensures AskedAndKept(trail, lo, hi, schema, x, Aim(entry, x))
  {
    hide Refuses, PlannedCasts, Aim, LossyOf, Recasts;
    var casts := PlannedCasts(entry);
    PlannedOnce(entry);
    NothingLossy(trail, lo, casts, entry);
    var k :| 0 <= k < |casts| && casts[k] == x;
    assert AsksFor(trail[lo + k], schema, casts[k], Aim(entry, casts[k]));
  }

  /** If this statement is a rewrite, each cast in it was asked about before it, and not refused. */
  ghost predicate Certified(trail: seq<Statement>, from: nat, i: nat)
    requires i < |trail|
  {
    var e := trail[i];
    e.Recreated? ==>
      forall n :: n in e.casts ==> AskedAndKept(trail, from, i, e.schema, Column(e.table, n), e.casts[n])
  }

  ghost predicate AllCertified(from: nat, trail: seq<Statement>) {
    forall i :: from <= i < |trail| ==> Certified(trail, from, i)
  }

  lemma CertifiedMore(from: nat, mid: seq<Statement>, trail: seq<Statement>)
    requires from <= |mid| && mid <= trail && AllCertified(from, mid) && AllCertified(|mid|, trail)
    ensures AllCertified(from, trail)
  {
    forall i | from <= i < |trail| ensures Certified(trail, from, i) {
      if i < |mid| {
        CertifiedStays(mid, trail, from, i);
      } else {
        assert Certified(trail, |mid|, i);
      }
    }
  }

  lemma CertifiedStays(trail: seq<Statement>, more: seq<Statement>, from: nat, i: nat)
    requires i < |trail| && trail <= more && Certified(trail, from, i)
    ensures Certified(more, from, i)
  {
    hide Refuses;
    var e := trail[i];
    if e.Recreated? {
      forall n | n in e.casts ensures AskedAndKept(more, from, i, e.schema, Column(e.table, n), e.casts[n]) {
        assert AskedAndKept(trail, from, i, e.schema, Column(e.table, n), e.casts[n]);
        var k :| from <= k < i && AsksFor(trail[k], e.schema, Column(e.table, n), e.casts[n]) &&
                 !Refuses(trail[k].answer, e.casts[n]);
        assert more[k] == trail[k];
      }
    }
  }

  lemma NothingWritten(from: nat, trail: seq<Statement>)
    requires forall i :: from <= i < |trail| ==> !trail[i].Recreated?
    ensures AllCertified(from, trail)
  {}

  /** A rewrite of a table of the component, after its probes. */
  lemma WriteCertified(trail: seq<Statement>, schema: string, lo: nat, hi: nat, entry: Component,
                       i: nat, t: string)
    requires hi == lo + |PlannedCasts(entry)| <= i < |trail| && AsksFrom(trail, lo, schema, entry, PlannedCasts(entry))
    requires LossyOf(trail, lo, PlannedCasts(entry), entry) == []
    requires t in entry && trail[i] == Recreated(schema, t, entry[t])
    ensures Certified(trail, lo, i)
  {
    hide LossyOf, PlannedCasts, AsksFrom, AsksFor, Refuses;
    forall n | n in entry[t] ensures AskedAndKept(trail, lo, i, schema, Column(t, n), entry[t][n]) {
      CastAsked(trail, schema, lo, hi, entry, Column(t, n));
    }
  }

  /** Where each statement of a component's reads and rewrites stands. */
  lemma WritesStand(schema: string, entry: Component, mid: seq<Statement>, after: seq<Statement>, tables: seq<string>)
    requires ReadsThenWrites(schema, entry, mid, after, tables) && forall t :: t in tables ==> t in entry
    ensures mid <= after
    ensures forall i :: |mid| <= i < |after| && after[i].Recreated? ==>
              exists t :: t in tables && t in entry && after[i] == Recreated(schema, t, entry[t])
    ensures forall t :: t in tables ==> WroteAt(after, schema, |mid|, entry, t)
  {
    var read :| OnlyReads(mid, read) && after == read + WritesOf(schema, entry, tables);
    forall i | |mid| <= i < |after| && after[i].Recreated?
      ensures exists t :: t in tables && t in entry && after[i] == Recreated(schema, t, entry[t])
    {
      var t := tables[i - |read|];
      assert t in tables && after[i] == Recreated(schema, t, entry[t]);
    }
    forall t | t in tables ensures WroteAt(after, schema, |mid|, entry, t) {
      var k :| 0 <= k < |tables| && tables[k] == t;
      assert after[|read| + k] == WritesOf(schema, entry, tables)[k];
    }
  }

  lemma ComponentStatement(schema: string, entry: Component, lo: nat, hi: nat,
                           after: seq<Statement>, i: nat)
    requires hi == lo + |PlannedCasts(entry)| && lo <= i < |after|
    requires AsksFrom(after, lo, schema, entry, PlannedCasts(entry))
    requires LossyOf(after, lo, PlannedCasts(entry), entry) == []
    requires i >= hi && after[i].Recreated? ==> exists t :: t in entry && after[i] == Recreated(schema, t, entry[t])
    ensures Certified(after, lo, i)
  {
    hide LossyOf, PlannedCasts, Refuses, Certified;
    if i < hi {
      assert AsksFor(after[lo + (i - lo)], schema, PlannedCasts(entry)[i - lo],
                     Aim(entry, PlannedCasts(entry)[i - lo]));
    }
    if after[i].Recreated? {
      var t :| t in entry && after[i] == Recreated(schema, t, entry[t]);
      WriteCertified(after, schema, lo, hi, entry, i, t);
    } else {
      OthersCertified(after, lo, i);
    }
  }

  /** One component's statements: its probes, its reads, and then its rewrites. */
  lemma ComponentCertified(schema: string, entry: Component, before: seq<Statement>,
                           mid: seq<Statement>, after: seq<Statement>, tables: seq<string>)
    requires before <= mid && |mid| == |before| + |PlannedCasts(entry)|
    requires AsksFrom(mid, |before|, schema, entry, PlannedCasts(entry))
    requires ReadsThenWrites(schema, entry, mid, after, tables)
    requires LossyOf(mid, |before|, PlannedCasts(entry), entry) == [] && forall t :: t in tables ==> t in entry
    ensures mid <= after && AllCertified(|before|, after)
    ensures AsksFrom(after, |before|, schema, entry, PlannedCasts(entry))
    ensures LossyOf(after, |before|, PlannedCasts(entry), entry) == []
    ensures forall t :: t in tables ==> WroteAt(after, schema, |mid|, entry, t)
  {
    hide LossyOf, PlannedCasts, Refuses, ReadsThenWrites, WroteAt, Certified, Recasts, AsksFor;
    WritesStand(schema, entry, mid, after, tables);
    LossyStays(mid, after, |before|, PlannedCasts(entry), entry);
    var lo, hi := |before|, |mid|;
    forall i | lo <= i < |after| ensures Certified(after, lo, i) {
      ComponentStatement(schema, entry, lo, hi, after, i);
    }
  }

  /** What was asked about and not refused loses nothing of what stands there. */
  lemma ProbesCertify(k: Casts<string>, data: Data, raises: nat -> bool, schema: string, entry: Component,
                      trail: seq<Statement>, lo: nat)
    requires AsksFrom(trail, lo, schema, entry, PlannedCasts(entry)) && Truthful(k, data, raises, trail, lo)
    requires LossyOf(trail, lo, PlannedCasts(entry), entry) == []
    ensures EntrySurvives(k, data, schema, entry)
  {
    hide LossyOf, PlannedCasts, Refuses, CountsOf, ValuesAt;
    forall x | Recasts(entry, x)
      ensures Survives(k, entry[x.table][x.name], IsNumber(entry[x.table][x.name]), ValuesAt(data, schema, x))
    {
      var target := entry[x.table][x.name];
      var hi := lo + |PlannedCasts(entry)|;
      CastAsked(trail, schema, lo, hi, entry, x);
      var n :| lo <= n < hi && AsksFor(trail[n], schema, x, target) && !Refuses(trail[n].answer, target);
      RaisedRefuses(target);
      RefusesExactly(k, target, ValuesAt(data, schema, x));
    }
  }

  lemma RaisedRefuses(target: string)
    ensures Refuses(Raised, target)
  {}

  /** Where nothing fails and no cast loses anything, the probes of a component refuse nothing. */
  lemma HarmlessProbes(w: Warehouse, trail: seq<Statement>, lo: nat)
    requires Harmless(w) && Truthful(w.k, w.data, w.raises, trail, lo)
    ensures Smooth(w.raises, lo, trail)
  {
    hide Refuses, CountsOf, ValuesAt;
    forall i | lo <= i < |trail| ensures trail[i].Asked? ==> !Refuses(trail[i].answer, trail[i].target) {
      if trail[i].Asked? {
        RefusesExactly(w.k, trail[i].target, ValuesAt(w.data, trail[i].schema, trail[i].column));
      }
    }
  }

  lemma SmoothMore(raises: nat -> bool, from: nat, mid: seq<Statement>, trail: seq<Statement>)
    requires from <= |mid| && mid <= trail
    ensures Smooth(raises, from, trail) <==> Smooth(raises, from, mid) && Smooth(raises, |mid|, trail)
  {
    hide Refuses;
    if Smooth(raises, from, trail) {
      forall i | from <= i < |mid| ensures !raises(i) && (mid[i].Asked? ==> !Refuses(mid[i].answer, mid[i].target)) {
        assert mid[i] == trail[i];
      }
    }
    if Smooth(raises, from, mid) && Smooth(raises, |mid|, trail) {
      forall i | from <= i < |trail|
        ensures !raises(i) && (trail[i].Asked? ==> !Refuses(trail[i].answer, trail[i].target))
      {
        if i < |mid| { assert mid[i] == trail[i]; }
      }
    }
  }

  /** A smooth component is probed with nothing lossy. */
  lemma SmoothIsLossless(raises: nat -> bool, trail: seq<Statement>, lo: nat, schema: string, entry: Component)
    requires AsksFrom(trail, lo, schema, entry, PlannedCasts(entry)) && Smooth(raises, lo, trail)
    ensures LossyOf(trail, lo, PlannedCasts(entry), entry) == []
  {
    hide LossyOf, PlannedCasts, Refuses, Aim;
    var casts := PlannedCasts(entry);
    NothingLossy(trail, lo, casts, entry);
    forall k | 0 <= k < |casts| ensures !Refuses(Said(trail, lo + k), Aim(entry, casts[k])) {
      assert AsksFor(trail[lo + k], schema, casts[k], Aim(entry, casts[k]));
    }
  }

  lemma OthersCertified(trail: seq<Statement>, from: nat, i: nat)
    requires i < |trail| && !trail[i].Recreated?
    ensures Certified(trail, from, i)
  {}

  function WrittenBy(reports: seq<Report>): seq<set<string>> {
    seq(|reports|, i requires 0 <= i < |reports| => reports[i].Written())
  }

  /** One report a planned component, each accounting for its component's tables. */
  ghost predicate Reports(plan: seq<Component>, reports: seq<Report>) {
    && |reports| == |plan|
    && forall i :: 0 <= i < |plan| && reports[i].Attempted? ==> Accounts(plan[i], reports[i].outcome)
  }

  lemma PlannedColumnsKnown(foreign: seq<ForeignKey>, types: Types, i: nat, x: Column)
    requires i < |Plan(foreign, types)| && Recasts(Plan(foreign, types)[i], x)
    ensures x in types
  {
    PlanIsLaid(foreign, types);
    EntryExactly(Behind(Known(foreign, types), types)[i], types, x);
  }

  lemma ReplayNext(types: Types, plan: seq<Component>, written: seq<set<string>>, entry: Component, more: set<string>)
    requires |plan| == |written|
    ensures Replay(types, plan + [entry], written + [more]) == Rewrite(Replay(types, plan, written), entry, more)
  {
    var p, q := plan + [entry], written + [more];
    assert p[..|p| - 1] == plan && q[..|p| - 1] == written;
  }

  /** Probe, then rewrite, one component: skipped exactly if the probe lists anything. No value is lost by it. */
  method AlignComponent(w: Warehouse, schema: string, entry: Component) returns (r: Report)
    requires forall x :: Recasts(entry, x) ==> x in w.Schema(schema)
    modifies w
    ensures old(w.trail) <= w.trail && ProbedFrom(w.trail, schema, |old(w.trail)|, entry, r)
    ensures AllCertified(|old(w.trail)|, w.trail) && Preserves(w.k, old(w.data), w.data)
    ensures r.Attempted? ==> Accounts(entry, r.outcome)
    ensures Smooth(w.raises, |old(w.trail)|, w.trail) ==> r.Attempted? && r.Written() == entry.Keys
    ensures Harmless(w) ==> Smooth(w.raises, |old(w.trail)|, w.trail)
    ensures Changed(old(w.schemas), schema, Rewrite(old(w.Schema(schema)), entry, r.Written()), w.schemas)
  {
    hide PlannedCasts, LossyOf, Rewrite, CastRows, Refuses, WroteAt, AllCertified, ReadsThenWrites, Accounts, Preserves,
         EntrySurvives, Smooth, Truthful, AsksFrom, Survives;
    RewriteNone(w.Schema(schema), entry);
    ghost var before, data := w.trail, w.data;
    var lossy := ProbeComponent(w, schema, entry);
    ghost var mid := w.trail;
    if Harmless(w) { HarmlessProbes(w, mid, |before|); }
    if lossy != [] {
      Unwritten(schema, entry, before, mid);
      PreservesNothing(w.k, data);
      if Smooth(w.raises, |before|, mid) { SmoothIsLossless(w.raises, mid, |before|, schema, entry); }
      return Skipped(lossy);
    }
    var o := ApplyComponent(w, schema, entry);
    r := Attempted(o);
    AttemptsPlanned(entry, o);
    ComponentCertified(schema, entry, before, mid, w.trail, o.Attempts());
    ProbesCertify(w.k, data, w.raises, schema, entry, mid, |before|);
    EntryPreserves(w.k, data, schema, entry, o.Written(), w.data);
    ApplySmooth(w.raises, schema, entry, before, mid, w.trail, o.Attempts());
    if Harmless(w) { assert forall n :: !w.raises(n); }
    if o.Wrote? && o.failed.None? { WroteAll(entry, o); }
  }

  /** The probes alone. */
  lemma Unwritten(schema: string, entry: Component, before: seq<Statement>, mid: seq<Statement>)
    requires before <= mid && |mid| == |before| + |PlannedCasts(entry)|
    requires AsksFrom(mid, |before|, schema, entry, PlannedCasts(entry))
    ensures AllCertified(|before|, mid)
  {
    hide PlannedCasts, Aim;
    forall i | |before| <= i < |mid| ensures !mid[i].Recreated? {
      var k := i - |before|;
      assert AsksFor(mid[|before| + k], schema, PlannedCasts(entry)[k], Aim(entry, PlannedCasts(entry)[k]));
    }
    NothingWritten(|before|, mid);
  }

  /** Reads and rewrites are smooth where none of them raises; and if the whole is, none of them does. */
  lemma ApplySmooth(raises: nat -> bool, schema: string, entry: Component, before: seq<Statement>, mid: seq<Statement>,
                    after: seq<Statement>, tables: seq<string>)
    requires before <= mid && ReadsThenWrites(schema, entry, mid, after, tables)
    ensures Smooth(raises, |before|, after) ==> forall n: nat :: |mid| <= n < |after| ==> !raises(n)
    ensures Smooth(raises, |before|, mid) && (forall n: nat :: |mid| <= n < |after| ==> !raises(n)) ==>
              Smooth(raises, |before|, after)
  {
    hide Refuses;
    var read :| OnlyReads(mid, read) && after == read + WritesOf(schema, entry, tables);
    forall i | |mid| <= i < |after| ensures !after[i].Asked? {}
    SmoothMore(raises, |before|, mid, after);
  }

  lemma AttemptsPlanned(entry: Component, o: Outcome)
    requires Accounts(entry, o)
    ensures forall t :: t in o.Attempts() ==> t in entry
    ensures forall t :: t in o.Written() ==> t in o.Attempts()
  {
    if o.Wrote? {
      var all := o.Attempts() + o.unattempted;
      assert all == Tables(entry);
      forall t | t in o.Attempts() ensures t in entry { assert t in all; }
    }
  }

  lemma WroteAll(entry: Component, o: Outcome)
    requires Accounts(entry, o) && o.Wrote? && o.failed.None?
    ensures o.Written() == entry.Keys
  {
    StringOrder();
    assert o.written == Tables(entry);
  }

  ghost predicate Doable(plan: seq<Component>, types: Types) {
    forall i, x :: 0 <= i < |plan| && Recasts(plan[i], x) ==> x in types
  }

  /** Each component in turn; the types end where replaying the reports puts them. */
  method AlignEntries(w: Warehouse, schema: string, plan: seq<Component>, ghost types: Types)
    returns (reports: seq<Report>)
    requires types == w.Schema(schema) && Doable(plan, types)
    modifies w
    ensures Reports(plan, reports) && old(w.trail) <= w.trail && AllCertified(|old(w.trail)|, w.trail)
    ensures Preserves(w.k, old(w.data), w.data)
    ensures EachProbed(w.trail, schema, |old(w.trail)|, plan, reports)
    ensures Smooth(w.raises, |old(w.trail)|, w.trail) ==> WrittenBy(reports) == Everything(plan)
    ensures Harmless(w) ==> Smooth(w.raises, |old(w.trail)|, w.trail)
    ensures Changed(old(w.schemas), schema, Replay(types, plan, WrittenBy(reports)), w.schemas)
  {
    hide Accounts, Rewrite, Harmless, Smooth, LossyOf, ProbedFrom, PlannedCasts, EachProbed, AllCertified, Preserves;
    reports := [];
    NoneProbed(w.trail, schema, |w.trail|);
    NothingWritten(|w.trail|, w.trail);
    PreservesNothing(w.k, w.data);
    NothingSent(w.raises, w.trail);
    assert plan[..0] == [];
    ghost var written: seq<set<string>> := [];
    for i := 0 to |plan|
      invariant Reports(plan[..i], reports) && |written| == i && written == WrittenBy(reports)
      invariant Smooth(w.raises, |old(w.trail)|, w.trail) ==> forall k :: 0 <= k < i ==> written[k] == plan[k].Keys
      invariant Harmless(w) ==> Smooth(w.raises, |old(w.trail)|, w.trail)
      invariant Preserves(w.k, old(w.data), w.data)
      invariant old(w.trail) <= w.trail && AllCertified(|old(w.trail)|, w.trail)
      invariant EachProbed(w.trail, schema, |old(w.trail)|, plan[..i], reports)
      invariant Changed(old(w.schemas), schema, Replay(types, plan[..i], written), w.schemas)
    {
      ghost var mid, data := w.trail, w.data;
      var r := AlignComponent(w, schema, plan[i]);
      SmoothMore(w.raises, |old(w.trail)|, mid, w.trail);
      PreservesOn(w.k, old(w.data), data, w.data);
      EachProbedMore(|old(w.trail)|, mid, w.trail, schema, plan[..i], reports, plan[i], r);
      CertifiedMore(|old(w.trail)|, mid, w.trail);
      ReplayNext(types, plan[..i], written, plan[i], r.Written());
      assert plan[..i + 1] == plan[..i] + [plan[i]];
      reports, written := reports + [r], written + [r.Written()];
    }
    assert plan[..|plan|] == plan;
  }

  lemma NothingSent(raises: nat -> bool, trail: seq<Statement>)
    ensures Smooth(raises, |trail|, trail)
  {}

  /** One schema's plan and what became of each of its components. */
  datatype SchemaReport = SchemaReport(plan: seq<Component>, reports: seq<Report>) {
    ghost predicate Complete() { Reports(plan, reports) }

    /** What the reports leave of the types they were made on. */
    ghost function Effect(types: Types): Types {
      if |reports| == |plan| then Replay(types, plan, WrittenBy(reports)) else types
    }

    /** Every planned table of every component was rewritten. */
    ghost predicate Whole() { WrittenBy(reports) == Everything(plan) }

    /** Every component was probed whole before anything of it was written. */
    ghost predicate AllProbed(trail: seq<Statement>, schema: string, from: nat) {
      EachProbed(trail, schema, from, plan, reports)
    }

    /** Some component has some, but not all, of its planned tables rewritten. */
    ghost predicate Broken()
      requires Complete()
    {
      exists i :: 0 <= i < |plan| && Partial(plan[i], reports[i].Written())
    }
  }

  ghost predicate Partial(entry: Component, written: set<string>) {
    written != {} && written != entry.Keys
  }

  /** Every component the schema's keys plan. */
  method AlignSchema(w: Warehouse, schema: string, foreign: seq<ForeignKey>, types: Types) returns (r: SchemaReport)
    requires types == w.Schema(schema)
    modifies w
    ensures r.plan == Plan(foreign, types) && r.Complete()
    ensures old(w.trail) <= w.trail && r.AllProbed(w.trail, schema, |old(w.trail)|)
    ensures AllCertified(|old(w.trail)|, w.trail) && Preserves(w.k, old(w.data), w.data)
    ensures Smooth(w.raises, |old(w.trail)|, w.trail) ==> r.Whole()
    ensures Harmless(w) ==> Smooth(w.raises, |old(w.trail)|, w.trail)
    ensures Changed(old(w.schemas), schema, r.Effect(types), w.schemas)
  {
    hide Plan, Accounts, Harmless, Smooth, EachProbed, AllCertified, Preserves;
    var plan := PlanRecasts(foreign, types);
    forall i, x | 0 <= i < |plan| && Recasts(plan[i], x) ensures x in types {
      PlannedColumnsKnown(foreign, types, i, x);
    }
    var reports := AlignEntries(w, schema, plan, types);
    r := SchemaReport(plan, reports);
  }

  // ----- main: the whole run -----

  datatype Database = Database(id: string, foreign: seq<ForeignKey>) {
    function Schema(): string { Upper(id) }
  }

  /** How the run ends: on an error reading a schema's types, or with an exit status. */
  datatype Ending = Crashed | Exited(status: int, schemas: seq<SchemaReport>)

  method AnySplit(r: SchemaReport) returns (split: bool)
    requires r.Complete()
    ensures split <==> r.Broken()
  {
    split := false;
    for i := 0 to |r.plan|
      invariant split <==> exists k :: 0 <= k < i && Partial(r.plan[k], r.reports[k].Written())
    {
      SplitReport(r.plan[i], r.reports[i]);
      if r.reports[i].Split() {
        split := true;
      }
    }
  }

  lemma SplitReport(entry: Component, r: Report)
    requires r.Attempted? ==> Accounts(entry, r.outcome)
    ensures r.Split() <==> Partial(entry, r.Written())
  {
    hide Accounts;
    if r.Attempted? { SplitIsPartial(entry, r.outcome); }
  }

  lemma NoKeysNoPlan(types: Types)
    ensures Plan([], types) == []
  {
    ColumnOrder();
    assert Known([], types) == {};
    assert Busy({}, types) == {};
  }

  /** The schemas after the reports so far: each database's replayed on its schema, in order. */
  ghost function Staged(before: Schemas, databases: seq<Database>, done: seq<SchemaReport>): Schemas
    requires |done| <= |databases|
    decreases |done|
  {
    if done == [] then before
    else
      var n := |done| - 1;
      var mid, s := Staged(before, databases, done[..n]), databases[n].Schema();
      mid[s := done[n].Effect(At(mid, s))]
  }

  /** Each report is of the plan its database's keys gave on the schema as the databases before had left it. */
  ghost predicate Planned(before: Schemas, databases: seq<Database>, done: seq<SchemaReport>, d: nat)
    requires d < |done| <= |databases|
  {
    done[d].Complete() &&
    done[d].plan == Plan(databases[d].foreign, At(Staged(before, databases, done[..d]), databases[d].Schema()))
  }

  /** What the run has done: its reports, and schemas that stand where replaying them in order puts them. */
  ghost predicate Carried(before: Schemas, databases: seq<Database>, done: seq<SchemaReport>, now: Schemas)
    requires |done| <= |databases|
  {
    (forall d :: 0 <= d < |done| ==> Planned(before, databases, done, d)) &&
    forall s :: At(now, s) == At(Staged(before, databases, done), s)
  }

  lemma NothingCarried(before: Schemas, databases: seq<Database>)
    ensures Carried(before, databases, [], before)
  {}

  lemma CarriedOn(before: Schemas, databases: seq<Database>, done: seq<SchemaReport>, mid: Schemas, r: SchemaReport,
                  now: Schemas)
    requires |done| < |databases| && Carried(before, databases, done, mid)
    requires var s := databases[|done|].Schema();
             r.Complete() && r.plan == Plan(databases[|done|].foreign, At(mid, s)) &&
             Changed(mid, s, r.Effect(At(mid, s)), now)
    ensures Carried(before, databases, done + [r], now)
  {
    hide Plan, Replay, Reports, WrittenBy, SchemaReport.Effect;
    var more := done + [r];
    assert more[..|done|] == done;
    forall d | 0 <= d < |more| ensures Planned(before, databases, more, d) {
      if d < |done| { assert Planned(before, databases, done, d) && more[..d] == done[..d]; }
    }
  }

  /** The status is 1 exactly when some component was left partly rewritten; a run in which nothing fails rewrites all
      it planned; and however it ends, no value is lost or rounded. */
  method AlignAll(w: Warehouse, databases: seq<Database>) returns (ending: Ending)
    modifies w
    ensures ending.Crashed? ==> exists n :: w.raises(n)
    ensures old(w.trail) <= w.trail && AllCertified(|old(w.trail)|, w.trail)
    ensures Preserves(w.k, old(w.data), w.data)
    ensures Smooth(w.raises, |old(w.trail)|, w.trail) ==>
              ending.Exited? && forall r :: r in ending.schemas ==> r.Whole()
    ensures Harmless(w) ==> Smooth(w.raises, |old(w.trail)|, w.trail)
    ensures ending.Exited? ==>
      && |ending.schemas| == |databases|
      && (forall d :: 0 <= d < |databases| ==> ending.schemas[d].Complete())
      && ending.status == (if exists d :: 0 <= d < |databases| && ending.schemas[d].Broken() then 1 else 0)
      && (forall d :: 0 <= d < |databases| ==>
          ending.schemas[d].AllProbed(w.trail, databases[d].Schema(), |old(w.trail)|))
      && Carried(old(w.schemas), databases, ending.schemas, w.schemas)
  {
    hide Plan, Replay, Reports, WrittenBy, At, SchemaReport.Broken, SchemaReport.Whole, SchemaReport.Effect, Refuses,
         Planned, Staged, EachProbed, Carried, AllCertified, Preserves, Smooth, Harmless;
    NothingWritten(|w.trail|, w.trail);
    NothingCarried(w.schemas, databases);
    PreservesNothing(w.k, w.data);
    NothingSent(w.raises, w.trail);
    var split := false;
    var done: seq<SchemaReport> := [];
    for d := 0 to |databases|
      invariant |done| == d && forall c :: 0 <= c < d ==> done[c].Complete()
      invariant split <==> exists c :: 0 <= c < d && done[c].Broken()
      invariant old(w.trail) <= w.trail && AllCertified(|old(w.trail)|, w.trail)
      invariant Preserves(w.k, old(w.data), w.data)
      invariant forall c :: 0 <= c < d ==> done[c].AllProbed(w.trail, databases[c].Schema(), |old(w.trail)|)
      invariant Carried(old(w.schemas), databases, done, w.schemas)
      invariant Smooth(w.raises, |old(w.trail)|, w.trail) ==> forall r :: r in done ==> r.Whole()
      invariant Harmless(w) ==> Smooth(w.raises, |old(w.trail)|, w.trail)
    {
      var db := databases[d];
      ghost var mid, before, data := w.schemas, w.trail, w.data;
      var r;
      if db.foreign == [] {
        r := SchemaReport([], []);
        NoKeys(mid, db.Schema());
        NoneProbed(w.trail, db.Schema(), |old(w.trail)|);
      } else {
        var types := w.ReadTypes(db.Schema());
        ghost var start := w.trail;
        ReadSent(w, |old(w.trail)|, before, start, db.Schema());
        if types.None? {
          return Crashed;
        }
        r := AlignSchema(w, db.Schema(), db.foreign, types.value);
        EachProbedStays(w.trail, w.trail, db.Schema(), |start|, |old(w.trail)|, r.plan, r.reports);
        CertifiedMore(|old(w.trail)|, start, w.trail);
        SmoothMore(w.raises, |old(w.trail)|, start, w.trail);
        PreservesOn(w.k, old(w.data), data, w.data);
      }
      var s := AnySplit(r);
      CarriedOn(old(w.schemas), databases, done, mid, r, w.schemas);
      forall c | 0 <= c < d ensures done[c].AllProbed(w.trail, databases[c].Schema(), |old(w.trail)|) {
        EachProbedStays(before, w.trail, databases[c].Schema(), |old(w.trail)|, |old(w.trail)|,
                        done[c].plan, done[c].reports);
      }
      split := split || s;
      ghost var was := done;
      done := done + [r];
      assert done[d] == r && forall c :: 0 <= c < d ==> done[c] == was[c];
    }
    return Exited(if split then 1 else 0, done);
  }

  /** A read of a schema's types writes nothing, and is smooth unless it raises. */
  lemma ReadSent(w: Warehouse, from: nat, before: seq<Statement>, start: seq<Statement>, schema: string)
    requires start == before + [TypesRead(schema)] && from <= |before| && AllCertified(from, before)
    ensures AllCertified(from, start)
    ensures Smooth(w.raises, from, start) <==> Smooth(w.raises, from, before) && !w.raises(|before|)
    ensures Harmless(w) ==> !w.raises(|before|)
  {
    hide Refuses;
    NothingWritten(|before|, start);
    CertifiedMore(from, before, start);
    SmoothMore(w.raises, from, before, start);
  }

  lemma NoKeys(schemas: Schemas, s: string)
    ensures var r := SchemaReport([], []);
            r.Complete() && r.Whole() && !r.Broken() && r.plan == Plan([], At(schemas, s)) &&
            Changed(schemas, s, r.Effect(At(schemas, s)), schemas)
  {
    NoKeysNoPlan(At(schemas, s));
  }

  // ----- what an exit status of 0 promises -----

  ghost predicate Agrees(types: Types, k: ForeignKey) {
    k.Child() in types && k.Parent() in types && types[k.Child()] == types[k.Parent()]
  }

  lemma WholeOrNot(r: SchemaReport)
    requires r.Complete() && !r.Broken()
    ensures Whole(r.plan, WrittenBy(r.reports))
  {
    hide Accounts;
    forall i | 0 <= i < |r.plan| ensures WrittenBy(r.reports)[i] == {} || WrittenBy(r.reports)[i] == r.plan[i].Keys {
      assert !Partial(r.plan[i], r.reports[i].Written());
    }
  }

  /** Writing one database's components whole or not at all keeps the agreement of that database's keys. */
  lemma EffectKeeps(foreign: seq<ForeignKey>, types: Types, r: SchemaReport, k: ForeignKey)
    requires r.Complete() && !r.Broken() && r.plan == Plan(foreign, types) && k in foreign && Agrees(types, k)
    ensures Agrees(r.Effect(types), k)
  {
    hide Plan, Replay, Accounts;
    WholeOrNot(r);
    AgreementKept(foreign, types, WrittenBy(r.reports), k);
  }

  lemma {:induction false} StagedElsewhere(before: Schemas, databases: seq<Database>, done: seq<SchemaReport>, d: nat,
                                           s: string)
    requires d <= |done| <= |databases| && forall c :: d <= c < |done| ==> databases[c].Schema() != s
    ensures At(Staged(before, databases, done), s) == At(Staged(before, databases, done[..d]), s)
    decreases |done|
  {
    hide SchemaReport.Effect;
    if d < |done| {
      var front := done[..|done| - 1];
      StagedElsewhere(before, databases, front, d, s);
      assert front[..d] == done[..d];
    } else {
      assert done[..d] == done;
    }
  }

  lemma StagedNext(before: Schemas, databases: seq<Database>, done: seq<SchemaReport>, d: nat)
    requires d < |done| <= |databases|
    ensures var mid, s := Staged(before, databases, done[..d]), databases[d].Schema();
            Staged(before, databases, done[..d + 1]) == mid[s := done[d].Effect(At(mid, s))]
  {
    hide SchemaReport.Effect;
    assert done[..d + 1][..d] == done[..d];
  }

  /** No two names fold to one schema. */
  ghost predicate Apart(ids: seq<string>) { forall c, d :: 0 <= c < d < |ids| ==> Upper(ids[c]) != Upper(ids[d]) }

  type Keys = map<string, seq<ForeignKey>>

  function Databases(ids: seq<string>, keys: Keys): (ds: seq<Database>)
    ensures |ds| == |ids|
    ensures forall d :: 0 <= d < |ds| ==> ds[d] == Database(ids[d], if ids[d] in keys then keys[ids[d]] else [])
  {
    seq(|ids|, d requires 0 <= d < |ids| => Database(ids[d], if ids[d] in keys then keys[ids[d]] else []))
  }

  /** A run over these databases ended with status 0: it met these schemas and left those. */
  ghost predicate EndsWell(ids: seq<string>, keys: Keys, before: Schemas, done: seq<SchemaReport>, now: Schemas) {
    |done| == |ids| && Carried(before, Databases(ids, keys), done, now) &&
    forall d :: 0 <= d < |done| ==> done[d].Complete() && !done[d].Broken()
  }

  /** Every key whose columns agreed before has columns that agree after. */
  ghost predicate KeepsAgreement(ids: seq<string>, keys: Keys, before: Schemas, now: Schemas) {
    forall d, k :: 0 <= d < |ids| && k in Databases(ids, keys)[d].foreign && Agrees(At(before, Upper(ids[d])), k) ==>
                     Agrees(At(now, Upper(ids[d])), k)
  }

  /** Status 0 keeps agreement, whatever the keys, the types and the faults. */
  ghost predicate StatusZeroKeeps(ids: seq<string>) {
    forall keys, before, done, now :: EndsWell(ids, keys, before, done, now) ==> KeepsAgreement(ids, keys, before, now)
  }

  /** With a schema each, a database's schema is as it was found until its turn, and as it left it after. */
  lemma OwnTurn(before: Schemas, ids: seq<string>, keys: Keys, done: seq<SchemaReport>, now: Schemas, d: nat)
    requires Apart(ids) && |done| == |ids| && Carried(before, Databases(ids, keys), done, now) && d < |ids|
    ensures var s := Upper(ids[d]);
            done[d].Complete() && done[d].plan == Plan(Databases(ids, keys)[d].foreign, At(before, s)) &&
            At(now, s) == done[d].Effect(At(before, s))
  {
    hide Plan, Replay, Reports, WrittenBy, SchemaReport.Effect;
    var ds, s := Databases(ids, keys), Upper(ids[d]);
    assert Planned(before, ds, done, d);
    StagedNext(before, ds, done, d);
    assert done[..d][..0] == [] && Staged(before, ds, []) == before;
    StagedElsewhere(before, ds, done[..d], 0, s);
    StagedElsewhere(before, ds, done, d + 1, s);
  }

  /** Exit status 0, where no two names fold together: every key that agreed before the run agrees after. */
  lemma StatusZeroKeepsAgreement(ids: seq<string>, keys: Keys, before: Schemas, done: seq<SchemaReport>, now: Schemas)
    requires Apart(ids) && EndsWell(ids, keys, before, done, now)
    ensures KeepsAgreement(ids, keys, before, now)
  {
    hide Plan, Replay, Reports, WrittenBy, SchemaReport.Effect, SchemaReport.Broken, Carried;
    forall d, k | 0 <= d < |ids| && k in Databases(ids, keys)[d].foreign && Agrees(At(before, Upper(ids[d])), k)
      ensures Agrees(At(now, Upper(ids[d])), k)
    {
      OwnTurn(before, ids, keys, done, now, d);
      EffectKeeps(Databases(ids, keys)[d].foreign, At(before, Upper(ids[d])), done[d], k);
    }
  }

  // ----- names that fold together -----

  /** A database that plans nothing leaves every schema as it found it. */
  lemma NothingPlanned(before: Schemas, databases: seq<Database>, done: seq<SchemaReport>, d: nat, s: string)
    requires d < |done| <= |databases| && done[d].plan == []
    ensures At(Staged(before, databases, done[..d + 1]), s) == At(Staged(before, databases, done[..d]), s)
  {
    StagedNext(before, databases, done, d);
  }

  lemma {:induction false} NothingPlannedFrom(before: Schemas, databases: seq<Database>, done: seq<SchemaReport>,
                                              d: nat, e: nat, s: string)
    requires d <= e <= |done| <= |databases|
    requires forall c :: d <= c < e ==> done[c].plan == []
    ensures At(Staged(before, databases, done[..e]), s) == At(Staged(before, databases, done[..d]), s)
    decreases e
  {
    if d < e {
      NothingPlannedFrom(before, databases, done, d, e - 1, s);
      NothingPlanned(before, databases, done, e - 1, s);
    }
  }

  /** The input: two databases of one schema, each with one key, over two texts and a number. */
  function FoldedKeys(i: string, j: string): Keys { map[i := [FIRST_KEY], j := [SECOND_KEY]] }

  function FoldedSchemas(i: string): Schemas { map[Upper(i) := SharedTypes()] }

  lemma PlansBefore(ids: seq<string>, i: nat, j: nat, done: seq<SchemaReport>, c: nat)
    requires i < j < |ids| && Distinct(ids) && Upper(ids[i]) == Upper(ids[j]) && |done| == |ids|
    requires var ds, before := Databases(ids, FoldedKeys(ids[i], ids[j])), FoldedSchemas(ids[i]);
             forall d :: 0 <= d < |done| ==> Planned(before, ds, done, d)
    requires c < |ids| && c != i && c != j
    ensures done[c].plan == []
  {
    hide Plan, Replay, Staged;
    var ds, before := Databases(ids, FoldedKeys(ids[i], ids[j])), FoldedSchemas(ids[i]);
    assert Planned(before, ds, done, c) && ids[c] != ids[i] && ids[c] != ids[j];
    NoKeysNoPlan(At(Staged(before, ds, done[..c]), ds[c].Schema()));
  }

  /** Where two names fold together, a run that rewrites all it plans parts the first key's columns. */
  lemma FoldedRunBreaks(ids: seq<string>, i: nat, j: nat, done: seq<SchemaReport>, now: Schemas)
    requires i < j < |ids| && Distinct(ids) && Upper(ids[i]) == Upper(ids[j]) && |done| == |ids|
    requires Carried(FoldedSchemas(ids[i]), Databases(ids, FoldedKeys(ids[i], ids[j])), done, now)
    requires forall d :: 0 <= d < |done| ==> done[d].Whole()
    ensures !KeepsAgreement(ids, FoldedKeys(ids[i], ids[j]), FoldedSchemas(ids[i]), now)
  {
    hide Plan, Replay, SharedTypes, Reports, Staged;
    var keys, before, s := FoldedKeys(ids[i], ids[j]), FoldedSchemas(ids[i]), Upper(ids[i]);
    var ds := Databases(ids, keys);
    assert ids[i] != ids[j];
    forall c | 0 <= c < |ids| && c != i && c != j ensures done[c].plan == [] { PlansBefore(ids, i, j, done, c); }
    SharedSchemaBreaksAgreement();
    assert done[..0] == [] && done[..|done|] == done;
    NothingStaged(before, ds);
    NothingPlannedFrom(before, ds, done, 0, i, s);
    assert Planned(before, ds, done, i) && done[i].plan == [];
    NothingPlannedFrom(before, ds, done, i, j, s);
    assert Planned(before, ds, done, j);
    StagedNext(before, ds, done, j);
    NothingPlannedFrom(before, ds, done, j + 1, |ids|, s);
    assert FIRST_KEY in ds[i].foreign && Agrees(At(before, s), FIRST_KEY) && !Agrees(At(now, s), FIRST_KEY);
  }

  lemma NothingStaged(before: Schemas, databases: seq<Database>)
    ensures Staged(before, databases, []) == before
  {}

  /** What a run in which nothing fails reports of one schema. */
  ghost function WholeReport(foreign: seq<ForeignKey>, types: Types): SchemaReport {
    var plan := Plan(foreign, types);
    SchemaReport(plan, seq(|plan|, i requires 0 <= i < |plan| => Attempted(Wrote(Tables(plan[i]), None, []))))
  }

  lemma WholeReportIsWhole(foreign: seq<ForeignKey>, types: Types)
    ensures var r := WholeReport(foreign, types); r.Complete() && r.Whole()
  {
    hide Plan;
    var r := WholeReport(foreign, types);
    forall i | 0 <= i < |r.plan| ensures r.reports[i].Written() == r.plan[i].Keys {
      WroteAll(r.plan[i], r.reports[i].outcome);
    }
  }

  lemma WholeIsNotBroken(r: SchemaReport)
    requires r.Complete() && r.Whole()
    ensures !r.Broken()
  {
    forall i | 0 <= i < |r.plan| ensures !Partial(r.plan[i], r.reports[i].Written()) {
      assert WrittenBy(r.reports)[i] == Everything(r.plan)[i];
    }
  }

  lemma {:induction false} WholeRun(before: Schemas, databases: seq<Database>, n: nat) returns (done: seq<SchemaReport>)
    requires n <= |databases|
    ensures |done| == n && Carried(before, databases, done, Staged(before, databases, done))
    ensures forall d :: 0 <= d < n ==> done[d].Whole()
  {
    hide Plan, Replay, Reports, WrittenBy, SchemaReport.Effect, SchemaReport.Whole, WholeReport;
    done := [];
    if n > 0 {
      var front := WholeRun(before, databases, n - 1);
      var mid, s := Staged(before, databases, front), databases[n - 1].Schema();
      var r := WholeReport(databases[n - 1].foreign, At(mid, s));
      WholeReportIsWhole(databases[n - 1].foreign, At(mid, s));
      assert r.plan == Plan(databases[n - 1].foreign, At(mid, s)) by {
        PlanOfWhole(databases[n - 1].foreign, At(mid, s));
      }
      done := front + [r];
      assert done[..n - 1] == front;
      CarriedOn(before, databases, front, mid, r, mid[s := r.Effect(At(mid, s))]);
    }
  }

  lemma PlanOfWhole(foreign: seq<ForeignKey>, types: Types)
    ensures WholeReport(foreign, types).plan == Plan(foreign, types)
  {}

  /** Status 0 keeps agreement, for all keys, types and faults, exactly when no two of the names fold to one schema. */
  lemma StatusZeroKeepsExactlyWhen(ids: seq<string>)
    requires Distinct(ids)
    ensures StatusZeroKeeps(ids) <==> Apart(ids)
  {
    hide Carried, KeepsAgreement, SchemaReport.Broken, SchemaReport.Whole, FoldedKeys, FoldedSchemas, Staged;
    if Apart(ids) {
      forall keys, before, done, now | EndsWell(ids, keys, before, done, now)
        ensures KeepsAgreement(ids, keys, before, now)
      {
        StatusZeroKeepsAgreement(ids, keys, before, done, now);
      }
    } else {
      var i, j :| 0 <= i < j < |ids| && Upper(ids[i]) == Upper(ids[j]);
      var keys, before := FoldedKeys(ids[i], ids[j]), FoldedSchemas(ids[i]);
      var done := WholeRun(before, Databases(ids, keys), |ids|);
      var now := Staged(before, Databases(ids, keys), done);
      forall d | 0 <= d < |done| ensures done[d].Complete() && !done[d].Broken() {
        CompleteOne(before, Databases(ids, keys), done, now, d);
        WholeIsNotBroken(done[d]);
      }
      FoldedRunBreaks(ids, i, j, done, now);
      assert EndsWell(ids, keys, before, done, now);
    }
  }

  lemma CompleteOne(before: Schemas, databases: seq<Database>, done: seq<SchemaReport>, now: Schemas, d: nat)
    requires d < |done| <= |databases| && Carried(before, databases, done, now)
    ensures done[d].Complete()
  {
    assert Planned(before, databases, done, d);
  }

  /** That input run: nothing fails, the status is 0, and a key that agreed no longer does. */
  method RunFoldedNames(ids: seq<string>, i: nat, j: nat) returns (status: int, now: Schemas)
    requires i < j < |ids| && Distinct(ids) && Upper(ids[i]) == Upper(ids[j])
    ensures status == 0 && !KeepsAgreement(ids, FoldedKeys(ids[i], ids[j]), FoldedSchemas(ids[i]), now)
  {
    hide Carried, KeepsAgreement, SchemaReport.Broken, SchemaReport.Whole, FoldedKeys, FoldedSchemas;
    var w := new Warehouse(FoldedSchemas(ids[i]), map[], Casts((t, v) => Some(v), v => false), (n: nat) => false);
    var databases := Databases(ids, FoldedKeys(ids[i], ids[j]));
    ghost var before := w.schemas;
    var ending := AlignAll(w, databases);
    now := w.schemas;
    forall d | 0 <= d < |databases| ensures ending.schemas[d].Whole() && !ending.schemas[d].Broken() {
      assert ending.schemas[d] in ending.schemas;
      WholeIsNotBroken(ending.schemas[d]);
    }
    FoldedRunBreaks(ids, i, j, ending.schemas, now);
    status := ending.status;
  }

  /** A run in which nothing fails: every key of a component with a numeric member ends at one numeric type. */
  lemma CleanRunAligns(ids: seq<string>, keys: Keys, before: Schemas, done: seq<SchemaReport>, now: Schemas, d: nat,
                       k: ForeignKey)
    requires Apart(ids) && |done| == |ids| && Carried(before, Databases(ids, keys), done, now)
    requires d < |ids| && k in Databases(ids, keys)[d].foreign && done[d].Whole()
    requires var types := At(before, Upper(ids[d]));
             k.Child() in types && k.Parent() in types &&
             var C := Class(Known(Databases(ids, keys)[d].foreign, types), k.Child());
             C <= types.Keys && HasNumeric(C, types)
    ensures var types := At(now, Upper(ids[d])); Agrees(types, k) && Numeric(types[k.Child()])
  {
    hide Plan, Replay, Accounts, Class, Known, HasNumeric, Carried;
    OwnTurn(before, ids, keys, done, now, d);
    NumericKeysAgree(Databases(ids, keys)[d].foreign, At(before, Upper(ids[d])), k);
  }
}
