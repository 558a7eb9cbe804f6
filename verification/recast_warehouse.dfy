/** The warehouse the alignment runs against: its columns' types and values, and the statements it was sent. */
module RecastWarehouse {
  import opened CastCounts
  import opened Characters
  import opened Options
  import opened RecastPlan
  import opened RecastEffect

  /** What a probe comes back with: an error, or the three counts it selects. */
  datatype Answer = Raised | Counts(nonNull: nat, converted: nat, fractional: nat)

  datatype Statement =
    | TypesRead(schema: string)
    | Asked(schema: string, column: Column, target: string, answer: Answer)
    | NamesRead(schema: string, table: string)
    | Recreated(schema: string, table: string, casts: map<string, string>)

  /** A table of columns in each schema. */
  type PerSchema<V> = map<string, map<Column, V>>

  type Schemas = PerSchema<string>

  type Data = PerSchema<Values>

  function At<V>(schemas: PerSchema<V>, name: string): map<Column, V> {
    if name in schemas then schemas[name] else map[]
  }

  /** `now` is `before` except that `schema` stands at `columns`. */
  ghost predicate Changed<V>(before: PerSchema<V>, schema: string, columns: map<Column, V>, now: PerSchema<V>) {
    At(now, schema) == columns && forall s :: s != schema ==> At(now, s) == At(before, s)
  }

  function ValuesAt(data: Data, schema: string, x: Column): Values {
    if x in At(data, schema) then At(data, schema)[x] else []
  }

  /** What a probe of a column's cast to a type counts. */
  function CountsOf(k: Casts<string>, target: string, vs: Values): Answer {
    Counts(CountNonNull(vs), CountConverted(k, target, vs), CountFractional(k, vs))
  }

  /** The values once the tables in `written` have been recreated with the entry's casts. */
  function CastRows(k: Casts<string>, rows: map<Column, Values>, entry: Component, written: set<string>)
    : (next: map<Column, Values>)
    ensures next.Keys == rows.Keys
  {
    map x | x in rows ::
      if x.table in written && Recasts(entry, x) then CastAll(k, entry[x.table][x.name], rows[x]) else rows[x]
  }

  /** The columns' types and values, the statements sent, and the script of what each meets: the `n`-th statement
      raises where `raises(n)`, and one that raises changes nothing. A probe that does not raise counts the values
      as they stand; a rewrite casts them. */
  class Warehouse {
    var schemas: Schemas
    var data: Data
    var trail: seq<Statement>
    const k: Casts<string>
    const raises: nat -> bool

    constructor (schemas: Schemas, data: Data, k: Casts<string>, raises: nat -> bool)
      ensures this.schemas == schemas && this.data == data && trail == [] && this.k == k && this.raises == raises
    {
      this.schemas, this.data, this.k, this.raises := schemas, data, k, raises;
      trail := [];
    }

    function Schema(name: string): Types reads this { At(schemas, name) }

    method ReadTypes(schema: string) returns (types: Option<Types>)
      modifies this`trail
      ensures trail == old(trail) + [TypesRead(schema)]
      ensures types == if raises(|old(trail)|) then None else Some(Schema(schema))
    {
      types := if raises(|trail|) then None else Some(Schema(schema));
      trail := trail + [TypesRead(schema)];
    }

    method Probe(schema: string, column: Column, target: string) returns (answer: Answer)
      modifies this`trail
      ensures trail == old(trail) + [Asked(schema, column, target, answer)]
      ensures answer == if raises(|old(trail)|) then Raised else CountsOf(k, target, ValuesAt(data, schema, column))
    {
      answer := if raises(|trail|) then Raised else CountsOf(k, target, ValuesAt(data, schema, column));
      trail := trail + [Asked(schema, column, target, answer)];
    }

    method ReadNames(schema: string, table: string) returns (names: Option<set<string>>)
      modifies this`trail
      ensures trail == old(trail) + [NamesRead(schema, table)]
      ensures names.None? <==> raises(|old(trail)|)
      ensures names.Some? ==> forall n :: n in names.value <==> Column(table, n) in Schema(schema)
    {
      names := if raises(|trail|) then None else Some(set c | c in Schema(schema) && c.table == table :: c.name);
      trail := trail + [NamesRead(schema, table)];
    }

    /** `CREATE OR REPLACE TABLE`, casting the columns in `casts`. */
    method Recreate(schema: string, table: string, casts: map<string, string>) returns (ok: bool)
      modifies this
      ensures trail == old(trail) + [Recreated(schema, table, casts)] && ok == !raises(|old(trail)|)
      ensures Changed(old(schemas), schema,
                      if ok then Rewrite(At(old(schemas), schema), map[table := casts], {table})
                      else At(old(schemas), schema),
                      schemas)
      ensures Changed(old(data), schema,
                      if ok then CastRows(k, At(old(data), schema), map[table := casts], {table})
                      else At(old(data), schema),
                      data)
    {
      ok := !raises(|trail|);
      if ok {
        schemas := schemas[schema := Rewrite(Schema(schema), map[table := casts], {table})];
        data := data[schema := CastRows(k, At(data, schema), map[table := casts], {table})];
      }
      trail := trail + [Recreated(schema, table, casts)];
    }
  }

  // ----- what a run may do to the values -----

  /** A number, by the name of its type. */
  predicate IsNumber(target: string) { |target| >= 6 && Upper(target[..6]) == "NUMBER" }

  /** A column's values after are those before, cast in turn with nothing lost and nothing rounded. */
  ghost predicate KeptAs(k: Casts<string>, before: Data, after: Data, schema: string, x: Column) {
    exists chain :: Carries(k, IsNumber, chain, ValuesAt(before, schema, x), ValuesAt(after, schema, x))
  }

  ghost predicate Preserves(k: Casts<string>, before: Data, after: Data) {
    forall schema, x :: KeptAs(k, before, after, schema, x)
  }

  /** No value present before is NULL after, in any column of any schema. */
  lemma PreservedIsThere(k: Casts<string>, before: Data, after: Data, schema: string, x: Column)
    requires Preserves(k, before, after)
    ensures var a, b := ValuesAt(before, schema, x), ValuesAt(after, schema, x);
            |b| == |a| && forall i :: 0 <= i < |a| ==> (a[i].Some? <==> b[i].Some?)
  {
    assert KeptAs(k, before, after, schema, x);
    var chain :| Carries(k, IsNumber, chain, ValuesAt(before, schema, x), ValuesAt(after, schema, x));
    CarriedIsThere(k, IsNumber, chain, ValuesAt(before, schema, x), ValuesAt(after, schema, x));
  }

  lemma PreservesNothing(k: Casts<string>, data: Data)
    ensures Preserves(k, data, data)
  {
    forall schema, x ensures KeptAs(k, data, data, schema, x) {
      assert Carries(k, IsNumber, [], ValuesAt(data, schema, x), ValuesAt(data, schema, x));
    }
  }

  lemma PreservesOn(k: Casts<string>, a: Data, b: Data, c: Data)
    requires Preserves(k, a, b) && Preserves(k, b, c)
    ensures Preserves(k, a, c)
  {
    forall schema, x ensures KeptAs(k, a, c, schema, x) {
      assert KeptAs(k, a, b, schema, x) && KeptAs(k, b, c, schema, x);
      var p :| Carries(k, IsNumber, p, ValuesAt(a, schema, x), ValuesAt(b, schema, x));
      var q :| Carries(k, IsNumber, q, ValuesAt(b, schema, x), ValuesAt(c, schema, x));
      CarriesOn(k, IsNumber, p, q, ValuesAt(a, schema, x), ValuesAt(b, schema, x), ValuesAt(c, schema, x));
    }
  }

  /** Every planned cast of the entry loses nothing of what stands there. */
  ghost predicate EntrySurvives(k: Casts<string>, data: Data, schema: string, entry: Component) {
    forall x :: Recasts(entry, x) ==>
      Survives(k, entry[x.table][x.name], IsNumber(entry[x.table][x.name]), ValuesAt(data, schema, x))
  }

  /** Writing any of an entry's tables preserves every value, if its casts lose nothing. */
  lemma EntryPreserves(k: Casts<string>, before: Data, schema: string, entry: Component, written: set<string>,
                       after: Data)
    requires Changed(before, schema, CastRows(k, At(before, schema), entry, written), after)
    requires written != {} ==> EntrySurvives(k, before, schema, entry)
    ensures Preserves(k, before, after)
  {
    forall s, x ensures KeptAs(k, before, after, s, x) {
      var a, b := ValuesAt(before, s, x), ValuesAt(after, s, x);
      if s == schema && x in At(before, schema) && x.table in written && Recasts(entry, x) {
        OneCast(k, entry[x.table][x.name], a);
        assert Carries(k, IsNumber, [entry[x.table][x.name]], a, b);
      } else {
        assert At(after, s) == At(before, s) || s == schema;
        assert Carries(k, IsNumber, [], a, b);
      }
    }
  }

  lemma OneCast(k: Casts<string>, target: string, vs: Values)
    requires Survives(k, target, IsNumber(target), vs)
    ensures Carries(k, IsNumber, [target], vs, CastAll(k, target, vs))
  {
    assert [target][1..] == [];
    assert Carries(k, IsNumber, [], CastAll(k, target, vs), CastAll(k, target, vs));
  }

  lemma CastAt(k: Casts<string>, rows: map<Column, Values>, entry: Component, written: set<string>, x: Column)
    requires x in rows
    ensures x in CastRows(k, rows, entry, written)
    ensures CastRows(k, rows, entry, written)[x] ==
            if x.table in written && Recasts(entry, x) then CastAll(k, entry[x.table][x.name], rows[x]) else rows[x]
  {
    hide CastAll;
  }

  lemma CastMore(k: Casts<string>, rows: map<Column, Values>, entry: Component, written: set<string>, table: string)
    requires table in entry && table !in written
    ensures CastRows(k, CastRows(k, rows, entry, written), map[table := entry[table]], {table}) ==
            CastRows(k, rows, entry, written + {table})
  {
    hide CastRows, CastAll;
    var one, more := map[table := entry[table]], written + {table};
    var first := CastRows(k, rows, entry, written);
    forall x | x in rows ensures CastRows(k, first, one, {table})[x] == CastRows(k, rows, entry, more)[x] {
      CastAt(k, rows, entry, written, x);
      CastAt(k, first, one, {table}, x);
      CastAt(k, rows, entry, more, x);
    }
  }

  lemma CastNone(k: Casts<string>, rows: map<Column, Values>, entry: Component)
    ensures CastRows(k, rows, entry, {}) == rows
  {}
}
