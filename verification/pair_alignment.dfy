/** Bringing the two sides of a join to one type, pair by pair, over a store whose statements may fail. */
module PairAlignment {
  import opened CastCounts
  import opened Options

  type Column = (string, string)

  datatype Target = ToNumber | ToText

  /** A column's type as the script names it. */
  datatype Kind = Number | Text | Other(name: string)

  function KindOf(t: Target): Kind { if t == ToNumber then Number else Text }

  datatype Stored = Stored(kind: Kind, values: Values)

  type Columns = map<Column, Stored>

  // ----- the probe -----

  /** The probe's three counts, compared. */
  predicate ProbePasses(k: Casts<Target>, t: Target, vs: Values) { CountsAgree(k, t, t == ToNumber, vs) }

  /** No value that is there is lost by the cast, and none is rounded by a cast to a number. */
  ghost predicate LosesNothing(k: Casts<Target>, t: Target, vs: Values) { Survives(k, t, t == ToNumber, vs) }

  // ----- the rewrite -----

  function Rewritten(k: Casts<Target>, cs: Columns, c: Column, t: Target): Columns {
    if c !in cs then cs else cs[c := Stored(KindOf(t), CastAll(k, t, cs[c].values))]
  }

  /** Every value that was there is there still. */
  ghost predicate KeepsValues(before: Columns, after: Columns) {
    before.Keys == after.Keys &&
    forall c :: c in before ==>
                  |after[c].values| == |before[c].values| &&
                  forall i :: 0 <= i < |before[c].values| ==> (before[c].values[i].Some? <==> after[c].values[i].Some?)
  }

  lemma KeepsAll(cs: Columns)
    ensures KeepsValues(cs, cs)
  {}

  lemma KeepsTrans(a: Columns, b: Columns, c: Columns)
    requires KeepsValues(a, b) && KeepsValues(b, c)
    ensures KeepsValues(a, c)
  {}

  lemma RewriteKeeps(k: Casts<Target>, cs: Columns, c: Column, t: Target)
    requires c in cs && LosesNothing(k, t, cs[c].values)
    ensures KeepsValues(cs, Rewritten(k, cs, c, t))
  {}

  function TypeOf(types: map<Column, Kind>, c: Column): Option<Kind> { if c in types then Some(types[c]) else None }

  ghost predicate Mirrors(types: map<Column, Kind>, cs: Columns) {
    types.Keys == cs.Keys && forall c :: c in cs ==> types[c] == cs[c].kind
  }

  /** The sides of a pair that are not of the target's type yet. */
  function Sides(types: map<Column, Kind>, child: Column, parent: Column, t: Target): (s: seq<Column>)
    ensures forall c :: c in s <==> c in [child, parent] && TypeOf(types, c) != Some(KindOf(t))
  {
    (if TypeOf(types, child) != Some(KindOf(t)) then [child] else []) +
    (if TypeOf(types, parent) != Some(KindOf(t)) then [parent] else [])
  }

  /** Every side is there and loses nothing to the target. */
  ghost predicate Taken(k: Casts<Target>, cs: Columns, sides: seq<Column>, t: Target) {
    forall i :: 0 <= i < |sides| ==> sides[i] in cs && LosesNothing(k, t, cs[sides[i]].values)
  }

  function RewriteAll(k: Casts<Target>, cs: Columns, s: seq<Column>, t: Target): (r: Columns)
    ensures r.Keys == cs.Keys
  {
    if s == [] then cs else Rewritten(k, RewriteAll(k, cs, s[..|s| - 1], t), s[|s| - 1], t)
  }

  lemma {:induction false} RewriteAllAt(k: Casts<Target>, cs: Columns, s: seq<Column>, t: Target)
    requires forall i :: 0 <= i < |s| ==> s[i] in cs
    ensures forall c :: c in cs && c !in s ==> RewriteAll(k, cs, s, t)[c] == cs[c]
    ensures forall c :: c in s ==> c in cs && RewriteAll(k, cs, s, t)[c].kind == KindOf(t)
  {
    if s != [] {
      RewriteAllAt(k, cs, s[..|s| - 1], t);
      assert s == s[..|s| - 1] + [s[|s| - 1]];
    }
  }

  /** The next side is still as it was probed, and rewriting it is the next step of rewriting all. */
  lemma SideReady(k: Casts<Target>, cs: Columns, sides: seq<Column>, t: Target, n: nat)
    requires Taken(k, cs, sides, t) && n < |sides| <= 2 && (|sides| == 2 ==> sides[0] != sides[1])
    ensures var now := RewriteAll(k, cs, sides[..n], t);
            sides[n] in now && LosesNothing(k, t, now[sides[n]].values) &&
            RewriteAll(k, cs, sides[..n + 1], t) == Rewritten(k, now, sides[n], t)
    ensures sides[..n + 1] == sides[..n] + [sides[n]]
  {
    hide LosesNothing;
    RewriteAllAt(k, cs, sides[..n], t);
    assert sides[..n + 1][..n] == sides[..n] && sides[n] !in sides[..n];
  }

  function Types(cs: Columns): map<Column, Kind> { map c | c in cs :: cs[c].kind }

  /** The target a pair is brought to when nothing fails: a number where both sides allow it, else text, else none. */
  ghost function Chosen(k: Casts<Target>, cs: Columns, child: Column, parent: Column): Option<Target> {
    var types := Types(cs);
    if TypeOf(types, child) == TypeOf(types, parent) then None
    else if Taken(k, cs, Sides(types, child, parent, ToNumber), ToNumber) then Some(ToNumber)
    else if Taken(k, cs, Sides(types, child, parent, ToText), ToText) then Some(ToText)
    else None
  }

  /** The store after a pair when nothing fails. */
  ghost function Aligned(k: Casts<Target>, cs: Columns, child: Column, parent: Column): Columns {
    match Chosen(k, cs, child, parent)
    case None => cs
    case Some(t) => RewriteAll(k, cs, Sides(Types(cs), child, parent, t), t)
  }

  /** The store after the pairs, in order, when nothing fails. */
  ghost function AlignedAll(k: Casts<Target>, cs: Columns, foreign: seq<(Column, Column)>): Columns {
    if foreign == [] then cs
    else
      var last := foreign[|foreign| - 1];
      Aligned(k, AlignedAll(k, cs, foreign[..|foreign| - 1]), last.0, last.1)
  }

  lemma AlignedNext(k: Casts<Target>, cs: Columns, foreign: seq<(Column, Column)>, i: nat)
    requires i < |foreign|
    ensures AlignedAll(k, cs, foreign[..i + 1]) ==
            Aligned(k, AlignedAll(k, cs, foreign[..i]), foreign[i].0, foreign[i].1)
  {
    assert foreign[..i + 1][..i] == foreign[..i];
  }

  /** A store, the types the script believes, and faults wherever they fall. */
  class Aligner {
    const k: Casts<Target>
    const probeFails: nat -> bool
    const rewriteFails: nat -> bool
    var columns: Columns
    var types: map<Column, Kind>
    var probes: nat
    var tried: nat
    var done: seq<Column>

    constructor (k: Casts<Target>, probeFails: nat -> bool, rewriteFails: nat -> bool, columns: Columns)
      ensures this.columns == columns && Mirrors(types, columns) && done == []
      ensures this.k == k
    {
      this.k, this.probeFails, this.rewriteFails := k, probeFails, rewriteFails;
      this.columns := columns;
      types := map c | c in columns :: columns[c].kind;
      probes, tried, done := 0, 0, [];
    }

    ghost predicate ProbesFail() { exists i :: probeFails(i) }

    ghost predicate RewritesFail() { exists i :: rewriteFails(i) }

    /** The sides do not all take the target, or one of these probes of them raised. */
    ghost predicate Declines(cs: Columns, sides: seq<Column>, t: Target, from: nat, to: nat) {
      !Taken(k, cs, sides, t) || exists i :: from <= i < to && probeFails(i)
    }

    /** A pair not of one type is brought to numbers; or, if that is declined for any reason, to text; or, if that is
        declined too, is left. */
    ghost predicate Falls(before: Columns, child: Column, parent: Column, from: nat, to: nat, after: Columns) {
      var types := Types(before);
      if TypeOf(types, child) == TypeOf(types, parent) then after == before
      else
        var a, b := Sides(types, child, parent, ToNumber), Sides(types, child, parent, ToText);
        (Taken(k, before, a, ToNumber) && after == RewriteAll(k, before, a, ToNumber)) ||
        exists m: nat :: from <= m <= to && Declines(before, a, ToNumber, from, m) &&
                         ((Taken(k, before, b, ToText) && after == RewriteAll(k, before, b, ToText)) ||
                          (Declines(before, b, ToText, m, to) && after == before))
    }

    /** The probe: an answer, or nothing where it raised. A column that is not there raises. */
    method CastIsLossless(c: Column, t: Target) returns (r: Option<bool>)
      modifies this`probes
      ensures probes == old(probes) + 1
      ensures r.Some? ==> c in columns && (r.value <==> LosesNothing(k, t, columns[c].values))
      ensures r.None? ==> c !in columns || probeFails(old(probes))
    {
      var failed := probeFails(probes);
      probes := probes + 1;
      if failed || c !in columns { return None; }
      CountsTell(k, t, t == ToNumber, columns[c].values);
      r := Some(ProbePasses(k, t, columns[c].values));
    }

    /** One rewrite, counted and recorded as it happens. A statement that fails changes nothing. */
    method RewriteColumn(c: Column, t: Target) returns (ok: bool)
      requires c in columns && Mirrors(types, columns) && LosesNothing(k, t, columns[c].values)
      modifies this`columns, this`types, this`tried, this`done
      ensures ok ==> columns == Rewritten(k, old(columns), c, t) && done == old(done) + [c]
      ensures !ok ==> columns == old(columns) && types == old(types) && done == old(done) && RewritesFail()
      ensures Mirrors(types, columns) && KeepsValues(old(columns), columns)
    {
      ok := !rewriteFails(tried);
      tried := tried + 1;
      if ok {
        RewriteKeeps(k, columns, c, t);
        columns := Rewritten(k, columns, c, t);
        types := types[c := KindOf(t)];
        done := done + [c];
      }
    }

    /** Whether every side takes the target; nothing where a probe raised. Writes nothing. */
    method ProbeSides(sides: seq<Column>, t: Target) returns (r: Option<bool>)
      modifies this`probes
      ensures old(probes) <= probes && (r == Some(true) ==> Taken(k, columns, sides, t))
      ensures r == Some(true) || Declines(columns, sides, t, old(probes), probes)
    {
      var i := 0;
      while i < |sides|
        invariant 0 <= i <= |sides|
        invariant old(probes) <= probes
        invariant forall j :: 0 <= j < i ==> sides[j] in columns && LosesNothing(k, t, columns[sides[j]].values)
      {
        var one := CastIsLossless(sides[i], t);
        if one != Some(true) { return one; }
        i := i + 1;
      }
      r := Some(true);
    }

    /** Both sides are decided before either is written, and each is written at most once. */
    method RewriteSides(sides: seq<Column>, t: Target) returns (n: nat, ok: bool)
      requires Mirrors(types, columns) && |sides| <= 2 && (|sides| == 2 ==> sides[0] != sides[1])
      requires Taken(k, columns, sides, t)
      modifies this`columns, this`types, this`tried, this`done
      ensures Mirrors(types, columns) && KeepsValues(old(columns), columns)
      ensures n <= |sides| && done == old(done) + sides[..n] && (ok <==> n == |sides|) && (!ok ==> RewritesFail())
      ensures columns == RewriteAll(k, old(columns), sides[..n], t)
    {
      n, ok := 0, true;
      KeepsAll(columns);
      assert RewriteAll(k, columns, sides[..0], t) == columns;
      hide LosesNothing, KeepsValues, Mirrors, Rewritten, RewriteAll, Taken;
      while n < |sides|
        invariant n <= |sides| && ok && done == old(done) + sides[..n]
        invariant Mirrors(types, columns) && KeepsValues(old(columns), columns)
        invariant columns == RewriteAll(k, old(columns), sides[..n], t)
      {
        ghost var before := columns;
        SideReady(k, old(columns), sides, t, n);
        ok := RewriteColumn(sides[n], t);
        KeepsTrans(old(columns), before, columns);
        if !ok { return; }
        n := n + 1;
      }
    }

    /** What a pair leaves: nothing outside it changed, and, without a failed rewrite, agreement or no change. */
    ghost predicate PairEnds(before: Columns, doneBefore: seq<Column>, child: Column, parent: Column, n: nat, ok: bool)
      reads this
    {
      Mirrors(types, columns) && KeepsValues(before, columns) &&
      |done| == |doneBefore| + n && n <= 2 && doneBefore <= done &&
      (forall i :: |doneBefore| <= i < |done| ==> done[i] in [child, parent]) &&
      (n == 2 ==> done[|done| - 2] != done[|done| - 1]) &&
      (forall c :: c in columns && c !in done[|doneBefore|..] ==> columns[c] == before[c]) &&
      (ok ==>
        columns == before ||
        (child in columns && parent in columns && columns[child].kind == columns[parent].kind))
    }

    /** One target: both sides probed, and both rewritten if they take it. */
    method TryTarget(child: Column, parent: Column, t: Target) returns (tried: bool, n: nat, ok: bool)
      requires Mirrors(types, columns) && TypeOf(types, child) != TypeOf(types, parent)
      modifies this
      ensures !tried ==> columns == old(columns) && types == old(types) && done == old(done)
      ensures tried ==> PairEnds(old(columns), old(done), child, parent, n, ok) && (!ok ==> RewritesFail())
      ensures old(probes) <= probes
      ensures var sides := Sides(old(types), child, parent, t);
              if tried then
                Taken(k, old(columns), sides, t) &&
                (!RewritesFail() ==> columns == RewriteAll(k, old(columns), sides, t))
              else Declines(old(columns), sides, t, old(probes), probes)
    {
      hide LosesNothing, KeepsValues, Mirrors, Sides, Taken, PairEnds, RewriteAll, Declines;
      var sides := Sides(types, child, parent, t);
      var lossless := ProbeSides(sides, t);
      if lossless != Some(true) { return false, 0, true; }
      tried := true;
      SidesDiffer(types, child, parent, t);
      n, ok := RewriteSides(sides, t);
      SidesAt(old(columns), old(types), child, parent, t, n);
      Ended(old(columns), old(types), old(done), child, parent, t, n, ok);
    }

    method AlignPair(child: Column, parent: Column) returns (n: nat, ok: bool)
      requires Mirrors(types, columns)
      modifies this
      ensures PairEnds(old(columns), old(done), child, parent, n, ok) && (!ok ==> RewritesFail())
      ensures !RewritesFail() ==> columns == old(columns) || Agree(columns, child, parent)
      ensures !RewritesFail() ==> Falls(old(columns), child, parent, old(probes), probes, columns)
      ensures !ProbesFail() && !RewritesFail() ==> columns == Aligned(k, old(columns), child, parent)
    {
      n, ok := 0, true;
      TypesMirror(types, columns);
      Untouched(child, parent);
      if TypeOf(types, child) == TypeOf(types, parent) { return; }
      hide Mirrors, Sides, Taken, PairEnds, RewriteAll, Declines, Falls, Chosen, Aligned, Types;
      ghost var before, from := columns, probes;
      var tried;
      tried, n, ok := TryTarget(child, parent, ToNumber);
      if tried {
        FallsToNumber(before, columns, child, parent, from, probes);
        return;
      }
      ghost var mid := probes;
      tried, n, ok := TryTarget(child, parent, ToText);
      if tried {
        FallsToText(before, columns, child, parent, from, mid, probes);
        return;
      }
      FallsToNothing(before, child, parent, from, mid, probes);
      n, ok := 0, true;
    }

    /** Without a raised probe, what is declined is not taken. */
    lemma DeclinedIsNotTaken(cs: Columns, sides: seq<Column>, t: Target, from: nat, to: nat)
      requires Declines(cs, sides, t, from, to) && !ProbesFail()
      ensures !Taken(k, cs, sides, t)
    {
      hide Taken;
    }

    lemma FallsToNumber(before: Columns, after: Columns, child: Column, parent: Column, from: nat, to: nat)
      requires TypeOf(Types(before), child) != TypeOf(Types(before), parent) && from <= to
      requires var sides := Sides(Types(before), child, parent, ToNumber);
               Taken(k, before, sides, ToNumber) &&
               (!RewritesFail() ==> after == RewriteAll(k, before, sides, ToNumber))
      ensures !RewritesFail() ==>
                Falls(before, child, parent, from, to, after) &&
                after == Aligned(k, before, child, parent)
    {
      hide Taken, Sides, RewriteAll, Types, Declines;
    }

    lemma FallsToText(before: Columns, after: Columns, child: Column, parent: Column, from: nat, mid: nat, to: nat)
      requires TypeOf(Types(before), child) != TypeOf(Types(before), parent) && from <= mid <= to
      requires Declines(before, Sides(Types(before), child, parent, ToNumber), ToNumber, from, mid)
      requires var sides := Sides(Types(before), child, parent, ToText);
               Taken(k, before, sides, ToText) && (!RewritesFail() ==> after == RewriteAll(k, before, sides, ToText))
      ensures !RewritesFail() ==> Falls(before, child, parent, from, to, after)
      ensures !ProbesFail() && !RewritesFail() ==> after == Aligned(k, before, child, parent)
    {
      hide Taken, Sides, RewriteAll, Types, Declines;
      if !ProbesFail() {
        DeclinedIsNotTaken(before, Sides(Types(before), child, parent, ToNumber), ToNumber, from, mid);
      }
    }

    lemma FallsToNothing(before: Columns, child: Column, parent: Column, from: nat, mid: nat, to: nat)
      requires TypeOf(Types(before), child) != TypeOf(Types(before), parent) && from <= mid <= to
      requires Declines(before, Sides(Types(before), child, parent, ToNumber), ToNumber, from, mid)
      requires Declines(before, Sides(Types(before), child, parent, ToText), ToText, mid, to)
      ensures Falls(before, child, parent, from, to, before)
      ensures !ProbesFail() ==> before == Aligned(k, before, child, parent)
    {
      hide Taken, Sides, RewriteAll, Types, Declines;
      if !ProbesFail() {
        DeclinedIsNotTaken(before, Sides(Types(before), child, parent, ToNumber), ToNumber, from, mid);
        DeclinedIsNotTaken(before, Sides(Types(before), child, parent, ToText), ToText, mid, to);
      }
    }

    lemma Untouched(child: Column, parent: Column)
      requires Mirrors(types, columns)
      ensures PairEnds(columns, done, child, parent, 0, true)
    {}

    lemma SidesAt(before: Columns, believed: map<Column, Kind>, child: Column, parent: Column, t: Target, n: nat)
      requires var sides := Sides(believed, child, parent, t); n <= |sides| && Taken(k, before, sides, t)
      ensures var sides := Sides(believed, child, parent, t);
              var after := RewriteAll(k, before, sides[..n], t);
              (forall c :: c in after && c !in sides[..n] ==> after[c] == before[c]) &&
              (forall c :: c in sides[..n] ==> c in after && after[c].kind == KindOf(t)) &&
              (forall c :: c in sides ==> c in before) && sides[..|sides|] == sides
    {
      RewriteAllAt(k, before, Sides(believed, child, parent, t)[..n], t);
    }

    lemma Ended(before: Columns, believed: map<Column, Kind>, doneBefore: seq<Column>, child: Column, parent: Column,
                t: Target, n: nat, ok: bool)
      requires Mirrors(types, columns) && Mirrors(believed, before) && KeepsValues(before, columns)
      requires TypeOf(believed, child) != TypeOf(believed, parent)
      requires var sides := Sides(believed, child, parent, t);
               n <= |sides| && done == doneBefore + sides[..n] && (ok <==> n == |sides|) &&
               (forall c :: c in sides ==> c in before) &&
               (forall c :: c in columns && c !in sides[..n] ==> columns[c] == before[c]) &&
               (forall c :: c in sides[..n] ==> c in columns && columns[c].kind == KindOf(t))
      ensures PairEnds(before, doneBefore, child, parent, n, ok)
    {
      hide LosesNothing;
      var sides := Sides(believed, child, parent, t);
      assert child != parent;
      assert done[|doneBefore|..] == sides[..n];
      forall i | |doneBefore| <= i < |done| ensures done[i] in [child, parent] { assert done[i] in sides; }
      if ok { assert sides[..n] == sides; }
    }

    lemma PairCounts(before: Columns, doneBefore: seq<Column>, child: Column, parent: Column, n: nat, ok: bool)
      requires PairEnds(before, doneBefore, child, parent, n, ok)
      ensures Mirrors(types, columns) && KeepsValues(before, columns)
      ensures doneBefore <= done && |done| == |doneBefore| + n && n <= 2
    {}

    /** Every pair in turn: the count is the rewrites that were made, and no value anywhere was lost. */
    method AlignPairs(foreign: seq<(Column, Column)>) returns (aligned: nat)
      requires Mirrors(types, columns)
      modifies this
      ensures Mirrors(types, columns) && KeepsValues(old(columns), columns)
      ensures old(done) <= done && aligned == |done| - |old(done)| && aligned <= 2 * |foreign|
      ensures !ProbesFail() && !RewritesFail() ==> columns == AlignedAll(k, old(columns), foreign)
    {
      aligned := 0;
      var i := 0;
      while i < |foreign|
        invariant 0 <= i <= |foreign| && old(done) <= done && aligned == |done| - |old(done)| && aligned <= 2 * i
        invariant Mirrors(types, columns) && KeepsValues(old(columns), columns)
        invariant !ProbesFail() && !RewritesFail() ==> columns == AlignedAll(k, old(columns), foreign[..i])
      {
        hide Aligned, AlignedAll, KeepsValues, Mirrors, PairEnds, ProbesFail, RewritesFail;
        ghost var before, doneBefore := columns, done;
        AlignedNext(k, old(columns), foreign, i);
        var n, ok := AlignPair(foreign[i].0, foreign[i].1);
        PairCounts(before, doneBefore, foreign[i].0, foreign[i].1, n, ok);
        KeepsTrans(old(columns), before, columns);
        aligned := aligned + n;
        i := i + 1;
      }
      assert foreign[..i] == foreign;
    }
  }

  lemma TypesMirror(types: map<Column, Kind>, cs: Columns)
    requires Mirrors(types, cs)
    ensures types == Types(cs)
  {}

  lemma SidesDiffer(types: map<Column, Kind>, child: Column, parent: Column, t: Target)
    requires TypeOf(types, child) != TypeOf(types, parent)
    ensures var s := Sides(types, child, parent, t); |s| <= 2 && (|s| == 2 ==> s[0] != s[1])
  {}

  // ----- one pair after another -----

  ghost predicate Agree(cs: Columns, a: Column, b: Column) { a in cs && b in cs && cs[a].kind == cs[b].kind }

  lemma ChosenIsTaken(k: Casts<Target>, cs: Columns, child: Column, parent: Column)
    ensures var t := Chosen(k, cs, child, parent);
            t.Some? ==> Taken(k, cs, Sides(Types(cs), child, parent, t.value), t.value)
  {
    hide Taken, Sides;
  }

  /** A pair's own columns end at its target, if it has one, and every other column as it was. */
  lemma AlignedKind(k: Casts<Target>, cs: Columns, child: Column, parent: Column, c: Column)
    requires c in cs
    ensures var t := Chosen(k, cs, child, parent);
            var after := Aligned(k, cs, child, parent);
            c in after && after[c].kind == if t.Some? && c in [child, parent] then KindOf(t.value) else cs[c].kind
  {
    hide Chosen, RewriteAll, LosesNothing;
    var t := Chosen(k, cs, child, parent);
    ChosenIsTaken(k, cs, child, parent);
    if t.Some? { RewriteAllAt(k, cs, Sides(Types(cs), child, parent, t.value), t.value); }
  }

  /** A later pair undoes an agreement exactly when it retypes one side of it and not the other. */
  lemma LaterPair(k: Casts<Target>, cs: Columns, a: Column, b: Column, child: Column, parent: Column)
    requires Agree(cs, a, b)
    ensures var t := Chosen(k, cs, child, parent);
            Agree(Aligned(k, cs, child, parent), a, b) <==>
            (t.None? || KindOf(t.value) == cs[a].kind || (a in [child, parent] <==> b in [child, parent]))
  {
    hide Chosen, Aligned;
    AlignedKind(k, cs, child, parent, a);
    AlignedKind(k, cs, child, parent, b);
  }

  /** Three columns: a number, its spelling as text, and a text that is no number. */
  function Neighbours(): Columns {
    map[("T", "A") := Stored(Number, [Some("1")]), ("T", "B") := Stored(Text, [Some("1")]),
        ("T", "C") := Stored(Text, [Some("x")])]
  }

  function OneIsANumber(): Casts<Target> {
    Casts((t: Target, v: Value) => if t == ToText || v == "1" then Some(v) else None, (v: Value) => false)
  }

  lemma Letters()
    ensures ("T", "A") != ("T", "B") && ("T", "B") != ("T", "C") && ("T", "A") != ("T", "C") && "x" != "1"
  {
    assert "A"[0] == 'A' && "B"[0] == 'B' && "C"[0] == 'C' && "x"[0] == 'x' && "1"[0] == '1';
  }

  lemma FirstPairIsNumber()
    ensures Chosen(OneIsANumber(), Neighbours(), ("T", "A"), ("T", "B")) == Some(ToNumber)
    ensures Sides(Types(Neighbours()), ("T", "A"), ("T", "B"), ToNumber) == [("T", "B")]
  {
    Letters();
    assert Neighbours()[("T", "B")].values[0] == Some("1");
  }

  lemma FirstPairMeets()
    ensures var first := Aligned(OneIsANumber(), Neighbours(), ("T", "A"), ("T", "B"));
            first == Neighbours()[("T", "B") := Stored(Number, [Some("1")])]
  {
    FirstPairIsNumber();
    Letters();
    hide Chosen, Sides;
    var k, b := OneIsANumber(), ("T", "B");
    assert [b][..0] == [] && RewriteAll(k, Neighbours(), [b], ToNumber) == Rewritten(k, Neighbours(), b, ToNumber);
    assert CastAll(k, ToNumber, [Some("1")]) == [Some("1")];
  }

  lemma SecondPairIsText()
    ensures Chosen(OneIsANumber(), Neighbours()[("T", "B") := Stored(Number, [Some("1")])], ("T", "B"), ("T", "C")) ==
            Some(ToText)
  {
    Letters();
    var k, b, c := OneIsANumber(), ("T", "B"), ("T", "C");
    var cs := Neighbours()[b := Stored(Number, [Some("1")])];
    var numbers := Sides(Types(cs), b, c, ToNumber);
    assert numbers == [c] && cs[c].values[0] == Some("x");
    assert !LosesNothing(k, ToNumber, cs[c].values);
    assert !Taken(k, cs, numbers, ToNumber) by { assert numbers[0] == c; }
    assert Sides(Types(cs), b, c, ToText) == [b];
  }

  /** And it can: a pair brought to numbers is parted again by a text neighbour of one of its sides. */
  lemma LaterPairCanUndo()
    ensures var k, a, b, c := OneIsANumber(), ("T", "A"), ("T", "B"), ("T", "C");
            var first := Aligned(k, Neighbours(), a, b);
            !Agree(Neighbours(), a, b) && Agree(first, a, b) && !Agree(Aligned(k, first, b, c), a, b)
  {
    hide Chosen, Aligned;
    Letters();
    FirstPairMeets();
    SecondPairIsText();
    LaterPair(OneIsANumber(), Aligned(OneIsANumber(), Neighbours(), ("T", "A"), ("T", "B")),
              ("T", "A"), ("T", "B"), ("T", "B"), ("T", "C"));
  }
}
