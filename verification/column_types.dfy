/** Column types as the warehouse names them, and the order `_numeric_rank` puts them in. */
module ColumnTypes {
  import opened Ordering

  /** `_numeric`: the types a key may be cast to. */
  predicate Numeric(t: string) {
    "NUMBER" <= t || "FLOAT" <= t || "INT" <= t
  }

  // ----- digits -----

  predicate Digit(c: char) { '0' <= c <= '9' }

  predicate Digits(s: string) { forall i :: 0 <= i < |s| ==> Digit(s[i]) }

  function RunLength(t: string): (n: nat)
    ensures n <= |t| && Digits(t[..n])
    ensures n < |t| ==> !Digit(t[n])
  {
    if t == "" || !Digit(t[0]) then 0 else 1 + RunLength(t[1..])
  }

  /** `re.findall(r"\d+", t)`. */
  function DigitRuns(t: string): seq<string>
    decreases |t|
  {
    if t == "" then []
    else if Digit(t[0]) then [t[..RunLength(t)]] + DigitRuns(t[RunLength(t)..])
    else DigitRuns(t[1..])
  }

  /** `int(ds)` of a run of digits. */
  function ToInt(ds: string): nat
    requires Digits(ds)
  {
    if ds == "" then 0 else 10 * ToInt(ds[..|ds| - 1]) + (ds[|ds| - 1] - '0') as nat
  }

  /** `str(n)`. */
  function ToStr(n: nat): (s: string)
    ensures Digits(s) && s != ""
  {
    if n < 10 then [('0' as int + n) as char] else ToStr(n / 10) + [('0' as int + n % 10) as char]
  }

  lemma {:induction false} ToIntToStr(n: nat)
    ensures ToInt(ToStr(n)) == n
  {
    if n >= 10 {
      ToIntToStr(n / 10);
      assert ToStr(n)[..|ToStr(n)| - 1] == ToStr(n / 10);
    } else {
      assert ToStr(n)[..0] == "";
    }
  }

  lemma ToStrInjective(a: nat, b: nat)
    requires ToStr(a) == ToStr(b)
    ensures a == b
  {
    ToIntToStr(a);
    ToIntToStr(b);
  }

  // ----- the declared precision and scale -----

  lemma {:induction false} RunsAreDigits(t: string)
    ensures forall r :: r in DigitRuns(t) ==> Digits(r)
    decreases |t|
  {
    if t != "" {
      RunsAreDigits(if Digit(t[0]) then t[RunLength(t)..] else t[1..]);
    }
  }

  function Precision(t: string): nat {
    RunsAreDigits(t);
    var runs := DigitRuns(t);
    if runs == [] then 0 else ToInt(runs[0])
  }

  function Scale(t: string): nat {
    RunsAreDigits(t);
    var runs := DigitRuns(t);
    if |runs| < 2 then 0 else ToInt(runs[1])
  }

  /** How `column_types` renders a NUMBER whose precision the warehouse reports. */
  function Render(precision: nat, scale: nat): string {
    "NUMBER(" + ToStr(precision) + "," + ToStr(scale) + ")"
  }

  lemma {:induction false} RunLengthOf(ds: string, rest: string)
    requires Digits(ds) && (rest == "" || !Digit(rest[0]))
    ensures RunLength(ds + rest) == |ds|
  {
    if ds == "" {
      assert ds + rest == rest;
    } else {
      RunLengthOf(ds[1..], rest);
      assert (ds + rest)[1..] == ds[1..] + rest;
    }
  }

  lemma RunsAfter(ds: string, rest: string)
    requires Digits(ds) && ds != "" && (rest == "" || !Digit(rest[0]))
    ensures DigitRuns(ds + rest) == [ds] + DigitRuns(rest)
  {
    RunLengthOf(ds, rest);
    assert (ds + rest)[..|ds|] == ds && (ds + rest)[|ds|..] == rest;
  }

  lemma {:induction false} SkipText(word: string, rest: string)
    requires forall i :: 0 <= i < |word| ==> !Digit(word[i])
    ensures DigitRuns(word + rest) == DigitRuns(rest)
  {
    if word == "" {
      assert word + rest == rest;
    } else {
      SkipText(word[1..], rest);
      assert (word + rest)[1..] == word[1..] + rest;
    }
  }

  /** Parsing what was rendered gives back the declared digits. */
  lemma RenderRoundTrip(p: nat, s: nat)
    ensures Precision(Render(p, s)) == p && Scale(Render(p, s)) == s
    ensures Numeric(Render(p, s)) && Family(Render(p, s)) == 0
  {
    var a, b := ToStr(p), ToStr(s);
    var tail := "," + (b + ")");
    assert Render(p, s) == "NUMBER(" + (a + tail);
    SkipText("NUMBER(", a + tail);
    RunsAfter(a, tail);
    SkipText(",", b + ")");
    RunsAfter(b, ")");
    SkipText(")", "");
    ToIntToStr(p);
    ToIntToStr(s);
  }

  // ----- the rank -----

  const FAMILIES: seq<string> := ["NUMBER", "DECIMAL", "NUMERIC", "INT", "FLOAT", "DOUBLE", "REAL"]

  function FamilyFrom(t: string, i: nat): (f: nat)
    requires i <= |FAMILIES|
    ensures i <= f <= |FAMILIES|
    ensures f < |FAMILIES| ==> FAMILIES[f] <= t
    ensures forall k :: i <= k < f ==> !(FAMILIES[k] <= t)
    decreases |FAMILIES| - i
  {
    if i == |FAMILIES| || FAMILIES[i] <= t then i else FamilyFrom(t, i + 1)
  }

  function Family(t: string): nat { FamilyFrom(t, 0) }

  /** Tuple order on `_numeric_rank`: family, then precision and scale widest first, then the text. */
  predicate RankLe(a: string, b: string) {
    if Family(a) != Family(b) then Family(a) < Family(b)
    else if Precision(a) != Precision(b) then Precision(a) > Precision(b)
    else if Scale(a) != Scale(b) then Scale(a) > Scale(b)
    else StrLe(a, b)
  }

  lemma RankOrder()
    ensures Order(RankLe)
  {
    forall a, b ensures RankLe(a, b) || RankLe(b, a) { StrLeTotal(a, b); }
    forall a, b | RankLe(a, b) && RankLe(b, a) ensures a == b { StrLeTotal(a, b); }
    forall a, b, c | RankLe(a, b) && RankLe(b, c) ensures RankLe(a, c) {
      if Family(a) == Family(b) == Family(c) && Precision(a) == Precision(b) == Precision(c)
         && Scale(a) == Scale(b) == Scale(c) {
        StrLeTrans(a, b, c);
      }
    }
  }

  /** The chosen type: the least by rank of the numeric types offered. */
  function Choose(numeric: seq<string>): (t: string)
    requires numeric != []
    ensures t in numeric
    ensures forall u :: u in numeric ==> RankLe(t, u)
  {
    RankOrder();
    SortSorts(RankLe, numeric);
    var s := Sort(RankLe, numeric);
    assert forall u :: u in s ==> RankLe(s[0], u) by {
      forall u | u in s ensures RankLe(s[0], u) { Total(RankLe, u, u); }
    }
    s[0]
  }

  /** Never narrowed within a family: no offered type of the chosen family declares more digits. */
  lemma ChosenIsWidest(numeric: seq<string>, u: string)
    requires u in numeric
    ensures Family(Choose(numeric)) <= Family(u)
    ensures Family(Choose(numeric)) == Family(u) ==> Precision(u) <= Precision(Choose(numeric))
  {
    assert RankLe(Choose(numeric), u);
  }

  /** Nor, of those as wide, more of them after the point. */
  lemma ChosenHasMostDecimals(numeric: seq<string>, u: string)
    requires u in numeric && Family(u) == Family(Choose(numeric)) && Precision(u) == Precision(Choose(numeric))
    ensures Scale(u) <= Scale(Choose(numeric))
  {
    hide Precision, Scale, Family, Choose;
    assert RankLe(Choose(numeric), u);
  }

  /** A key is an identifier: a type that holds whole numbers outranks any floating one, whatever their digits. */
  lemma IntegersOutrankFloats(a: string, b: string)
    requires "NUMBER" <= a || "INT" <= a
    requires "FLOAT" <= b
    ensures Numeric(a) && Numeric(b) && Family(a) < Family(b) && RankLe(a, b) && !RankLe(b, a)
  {
    hide Precision, Scale;
    assert "NUMBER"[0] == 'N' && "INT"[0] == 'I' && "FLOAT"[0] == 'F' && "DECIMAL"[0] == 'D' && "DOUBLE"[0] == 'D' &&
           "REAL"[0] == 'R' && "NUMERIC"[0] == 'N';
    assert FAMILIES[0] == "NUMBER" && FAMILIES[3] == "INT" && FAMILIES[4] == "FLOAT";
    assert Family(a) <= 3;
    assert Family(b) >= 4;
  }

  /** How many digits a NUMBER(p,s) holds before the point. */
  function WholeDigits(t: string): int { Precision(t) - Scale(t) }

  /** Widest in precision is not widest before the point: the wider rank may hold fewer whole digits. */
  lemma WidestCanLoseWholeDigits()
    ensures var offered := [Render(11, 0), Render(12, 4)];
            WholeDigits(Choose(offered)) < WholeDigits(offered[0])
  {
    RenderRoundTrip(11, 0);
    RenderRoundTrip(12, 4);
    var offered := [Render(11, 0), Render(12, 4)];
    assert offered[1] in offered;
    assert RankLe(Choose(offered), offered[1]);
  }

  /** `d` holds every number `u` holds: as many digits before the point and after it. */
  predicate Holds(d: string, u: string) { WholeDigits(u) <= WholeDigits(d) && Scale(u) <= Scale(d) }

  /** `d` is offered, of the family, and holds whatever else of the family is offered. */
  ghost predicate Widest(numeric: seq<string>, family: nat, d: string) {
    d in numeric && Family(d) == family && forall u :: u in numeric && Family(u) == family ==> Holds(d, u)
  }

  lemma WidestTies(numeric: seq<string>, d: string)
    requires numeric != [] && Widest(numeric, Family(Choose(numeric)), d)
    ensures Scale(d) == Scale(Choose(numeric)) && Precision(d) == Precision(Choose(numeric))
  {
    hide Precision, Scale, Family, Choose;
    ChosenIsWidest(numeric, d);
    assert Choose(numeric) in numeric;
    assert Holds(d, Choose(numeric));
  }

  /** Nothing offered is narrowed exactly when one offered type of the chosen family holds all the others of it. */
  lemma NothingNarrowedExactlyWhen(numeric: seq<string>)
    requires numeric != []
    ensures (forall u :: u in numeric && Family(u) == Family(Choose(numeric)) ==> Holds(Choose(numeric), u)) <==>
            exists d :: Widest(numeric, Family(Choose(numeric)), d)
  {
    hide Precision, Scale, Family, Choose;
    var t := Choose(numeric);
    if d :| Widest(numeric, Family(t), d) {
      WidestTies(numeric, d);
      forall u | u in numeric && Family(u) == Family(t) ensures Holds(t, u) { assert Holds(d, u); }
    }
    if forall u :: u in numeric && Family(u) == Family(t) ==> Holds(t, u) {
      assert Widest(numeric, Family(t), t);
    }
  }

  /** Where every offered NUMBER declares one scale, the chosen one holds as many whole digits as any. */
  lemma OneScaleLosesNothing(numeric: seq<string>, u: string)
    requires u in numeric && Family(u) == Family(Choose(numeric))
    requires forall a, b :: a in numeric && b in numeric ==> Scale(a) == Scale(b)
    ensures WholeDigits(u) <= WholeDigits(Choose(numeric)) && Scale(u) == Scale(Choose(numeric))
  {
    ChosenIsWidest(numeric, u);
  }
}
