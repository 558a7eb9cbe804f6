/** `_SAMPLES`, the unrolled grammar of a `sample_values` clause, and what substituting it away leaves. */
module SampleValues {
  import opened Characters
  import opened Options

  // ----- one quoted item: three grammars, one language -----

  predicate Plain(s: string) { forall i :: 0 <= i < |s| ==> s[i] != '\'' }

  /** A value with its quotes doubled. */
  function Double(v: string): string {
    if v == "" then "" else (if v[0] == '\'' then "''" else [v[0]]) + Double(v[1..])
  }

  function Quoted(v: string): string { "'" + Double(v) + "'" }

  /** `[^']*(?:''[^']*)*`: runs without quotes, with a doubled quote between each and the next. */
  function Unrolled(runs: seq<string>): string {
    if runs == [] then "" else if |runs| == 1 then runs[0] else runs[0] + "''" + Unrolled(runs[1..])
  }

  ghost predicate Runs(runs: seq<string>) { runs != [] && forall r :: r in runs ==> Plain(r) }

  /** `(?:[^']|'')*`: the readable form's choices, each one character or a doubled quote. */
  function Readable(choices: seq<string>): string {
    if choices == [] then "" else choices[0] + Readable(choices[1..])
  }

  ghost predicate Choices(choices: seq<string>) {
    forall c :: c in choices ==> c == "''" || (|c| == 1 && c[0] != '\'')
  }

  /** The value a list of runs spells. */
  function Joined(runs: seq<string>): string {
    if runs == [] then "" else if |runs| == 1 then runs[0] else runs[0] + "'" + Joined(runs[1..])
  }

  /** The runs of a value: it is cut at its quotes. */
  function RunsOf(v: string): (runs: seq<string>)
    ensures runs != []
  {
    if v == "" then [""]
    else
      var rest := RunsOf(v[1..]);
      if v[0] == '\'' then [""] + rest else [[v[0]] + rest[0]] + rest[1..]
  }

  lemma {:induction false} DoublePlain(r: string, v: string)
    requires Plain(r)
    ensures Double(r + v) == r + Double(v)
  {
    if r == "" {
      assert r + v == v;
    } else {
      DoublePlain(r[1..], v);
      assert (r + v)[1..] == r[1..] + v && r == [r[0]] + r[1..];
    }
  }

  /** Every unrolled item is some value with its quotes doubled. */
  lemma {:induction false} UnrolledDoubles(runs: seq<string>)
    requires Runs(runs)
    ensures Unrolled(runs) == Double(Joined(runs))
  {
    assert runs[0] in runs;
    if |runs| == 1 {
      DoublePlain(runs[0], "");
      assert runs[0] + "" == runs[0];
    } else {
      UnrolledDoubles(runs[1..]);
      DoublePlain(runs[0], "'" + Joined(runs[1..]));
      assert runs[0] + "'" + Joined(runs[1..]) == runs[0] + ("'" + Joined(runs[1..]));
      assert ("'" + Joined(runs[1..]))[1..] == Joined(runs[1..]);
      assert Double("'" + Joined(runs[1..])) == "''" + Double(Joined(runs[1..]));
    }
  }

  lemma {:induction false} RunsOfSpell(v: string)
    ensures Runs(RunsOf(v)) && Joined(RunsOf(v)) == v
  {
    if v != "" {
      RunsOfSpell(v[1..]);
      var rest := RunsOf(v[1..]);
      assert v == [v[0]] + v[1..];
      assert rest[0] in rest;
      if v[0] == '\'' {
        assert ([""] + rest)[1..] == rest;
      } else {
        var runs := [[v[0]] + rest[0]] + rest[1..];
        assert runs[1..] == rest[1..];
        forall r | r in runs ensures Plain(r) { if r != runs[0] { assert r in rest; } }
      }
    }
  }

  /** One parse: no two lists of runs spell the same text. */
  lemma {:induction false} OneParse(a: seq<string>, b: seq<string>)
    requires Runs(a) && Runs(b) && Unrolled(a) == Unrolled(b)
    ensures a == b
  {
    assert a[0] in a && b[0] in b;
    FirstRun(a);
    FirstRun(b);
    var t := Unrolled(a);
    OneFirstQuote(t, |a[0]|, |b[0]|);
    assert a[0] == t[..|a[0]|] == b[0];
    if |a| > 1 && |b| > 1 {
      assert Unrolled(a[1..]) == t[|a[0]| + 2..] == Unrolled(b[1..]);
      OneParse(a[1..], b[1..]);
      assert a == [a[0]] + a[1..] && b == [b[0]] + b[1..];
    }
  }

  ghost predicate FirstQuote(t: string, n: nat) {
    n <= |t| && (forall i :: 0 <= i < n ==> t[i] != '\'') && (n < |t| ==> t[n] == '\'')
  }

  lemma OneFirstQuote(t: string, m: nat, n: nat)
    requires FirstQuote(t, m) && FirstQuote(t, n)
    ensures m == n
  {}

  lemma FirstRun(a: seq<string>)
    requires Runs(a)
    ensures var t := Unrolled(a);
            FirstQuote(t, |a[0]|) && t[..|a[0]|] == a[0] &&
            if |a| == 1 then |t| == |a[0]|
            else |t| >= |a[0]| + 2 && t[|a[0]|] == '\'' && t[|a[0]| + 2..] == Unrolled(a[1..])
  {
    assert a[0] in a;
    forall i | 0 <= i < |a[0]| ensures Unrolled(a)[i] != '\'' { assert Unrolled(a)[i] == a[0][i]; }
  }

  /** The readable form's choices spell doubled values too, so the two items have one language. */
  lemma {:induction false} ReadableDoubles(choices: seq<string>) returns (v: string)
    requires Choices(choices)
    ensures Readable(choices) == Double(v)
  {
    if choices == [] {
      v := "";
    } else {
      assert choices[0] in choices;
      forall c | c in choices[1..] ensures c in choices {}
      var rest := ReadableDoubles(choices[1..]);
      v := [choices[0][0]] + rest;
      assert v[1..] == rest;
    }
  }

  function ChoicesOf(v: string): seq<string> {
    if v == "" then [] else [if v[0] == '\'' then "''" else [v[0]]] + ChoicesOf(v[1..])
  }

  lemma {:induction false} DoubledIsReadable(v: string)
    ensures Choices(ChoicesOf(v)) && Readable(ChoicesOf(v)) == Double(v)
  {
    if v != "" {
      DoubledIsReadable(v[1..]);
      var cs := ChoicesOf(v);
      assert cs[1..] == ChoicesOf(v[1..]);
      forall c | c in cs ensures c == "''" || (|c| == 1 && c[0] != '\'') { if c != cs[0] { assert c in cs[1..]; } }
    }
  }

  /** The unrolled item accepts exactly what the readable one does, and what quoting a value writes. */
  lemma SameLanguage(s: string)
    ensures (exists runs :: Runs(runs) && s == Unrolled(runs)) <==> (exists v :: s == Double(v))
    ensures (exists cs :: Choices(cs) && s == Readable(cs)) <==> (exists v :: s == Double(v))
  {
    if runs :| Runs(runs) && s == Unrolled(runs) { UnrolledDoubles(runs); }
    if cs :| Choices(cs) && s == Readable(cs) { var v := ReadableDoubles(cs); }
    if v :| s == Double(v) {
      RunsOfSpell(v);
      UnrolledDoubles(RunsOf(v));
      DoubledIsReadable(v);
    }
  }

  // ----- a whole clause -----

  const MARK := " sample_values ("

  datatype Parsed<T> = No | Yes(value: T, rest: string)

  /** Read to the closing quote: the value, and what follows. A doubled quote is part of the value. */
  function ReadQuoted(text: string): Parsed<string>
    decreases |text|
  {
    if text == "" then No
    else if text[0] != '\'' then
      match ReadQuoted(text[1..])
      case No => No
      case Yes(v, rest) => Yes([text[0]] + v, rest)
    else if |text| > 1 && text[1] == '\'' then
      match ReadQuoted(text[2..])
      case No => No
      case Yes(v, rest) => Yes("'" + v, rest)
    else Yes("", text[1..])
  }

  function DropSpace(text: string): (rest: string)
    ensures |rest| <= |text| && (rest == "" || !IsSpace(rest[0]))
  {
    if text != "" && IsSpace(text[0]) then DropSpace(text[1..]) else text
  }

  lemma {:induction false} ReadQuotedShorter(text: string)
    ensures ReadQuoted(text).Yes? ==> |ReadQuoted(text).rest| < |text|
    decreases |text|
  {
    if text != "" && text[0] != '\'' { ReadQuotedShorter(text[1..]); }
    if |text| > 1 && text[0] == '\'' == text[1] { ReadQuotedShorter(text[2..]); }
  }

  /** The items after the first, each behind a comma, then perhaps a last comma, and the parenthesis. */
  function ReadMore(text: string): Parsed<seq<string>>
    decreases |text|
  {
    var t := DropSpace(text);
    if t == "" then No
    else if t[0] == ')' then Yes([], t[1..])
    else if t[0] != ',' then No
    else
      var u := DropSpace(t[1..]);
      if u == "" then No
      else if u[0] == ')' then Yes([], u[1..])
      else if u[0] != '\'' then No
      else
        ReadQuotedShorter(u[1..]);
        match ReadQuoted(u[1..])
        case No => No
        case Yes(v, rest) =>
          match ReadMore(rest)
          case No => No
          case Yes(vs, end) => Yes([v] + vs, end)
  }

  /** A clause at the start of the text: its values, and what follows. */
  function ReadClause(text: string): Parsed<seq<string>> {
    if !(MARK <= text) then No
    else
      var t := text[|MARK|..];
      if t == "" then No
      else if t[0] == ')' then Yes([], t[1..])
      else if t[0] != '\'' then No
      else
        match ReadQuoted(t[1..])
        case No => No
        case Yes(v, rest) =>
          match ReadMore(rest)
          case No => No
          case Yes(vs, end) => Yes([v] + vs, end)
  }

  // ----- the clause's grammar, as text -----

  ghost predicate Spaces(s: string) { forall i :: 0 <= i < |s| ==> IsSpace(s[i]) }

  /** A separator: a comma with spaces about it. */
  datatype Comma = Comma(before: string, after: string) {
    function Text(): string { before + "," + after }
    ghost predicate Valid() { Spaces(before) && Spaces(after) }
  }

  /** `(?:\s*,)?\s*`: the end of a list, with its last comma or without. */
  datatype Tail = Plainly(spaces: string) | WithComma(comma: Comma) {
    function Text(): string { match this case Plainly(s) => s case WithComma(c) => c.Text() }
    ghost predicate Valid() { match this case Plainly(s) => Spaces(s) case WithComma(c) => c.Valid() }
  }

  function MoreText(values: seq<string>, commas: seq<Comma>, tail: Tail): string
    requires |values| == |commas|
  {
    if values == [] then tail.Text() + ")"
    else commas[0].Text() + Quoted(values[0]) + MoreText(values[1..], commas[1..], tail)
  }

  /** A clause with these values, separators and ending. */
  function ClauseText(values: seq<string>, commas: seq<Comma>, tail: Tail): string
    requires values == [] || |commas| == |values| - 1
  {
    if values == [] then MARK + ")" else MARK + Quoted(values[0]) + MoreText(values[1..], commas, tail)
  }

  ghost predicate Valid(commas: seq<Comma>, tail: Tail) {
    tail.Valid() && forall c :: c in commas ==> c.Valid()
  }

  lemma {:induction false} ReadsQuoted(v: string, rest: string)
    requires rest == "" || rest[0] != '\''
    ensures ReadQuoted(Double(v) + "'" + rest) == Yes(v, rest)
  {
    var text := Double(v) + "'" + rest;
    if v == "" {
      assert text == "'" + rest && text[1..] == rest;
    } else {
      ReadsQuoted(v[1..], rest);
      var one := if v[0] == '\'' then "''" else [v[0]];
      assert text == one + (Double(v[1..]) + "'" + rest);
      assert text[|one|..] == Double(v[1..]) + "'" + rest;
      assert v == [v[0]] + v[1..];
    }
  }

  lemma DoubleMore(c: char, v: string)
    ensures Double([c] + v) == (if c == '\'' then "''" else [c]) + Double(v)
  {
    assert ([c] + v)[1..] == v;
  }

  lemma {:induction false} QuotedReads(text: string)
    ensures match ReadQuoted(text)
            case No => true
            case Yes(v, rest) => text == Double(v) + "'" + rest && (rest == "" || rest[0] != '\'')
    decreases |text|
  {
    hide Double;
    if text == "" {
    } else if text[0] != '\'' {
      QuotedReads(text[1..]);
      if ReadQuoted(text[1..]).Yes? {
        var v := ReadQuoted(text[1..]).value;
        DoubleMore(text[0], v);
        assert text == [text[0]] + text[1..];
        assert ReadQuoted(text).value == [text[0]] + v;
      }
    } else if |text| > 1 && text[1] == '\'' {
      QuotedReads(text[2..]);
      if ReadQuoted(text[2..]).Yes? {
        var v := ReadQuoted(text[2..]).value;
        DoubleMore('\'', v);
        assert text == "''" + text[2..];
        assert ReadQuoted(text).value == ['\''] + v;
      }
    } else {
      assert text == "'" + text[1..];
      NothingDoubled();
    }
  }

  lemma NothingDoubled()
    ensures Double("") == ""
  {}

  lemma {:induction false} DropsSpaces(s: string, rest: string)
    requires Spaces(s) && (rest == "" || !IsSpace(rest[0]))
    ensures DropSpace(s + rest) == rest
  {
    if s == "" {
      assert s + rest == rest;
    } else {
      DropsSpaces(s[1..], rest);
      assert (s + rest)[1..] == s[1..] + rest;
    }
  }

  lemma {:induction false} SpacesDropped(text: string) returns (s: string)
    ensures Spaces(s) && text == s + DropSpace(text)
  {
    if text != "" && IsSpace(text[0]) {
      var t := SpacesDropped(text[1..]);
      s := [text[0]] + t;
    } else {
      s := "";
    }
  }

  lemma SeparatorDropped(c: Comma, item: string)
    requires c.Valid() && item != "" && !IsSpace(item[0])
    ensures var t := "," + c.after + item; DropSpace(c.Text() + item) == t && DropSpace(t[1..]) == item
  {
    hide DropSpace;
    var t := "," + c.after + item;
    DropsSpaces(c.before, t);
    assert c.Text() + item == c.before + t;
    DropsSpaces(c.after, item);
    assert t[1..] == c.after + item;
  }

  lemma ReadsTail(tail: Tail, rest: string)
    requires tail.Valid()
    ensures ReadMore(tail.Text() + ")" + rest) == Yes([], rest)
  {
    hide ReadQuoted, DropSpace;
    var end, text := ")" + rest, tail.Text() + ")" + rest;
    assert text == tail.Text() + end && end[1..] == rest;
    match tail
    case Plainly(s) => DropsSpaces(s, end);
    case WithComma(c) => SeparatorDropped(c, end);
  }

  lemma ReadsItem(c: Comma, v: string, more: string)
    requires c.Valid() && more != "" && more[0] != '\'' && ReadMore(more).Yes?
    ensures ReadMore(c.Text() + Quoted(v) + more) == Yes([v] + ReadMore(more).value, ReadMore(more).rest)
  {
    hide ReadQuoted, DropSpace, Double;
    var item, text := Quoted(v) + more, c.Text() + Quoted(v) + more;
    assert text == c.Text() + item;
    SeparatorDropped(c, item);
    ReadsQuoted(v, more);
    assert item[1..] == Double(v) + "'" + more;
    ReadQuotedShorter(item[1..]);
  }

  /** Whatever the values, separators and ending, a list is read back, and the text after it kept. */
  lemma {:induction false} ReadsMore(values: seq<string>, commas: seq<Comma>, tail: Tail, rest: string)
    requires |values| == |commas| && Valid(commas, tail)
    ensures ReadMore(MoreText(values, commas, tail) + rest) == Yes(values, rest)
  {
    hide ReadMore, Quoted;
    if values == [] {
      ReadsTail(tail, rest);
    } else {
      var c, more := commas[0], MoreText(values[1..], commas[1..], tail) + rest;
      assert c in commas;
      forall d | d in commas[1..] ensures d.Valid() {}
      ReadsMore(values[1..], commas[1..], tail, rest);
      MoreStarts(values[1..], commas[1..], tail, rest);
      ReadsItem(c, values[0], more);
      assert MoreText(values, commas, tail) + rest == c.Text() + Quoted(values[0]) + more;
      assert values == [values[0]] + values[1..];
    }
  }

  /** After an item comes no quote. */
  lemma MoreStarts(values: seq<string>, commas: seq<Comma>, tail: Tail, rest: string)
    requires |values| == |commas| && Valid(commas, tail)
    ensures var t := MoreText(values, commas, tail) + rest; t != "" && t[0] != '\''
  {
    if values == [] {
      if tail.WithComma? { assert tail.comma.Valid(); }
    } else {
      assert commas[0] in commas;
    }
  }

  lemma TailReads(text: string) returns (tail: Tail)
    requires ReadMore(text).Yes? && ReadMore(text).value == []
    ensures tail.Valid() && text == tail.Text() + ")" + ReadMore(text).rest
  {
    hide ReadQuoted, DropSpace;
    var before := SpacesDropped(text);
    var t := DropSpace(text);
    if t[0] == ')' {
      tail := Plainly(before);
      assert text == before + (")" + t[1..]);
    } else {
      var after := SpacesDropped(t[1..]);
      tail := WithComma(Comma(before, after));
      var u := DropSpace(t[1..]);
      assert t == "," + (after + u) && u == ")" + u[1..];
      assert text == before + "," + after + ")" + u[1..];
    }
  }

  lemma SeparatorReads(text: string) returns (c: Comma)
    requires var t := DropSpace(text); t != "" && t[0] == ','
    ensures c.Valid() && text == c.Text() + DropSpace(DropSpace(text)[1..])
  {
    hide DropSpace;
    var before := SpacesDropped(text);
    var t := DropSpace(text);
    var after := SpacesDropped(t[1..]);
    c := Comma(before, after);
    assert t == "," + (after + DropSpace(t[1..]));
  }

  lemma ItemReads(text: string) returns (c: Comma, v: string, more: string)
    requires ReadMore(text).Yes? && ReadMore(text).value != []
    ensures c.Valid() && text == c.Text() + Quoted(v) + more && |more| < |text| && ReadMore(more).Yes?
    ensures ReadMore(text) == Yes([v] + ReadMore(more).value, ReadMore(more).rest)
  {
    hide ReadQuoted, DropSpace, Double, Comma.Text, Comma.Valid;
    c := SeparatorReads(text);
    var u := DropSpace(DropSpace(text)[1..]);
    QuotedReads(u[1..]);
    ReadQuotedShorter(u[1..]);
    v, more := ReadQuoted(u[1..]).value, ReadQuoted(u[1..]).rest;
    assert u == "'" + (Double(v) + "'" + more);
    assert u == Quoted(v) + more;
  }

  /** Whatever is read as a list is one, and leaves the rest. */
  lemma {:induction false} MoreReads(text: string) returns (commas: seq<Comma>, tail: Tail)
    requires ReadMore(text).Yes?
    ensures Valid(commas, tail) && |commas| == |ReadMore(text).value|
    ensures text == MoreText(ReadMore(text).value, commas, tail) + ReadMore(text).rest
    decreases |text|
  {
    hide ReadMore, Quoted;
    if ReadMore(text).value == [] {
      tail := TailReads(text);
      commas := [];
    } else {
      var c, v, more := ItemReads(text);
      var cs;
      cs, tail := MoreReads(more);
      commas := [c] + cs;
      assert ReadMore(text).value[1..] == ReadMore(more).value && commas[1..] == cs;
    }
  }

  lemma ReadsNone(rest: string)
    ensures ReadClause(MARK + ")" + rest) == Yes([], rest)
  {
    hide ReadQuoted, ReadMore;
    var text := MARK + ")" + rest;
    assert text == MARK + (")" + rest);
    assert text[|MARK|..] == ")" + rest;
  }

  lemma ReadsFirst(v: string, more: string)
    requires more != "" && more[0] != '\'' && ReadMore(more).Yes?
    ensures ReadClause(MARK + Quoted(v) + more) == Yes([v] + ReadMore(more).value, ReadMore(more).rest)
  {
    hide ReadQuoted, ReadMore, Double;
    var item, text := Quoted(v) + more, MARK + Quoted(v) + more;
    assert text == MARK + item;
    assert text[|MARK|..] == item;
    ReadsQuoted(v, more);
    assert item[1..] == Double(v) + "'" + more;
  }

  /** Reading finds a clause exactly where the grammar has one, and it has one parse. */
  lemma ReadsClause(values: seq<string>, commas: seq<Comma>, tail: Tail, rest: string)
    requires (values == [] || |commas| == |values| - 1) && Valid(commas, tail)
    ensures ReadClause(ClauseText(values, commas, tail) + rest) == Yes(values, rest)
  {
    hide ReadMore, Quoted, ReadClause, Tail.Text, Comma.Text;
    var text := ClauseText(values, commas, tail) + rest;
    if values == [] {
      ReadsNone(rest);
      assert text == MARK + ")" + rest;
    } else {
      var more := MoreText(values[1..], commas, tail) + rest;
      MoreStarts(values[1..], commas, tail, rest);
      ReadsMore(values[1..], commas, tail, rest);
      ReadsFirst(values[0], more);
      assert text == MARK + Quoted(values[0]) + more;
      assert values == [values[0]] + values[1..];
    }
  }

  lemma FirstReads(text: string) returns (v: string, more: string)
    requires ReadClause(text).Yes? && ReadClause(text).value != []
    ensures text == MARK + Quoted(v) + more && ReadMore(more).Yes?
    ensures ReadClause(text) == Yes([v] + ReadMore(more).value, ReadMore(more).rest)
  {
    hide ReadQuoted, ReadMore, Double;
    var t := text[|MARK|..];
    assert text == MARK + t;
    QuotedReads(t[1..]);
    v, more := ReadQuoted(t[1..]).value, ReadQuoted(t[1..]).rest;
    assert t == "'" + (Double(v) + "'" + more);
    assert text == MARK + Quoted(v) + more;
  }

  lemma ClauseReads(text: string) returns (commas: seq<Comma>, tail: Tail)
    requires ReadClause(text).Yes?
    ensures ReadClause(text).value == [] || |commas| == |ReadClause(text).value| - 1
    ensures Valid(commas, tail) && text == ClauseText(ReadClause(text).value, commas, tail) + ReadClause(text).rest
  {
    hide ReadMore, Quoted;
    if ReadClause(text).value == [] {
      commas, tail := [], Plainly("");
      assert text == MARK + ")" + text[|MARK| + 1..];
    } else {
      hide ReadClause;
      var v, more := FirstReads(text);
      commas, tail := MoreReads(more);
      assert ReadClause(text).value[1..] == ReadMore(more).value;
    }
  }

  // ----- the substitution -----

  datatype Stripped = Stripped(text: string, count: nat)

  lemma ReadClauseShorter(text: string)
    ensures ReadClause(text).Yes? ==> |ReadClause(text).rest| < |text|
  {
    if ReadClause(text).Yes? { var commas, tail := ClauseReads(text); }
  }

  /** `_SAMPLES.subn("", text)`: leftmost clauses dropped, one after the other. */
  function Strip(text: string): Stripped
    decreases |text|
  {
    if text == "" then Stripped("", 0)
    else
      ReadClauseShorter(text);
      match ReadClause(text)
      case Yes(_, rest) => var s := Strip(rest); Stripped(s.text, s.count + 1)
      case No => var s := Strip(text[1..]); Stripped([text[0]] + s.text, s.count)
  }

  ghost predicate MarkFree(text: string) {
    forall k :: 0 <= k <= |text| ==> !(MARK <= text[k..])
  }

  function CommaSpace(n: nat): seq<Comma> { seq(n, i => Comma("", " ")) }

  /** How a view prints a column's samples: `", ".join` of the quoted values. */
  function Printed(values: seq<string>): string {
    ClauseText(values, if values == [] then [] else CommaSpace(|values| - 1), Plainly(""))
  }

  /** A view's text: stretches of it, with a printed list after each but the last. */
  function View(parts: seq<string>, lists: seq<seq<string>>): string
    requires |parts| == |lists| + 1
    decreases |lists|
  {
    if lists == [] then parts[0] else parts[0] + (Printed(lists[0]) + View(parts[1..], lists[1..]))
  }

  function Concat(parts: seq<string>): string {
    if parts == [] then "" else parts[0] + Concat(parts[1..])
  }

  /** Text without the mark is kept as it is, up to a clause or the end. */
  lemma {:induction false} KeepsPlain(part: string, rest: string)
    requires MarkFree(part) && (rest == "" || MARK <= rest)
    ensures Strip(part + rest) == Stripped(part + Strip(rest).text, Strip(rest).count)
  {
    hide ReadClause;
    if part == "" {
      assert part + rest == rest;
    } else {
      var text := part + rest;
      NoMarkInside(part, rest);
      NoClause(text);
      assert MarkFree(part[1..]) by {
        forall k | 0 <= k <= |part[1..]| ensures !(MARK <= part[1..][k..]) { assert part[1..][k..] == part[k + 1..]; }
      }
      KeepsPlain(part[1..], rest);
      assert text[1..] == part[1..] + rest;
      assert [part[0]] + (part[1..] + Strip(rest).text) == part + Strip(rest).text;
    }
  }

  lemma NoClause(text: string)
    requires !(MARK <= text)
    ensures ReadClause(text).No?
  {}

  lemma MarkEnds()
    ensures |MARK| == 16 && MARK[15] == '(' && forall i :: 0 <= i < 15 ==> MARK[i] != '('
  {}

  /** The mark's only parenthesis is its last character, so no mark begins in plain text and ends in a clause. */
  lemma NoMarkInside(part: string, rest: string)
    requires part != "" && MarkFree(part) && (rest == "" || MARK <= rest)
    ensures !(MARK <= part + rest)
  {
    MarkEnds();
    var text := part + rest;
    assert part[0..] == part;
    if |part| >= 16 {
      assert text[..16] == part[..16];
    } else if |text| >= 16 {
      assert text[15] == rest[15 - |part|] == MARK[15 - |part|];
    }
  }

  lemma {:induction false} StripsView(parts: seq<string>, lists: seq<seq<string>>)
    requires |parts| == |lists| + 1 && forall p :: p in parts ==> MarkFree(p)
    ensures Strip(View(parts, lists)) == Stripped(Concat(parts), |lists|)
    decreases |lists|
  {
    hide ReadClause, MarkFree, Strip;
    assert parts[0] in parts;
    if lists == [] {
      KeepsPlain(parts[0], "");
      assert parts[0] + "" == parts[0] && Concat(parts[1..]) == "";
      StripNothing();
    } else {
      forall p | p in parts[1..] ensures MarkFree(p) {}
      var rest := View(parts[1..], lists[1..]);
      KeepsPlain(parts[0], Printed(lists[0]) + rest);
      StripsPrinted(lists[0], rest);
      StripsView(parts[1..], lists[1..]);
    }
  }

  lemma StripNothing()
    ensures Strip("") == Stripped("", 0)
  {}

  lemma StripsPrinted(values: seq<string>, rest: string)
    ensures MARK <= Printed(values) + rest
    ensures Strip(Printed(values) + rest) == Stripped(Strip(rest).text, Strip(rest).count + 1)
  {
    hide ReadClause;
    var commas := if values == [] then [] else CommaSpace(|values| - 1);
    ReadsClause(values, commas, Plainly(""), rest);
    assert Printed(values) + rest != "";
  }
}
