/** Which fields are scrubbed: every password field of the text, and nothing else. The keys are found by their own
    grammar, without the matcher. */
module RedactFields {
  import opened Characters
  import opened Options
  import opened Redact
  import opened RedactValues

  // ----- a password's name -----

  /** The same letter, the first in either case. */
  predicate Alike(c: char, lower: char) { c == lower || ('A' <= c <= 'Z' && c as int + 32 == lower as int) }

  predicate EndsAlike(word: string, name: string) {
    |name| <= |word| && forall i :: 0 <= i < |name| ==> Alike(word[|word| - |name| + i], name[i])
  }

  /** `password`, `passwd` or `pwd` ends the word, in any case. */
  predicate NamesPassword(word: string) {
    EndsAlike(word, "password") || EndsAlike(word, "passwd") || EndsAlike(word, "pwd")
  }

  lemma EndsLower(word: string, name: string)
    requires forall c :: c in name ==> 'a' <= c <= 'z'
    ensures EndsWith(Lower(word), name) <==> EndsAlike(word, name)
  {
    var low, n := Lower(word), |word| - |name|;
    if n >= 0 {
      forall i | 0 <= i < |name| ensures low[n + i] == name[i] <==> Alike(word[n + i], name[i]) {
        assert name[i] in name;
      }
      if EndsWith(low, name) {
        forall i | 0 <= i < |name| ensures low[n + i] == name[i] { assert low[n..][i] == low[n + i]; }
      }
      if EndsAlike(word, name) {
        assert low[n..] == name;
      }
    }
  }

  lemma SecretMeans(word: string)
    ensures IsSecret(word) <==> NamesPassword(word)
  {
    hide EndsWith, EndsAlike;
    EndsLower(word, "password");
    EndsLower(word, "passwd");
    EndsLower(word, "pwd");
  }

  // ----- a password field, by its own grammar -----

  /** A whole word that names a password at `w..r`, a quote perhaps, spaces, and the separator at `sep`. */
  ghost predicate IsKey(t: string, w: nat, r: nat, sep: nat) {
    w < r <= sep < |t| && (w == 0 || !IsWord(t[w - 1])) && (forall i :: w <= i < r ==> IsWord(t[i])) &&
    NamesPassword(t[w..r]) && IsSeparator(t[sep]) &&
    var m := if IsQuote(t[r]) then r + 1 else r;
    m <= sep && forall i :: m <= i < sep ==> IsSpace(t[i])
  }

  /** The field's value begins at `v`, the first character past the separator that is no space. */
  ghost predicate ValueFrom(t: string, sep: nat, v: nat) {
    sep < v < |t| && (forall i :: sep < i < v ==> IsSpace(t[i])) && !IsSpace(t[v])
  }

  /** Where the field begins: at the quote before its word, if there is one. */
  function FieldStart(t: string, w: nat): nat
    requires w <= |t|
  {
    if w > 0 && IsQuote(t[w - 1]) then w - 1 else w
  }

  lemma {:induction false} WordTo(t: string, i: nat, r: nat)
    requires i <= r <= |t| && (forall k :: i <= k < r ==> IsWord(t[k])) && (r < |t| ==> !IsWord(t[r]))
    ensures SkipWord(t, i) == r
    decreases r - i
  {
    if i < r { WordTo(t, i + 1, r); }
  }

  lemma {:induction false} SpaceTo(t: string, i: nat, v: nat)
    requires i <= v <= |t| && (forall k :: i <= k < v ==> IsSpace(t[k])) && (v < |t| ==> !IsSpace(t[v]))
    ensures SkipSpace(t, i) == v
    decreases v - i
  {
    if i < v { SpaceTo(t, i + 1, v); }
  }

  /** A key of the grammar is one the matcher knows. */
  lemma KeyIsMatched(t: string, w: nat, r: nat, sep: nat)
    requires IsKey(t, w, r, sep)
    ensures KeyFrom(t, w) == Some(sep + 1) && KeyAt(t, FieldStart(t, w)) == Some(sep + 1) &&
            !IsSpace(t[FieldStart(t, w)])
  {
    hide NamesPassword, IsSecret, SkipWord, SkipSpace;
    WordTo(t, w, r);
    SecretMeans(t[w..r]);
    SpaceTo(t, SkipQuote(t, r), sep);
  }

  /** And a match is a key of the grammar. */
  lemma MatchIsKey(t: string, s: nat) returns (w: nat, r: nat, sep: nat)
    requires s <= |t| && KeyAt(t, s).Some?
    ensures IsKey(t, w, r, sep) && KeyAt(t, s) == Some(sep + 1) && w == if IsQuote(t[s]) then s + 1 else s
  {
    hide NamesPassword, IsSecret, SkipWord, SkipSpace;
    w := if IsQuote(t[s]) then s + 1 else s;
    r := SkipWord(t, w);
    sep := SkipSpace(t, SkipQuote(t, r));
    SecretMeans(t[w..r]);
    if w == r {
      NoWordNoKey(t, w);
    }
  }

  // ----- every field is found, and nothing else -----

  ghost predicate CoveredBy(spans: seq<Span>, s: nat) { exists x :: x in spans && x.value <= s < x.end }

  /** No match holds the start of another within it. */
  lemma StartsApart(t: string, s: nat, i: nat)
    requires s < i <= |t| && KeyAt(t, s).Some? && KeyAt(t, i).Some? &&
             (i > 0 ==> FieldStart(t, i) == i || IsQuote(t[i]))
    requires i < |t|
    ensures KeyAt(t, s).value <= i
  {
    hide KeyFrom;
    if i < KeyAt(t, s).value {
      if i == s + 1 && IsQuote(t[s]) {
        NoWordNoKey(t, i);
      } else {
        NoneInside(t, s, i);
      }
    }
  }

  /** The scan finds the field, unless what was written already covers its start. */
  lemma {:induction false} Found(t: string, pos: nat, done: nat, s: nat, sep: nat, v: nat)
    requires pos <= s < |t| && KeyAt(t, s) == Some(sep + 1) && (FieldStart(t, s) == s || IsQuote(t[s])) &&
             !IsSpace(t[s])
    requires ValueFrom(t, sep, v)
    ensures ValueEnd(t, v).Some?
    ensures s < done || Span(v, ValueEnd(t, v).value) in Spans(t, pos, done) || CoveredBy(Spans(t, pos, done), s)
    decreases |t| - pos
  {
    hide NextKey, ValueEnd, SkipSpace, KeyAt, Spans, FieldStart;
    FirstKey(t, pos);
    SpansStep(t, pos, done);
    if ValueEnd(t, v).None? { NoValueAtEnd(t, v); }
    var key := NextKey(t, pos).value;
    if key.start == s {
      SpaceTo(t, sep + 1, v);
    } else {
      StartsApart(t, key.start, s);
      var value := SkipSpace(t, key.end);
      if key.start < done || ValueEnd(t, value).None? {
        Found(t, key.end, done, s, sep, v);
      } else {
        var end := ValueEnd(t, value).value;
        Found(t, key.end, end, s, sep, v);
        ValueBefore(t, key.end, s);
        FoundLater(t, Spans(t, key.end, end), Span(value, end), s, Span(v, ValueEnd(t, v).value));
      }
    }
  }

  lemma FoundLater(t: string, rest: seq<Span>, first: Span, s: nat, x: Span)
    requires (first.value <= s < first.end) || x in rest || CoveredBy(rest, s)
    ensures x in [first] + rest || CoveredBy([first] + rest, s)
  {
    if CoveredBy(rest, s) {
      var y :| y in rest && y.value <= s < y.end;
      assert y in [first] + rest;
    } else if first.value <= s < first.end {
      assert first in [first] + rest;
    }
  }

  /** What is no space is not before the value a key's spaces lead to. */
  lemma ValueBefore(t: string, k: nat, s: nat)
    requires k <= s < |t| && !IsSpace(t[s])
    ensures SkipSpace(t, k) <= s
  {
    hide SkipSpace;
  }

  /** Every password field is scrubbed, its value whole, unless it begins inside another that is. */
  lemma FieldIsScrubbed(t: string, w: nat, r: nat, sep: nat, v: nat)
    requires IsKey(t, w, r, sep) && ValueFrom(t, sep, v)
    ensures ValueEnd(t, v).Some?
    ensures Span(v, ValueEnd(t, v).value) in Spans(t, 0, 0) || CoveredBy(Spans(t, 0, 0), FieldStart(t, w))
  {
    hide KeyAt, Spans, ValueEnd;
    KeyIsMatched(t, w, r, sep);
    Found(t, 0, 0, FieldStart(t, w), sep, v);
  }

  /** The field a span is of. */
  ghost predicate FieldOf(t: string, x: Span, w: nat, r: nat, sep: nat) {
    IsKey(t, w, r, sep) && ValueFrom(t, sep, x.value) && ValueEnd(t, x.value) == Some(x.end)
  }

  /** Every span of a scan is of a field it came upon, past what was written. */
  lemma {:induction false} SpanIsField(t: string, pos: nat, done: nat, x: Span) returns (w: nat, r: nat, sep: nat)
    requires pos <= |t| && (pos > 0 ==> IsSeparator(t[pos - 1])) && x in Spans(t, pos, done)
    ensures FieldOf(t, x, w, r, sep) && pos <= FieldStart(t, w) && done <= FieldStart(t, w) < x.value
    ensures !CoveredBy(Spans(t, pos, done), FieldStart(t, w))
    decreases |t| - pos
  {
    hide NextKey, ValueEnd, SkipSpace, KeyAt, Spans, IsKey;
    FirstKey(t, pos);
    SpansStep(t, pos, done);
    var key := NextKey(t, pos).value;
    var value := SkipSpace(t, key.end);
    SpansPast(t, pos, done);
    if key.start < done || ValueEnd(t, value).None? {
      w, r, sep := SpanIsField(t, key.end, done, x);
    } else {
      var first, rest := Span(value, ValueEnd(t, value).value), Spans(t, key.end, ValueEnd(t, value).value);
      SpansPast(t, key.end, first.end);
      if x == first {
        w, r, sep := MatchIsKey(t, key.start);
        MatchStarts(t, pos, key.start, w, r, sep);
      } else {
        assert x in rest;
        w, r, sep := SpanIsField(t, key.end, first.end, x);
      }
    }
  }

  /** The first match from a point that follows no quote begins where its field does. */
  lemma MatchStarts(t: string, pos: nat, s: nat, w: nat, r: nat, sep: nat)
    requires pos <= s <= |t| && (pos > 0 ==> IsSeparator(t[pos - 1])) && KeyAt(t, s) == Some(sep + 1)
    requires forall i :: pos <= i < s ==> KeyAt(t, i).None?
    requires IsKey(t, w, r, sep) && w == if s < |t| && IsQuote(t[s]) then s + 1 else s
    ensures FieldStart(t, w) == s
  {
    hide KeyAt, IsKey;
    KeyIsMatched(t, w, r, sep);
  }

  /** What a scan still replaces begins past what was written. */
  lemma {:induction false} SpansPast(t: string, pos: nat, done: nat)
    requires pos <= |t|
    ensures forall x :: x in Spans(t, pos, done) ==> done < x.value && pos < x.value < x.end
    decreases |t| - pos
  {
    hide NextKey, ValueEnd, SkipSpace, KeyAt, Spans;
    SpansStep(t, pos, done);
    var key := NextKey(t, pos);
    if key.Some? {
      var value := SkipSpace(t, key.value.end);
      if key.value.start < done || ValueEnd(t, value).None? {
        SpansPast(t, key.value.end, done);
      } else {
        SpansPast(t, key.value.end, ValueEnd(t, value).value);
      }
    }
  }

  /** What is replaced is exactly this: the value of each password field that does not begin inside another's. */
  lemma SpansExactly(t: string, x: Span)
    ensures x in Spans(t, 0, 0) <==>
              exists w: nat, r: nat, sep: nat :: FieldOf(t, x, w, r, sep) && w <= |t| &&
                                                 !CoveredBy(Spans(t, 0, 0), FieldStart(t, w))
  {
    hide Spans, IsKey, ValueFrom, ValueEnd;
    if x in Spans(t, 0, 0) {
      var w, r, sep := SpanIsField(t, 0, 0, x);
      KeyInText(t, w, r, sep);
    }
    if w: nat, r: nat, sep: nat :| FieldOf(t, x, w, r, sep) && w <= |t| &&
                                   !CoveredBy(Spans(t, 0, 0), FieldStart(t, w)) {
      FieldIsScrubbed(t, w, r, sep, x.value);
    }
  }

  lemma KeyInText(t: string, w: nat, r: nat, sep: nat)
    requires IsKey(t, w, r, sep)
    ensures w <= |t|
  {}

  // ----- the values their grammars spell -----

  datatype Piece = Plain(c: char) | Escaped(c: char)

  function Spell(ps: seq<Piece>): string {
    if ps == [] then ""
    else (match ps[0] case Plain(c) => [c] case Escaped(c) => ['\\', c]) + Spell(ps[1..])
  }

  /** No plain character is a backslash, or one of these. */
  predicate PlainBut(ps: seq<Piece>, ends: string) {
    forall i :: 0 <= i < |ps| && ps[i].Plain? ==> ps[i].c != '\\' && ps[i].c !in ends
  }

  lemma Suffix(head: string, tail: string)
    ensures SameFrom(tail, 0, head + tail, |head|)
  {
    assert tail[0..] == tail && (head + tail)[|head|..] == tail;
  }

  /** A bare value runs over whatever is no blank, and over any character escaped. */
  lemma {:induction false} BareSpelled(ps: seq<Piece>)
    requires PlainBut(ps, " \t\r\n")
    ensures BareStop(Spell(ps), 0) == |Spell(ps)|
  {
    if ps != [] {
      var head, tail := Spell(ps)[..if ps[0].Plain? then 1 else 2], Spell(ps[1..]);
      assert Spell(ps) == head + tail;
      BareSpelled(ps[1..]);
      Suffix(head, tail);
      BareShift(tail, 0, head + tail, |head|);
    }
  }

  lemma {:induction false} QuoteSpelled(ps: seq<Piece>, quote: char)
    requires PlainBut(ps, [quote]) && IsQuote(quote)
    ensures QuoteStop(Spell(ps) + [quote], 0, quote) == |Spell(ps)|
  {
    if ps != [] {
      var head, tail := Spell(ps)[..if ps[0].Plain? then 1 else 2], Spell(ps[1..]) + [quote];
      assert Spell(ps) + [quote] == head + tail;
      QuoteSpelled(ps[1..], quote);
      Suffix(head, tail);
      QuoteShift(tail, 0, head + tail, |head|, quote);
    }
  }

  /** Inside braces any character stands for itself but the closing brace, which is doubled. */
  function SpellBraced(w: string): string {
    if w == "" then "" else (if w[0] == '}' then "}}" else [w[0]]) + SpellBraced(w[1..])
  }

  lemma {:induction false} BraceSpelled(w: string)
    ensures BraceStop(SpellBraced(w) + "}", 0) == |SpellBraced(w)|
  {
    if w != "" {
      var head, tail := if w[0] == '}' then "}}" else [w[0]], SpellBraced(w[1..]) + "}";
      assert SpellBraced(w) + "}" == head + tail;
      BraceSpelled(w[1..]);
      Suffix(head, tail);
      BraceShift(tail, 0, head + tail, |head|);
    }
  }

  /** Every value a form's own grammar spells is closed in that form. */
  lemma BareCloses(ps: seq<Piece>)
    requires PlainBut(ps, " \t\r\n") && ps != [] &&
             (ps[0].Plain? ==> !IsQuote(ps[0].c) && ps[0].c != '{' && !IsSpace(ps[0].c))
    ensures Closed(Spell(ps), Bare)
  {
    BareSpelled(ps);
  }

  lemma QuotedCloses(ps: seq<Piece>, quote: char)
    requires PlainBut(ps, [quote]) && IsQuote(quote)
    ensures Closed([quote] + Spell(ps) + [quote], Quoted)
  {
    var rest := Spell(ps) + [quote];
    QuoteSpelled(ps, quote);
    Suffix([quote], rest);
    QuoteShift(rest, 0, [quote] + rest, 1, quote);
    assert [quote] + rest == [quote] + Spell(ps) + [quote];
  }

  lemma BracedCloses(w: string)
    ensures Closed("{" + SpellBraced(w) + "}", Braced)
  {
    var rest := SpellBraced(w) + "}";
    BraceSpelled(w);
    Suffix("{", rest);
    BraceShift(rest, 0, "{" + rest, 1);
    assert "{" + rest == "{" + SpellBraced(w) + "}";
  }

  // ----- a field as it is written -----

  ghost predicate Spaces(s: string) { forall c :: c in s ==> IsSpace(c) }

  predicate OneQuoteAtMost(q: string) { q == "" || (|q| == 1 && IsQuote(q[0])) }

  /** The text up to a field's value. */
  function Before(a: string, word: string, q: string, s1: string, sep: char, s2: string): string {
    a + word + q + s1 + [sep] + s2
  }

  /** A field written anywhere, with a name that ends as a password's does and a closed value of any form, has that
      value replaced, all of it and no more, unless the field begins inside another's value. */
  lemma WrittenFieldIsScrubbed(a: string, word: string, q: string, s1: string, sep: char, s2: string, value: string,
                               b: string, f: Form)
    requires (a == "" || !IsWord(a[|a| - 1])) && (forall c :: c in word ==> IsWord(c)) && NamesPassword(word)
    requires OneQuoteAtMost(q) && Spaces(s1) && IsSeparator(sep) && Spaces(s2)
    requires Closed(value, f) && MayFollow(b, f)
    ensures var before := Before(a, word, q, s1, sep, s2);
            var t := before + value + b;
            Span(|before|, |before| + |value|) in Spans(t, 0, 0) || CoveredBy(Spans(t, 0, 0), FieldStart(t, |a|))
  {
    hide Spans, NamesPassword, Closed, MayFollow, ValueEnd;
    var before := Before(a, word, q, s1, sep, s2);
    var t := before + value + b;
    FirstNotSpace(value, f);
    NotEmpty(value, f);
    var w, r := |a|, |a| + |word|;
    var e := r + |q| + |s1|;
    NameNotEmpty(word);
    WrittenParts(a, word, q, s1, sep, s2, value + b);
    assert t == Before(a, word, q, s1, sep, s2) + (value + b);
    assert t[|before|] == value[0];
    ClosedValueEnds(before, value, b, f);
    FieldIsScrubbed(t, w, r, e, |before|);
  }

  lemma NameNotEmpty(word: string)
    requires NamesPassword(word)
    ensures word != ""
  {}

  lemma WrittenParts(a: string, word: string, q: string, s1: string, sep: char, s2: string, rest: string)
    requires (a == "" || !IsWord(a[|a| - 1])) && (forall c :: c in word ==> IsWord(c)) && NamesPassword(word) &&
             word != ""
    requires OneQuoteAtMost(q) && Spaces(s1) && IsSeparator(sep) && Spaces(s2)
    ensures var t := Before(a, word, q, s1, sep, s2) + rest;
            IsKey(t, |a|, |a| + |word|, |a| + |word| + |q| + |s1|) && t[|a|..|a| + |word|] == word
    ensures var t, e := Before(a, word, q, s1, sep, s2) + rest, |a| + |word| + |q| + |s1|;
            forall i :: e < i < |Before(a, word, q, s1, sep, s2)| ==> IsSpace(t[i])
  {
    hide NamesPassword;
    var t := Before(a, word, q, s1, sep, s2) + rest;
    var w, r := |a|, |a| + |word|;
    var m := r + |q|;
    var e := m + |s1|;
    assert t[w..r] == word;
    forall i | w <= i < r ensures IsWord(t[i]) { assert t[i] == word[i - w] && word[i - w] in word; }
    forall i | m <= i < e ensures IsSpace(t[i]) { assert t[i] == s1[i - m] && s1[i - m] in s1; }
    assert t[e] == sep;
    if q != "" { assert t[r] == q[0]; } else if s1 != "" { assert t[r] == s1[0] && s1[0] in s1; }
    forall i | e < i < e + 1 + |s2| ensures IsSpace(t[i]) { assert t[i] == s2[i - e - 1] && s2[i - e - 1] in s2; }
  }

  /** A text with one such field is put out with three stars for its value, and is otherwise as it was. */
  lemma OneFieldIsStarred(t: string, x: Span)
    requires Spans(t, 0, 0) == [x]
    ensures x.value < x.end <= |t| && Scrubbed(t, 0, 0) == t[..x.value] + "***" + t[x.end..]
  {
    hide Spans;
    SpansInOrder(t, 0, 0);
    assert [x][1..] == [];
    assert Replace(t, x.end, []) == t[x.end..];
    assert t[0..x.value] == t[..x.value];
  }
}
