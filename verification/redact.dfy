/** `scrub_credentials`, its password pass: each password field's value becomes `***`. */
module Redact {
  import opened Characters
  import opened Options

  // ----- characters -----

  predicate IsQuote(c: char) { c == '\'' || c == '"' }

  predicate IsSeparator(c: char) { c == '=' || c == ':' }

  /** `_BARE_END`. */
  predicate EndsBare(c: char) { c == ' ' || c == '\t' || c == '\r' || c == '\n' }

  predicate EndsWith(s: string, t: string) { |t| <= |s| && s[|s| - |t|..] == t }

  /** A word that names a password: `password`, `passwd` or `pwd` ends it, in any case. */
  predicate IsSecret(word: string) {
    EndsWith(Lower(word), "password") || EndsWith(Lower(word), "passwd") || EndsWith(Lower(word), "pwd")
  }

  // ----- the key: an optional quote, a whole word, an optional quote, spaces, a separator -----

  function SkipWord(text: string, i: nat): (j: nat)
    requires i <= |text|
    ensures i <= j <= |text| && (forall k :: i <= k < j ==> IsWord(text[k])) && (j < |text| ==> !IsWord(text[j]))
    decreases |text| - i
  {
    if i < |text| && IsWord(text[i]) then SkipWord(text, i + 1) else i
  }

  function SkipSpace(text: string, i: nat): (j: nat)
    requires i <= |text|
    ensures i <= j <= |text| && (forall k :: i <= k < j ==> IsSpace(text[k])) && (j < |text| ==> !IsSpace(text[j]))
    decreases |text| - i
  {
    if i < |text| && IsSpace(text[i]) then SkipSpace(text, i + 1) else i
  }

  /** Past the quote that may close a key's name. */
  function SkipQuote(text: string, i: nat): (j: nat)
    requires i <= |text|
    ensures i <= j <= |text|
  {
    if i < |text| && IsQuote(text[i]) then i + 1 else i
  }

  /** Where a key whose word stops at `r` ends, just after its separator. */
  function AfterWord(text: string, r: nat): (end: Option<nat>)
    requires r <= |text|
    ensures end.Some? ==> r < end.value <= |text| && IsSeparator(text[end.value - 1])
  {
    var s := SkipSpace(text, SkipQuote(text, r));
    if s < |text| && IsSeparator(text[s]) then Some(s + 1) else None
  }

  function KeyFrom(text: string, i: nat): (end: Option<nat>)
    requires i <= |text|
    ensures end.Some? ==> i < end.value <= |text| && IsSeparator(text[end.value - 1])
  {
    hide IsSecret, AfterWord;
    var r := SkipWord(text, i);
    if IsSecret(text[i..r]) then AfterWord(text, r) else None
  }

  /** Where the key that begins at `i` ends: `_PASSWORD_KEY` matched there. */
  function KeyAt(text: string, i: nat): (end: Option<nat>)
    requires i <= |text|
    ensures end.Some? ==> i < end.value <= |text| && IsSeparator(text[end.value - 1])
  {
    hide KeyFrom;
    if i < |text| && IsQuote(text[i]) then KeyFrom(text, i + 1)
    else if i < |text| && IsWord(text[i]) && (i == 0 || !IsWord(text[i - 1])) then KeyFrom(text, i)
    else None
  }

  datatype Match = Match(start: nat, end: nat)

  /** `finditer`'s next match at or after `i`. */
  function NextKey(text: string, i: nat): (m: Option<Match>)
    requires i <= |text|
    ensures m.Some? ==> i <= m.value.start < m.value.end <= |text| && KeyAt(text, m.value.start) == Some(m.value.end)
    decreases |text| - i
  {
    hide KeyAt;
    if KeyAt(text, i).Some? then Some(Match(i, KeyAt(text, i).value))
    else if i == |text| then None
    else NextKey(text, i + 1)
  }

  // ----- the value, by its own grammar -----

  function QuoteStop(text: string, i: nat, quote: char): (j: nat)
    ensures i <= j
    decreases |text| - i
  {
    if i >= |text| || text[i] == quote then i
    else QuoteStop(text, if text[i] == '\\' then i + 2 else i + 1, quote)
  }

  /** The index of the brace that closes, where `}}` is a literal brace. */
  function BraceStop(text: string, i: nat): (j: nat)
    ensures i <= j
    decreases |text| - i
  {
    if i >= |text| then i
    else if text[i] != '}' then BraceStop(text, i + 1)
    else if i + 1 < |text| && text[i + 1] == '}' then BraceStop(text, i + 2)
    else i
  }

  function BareStop(text: string, i: nat): (j: nat)
    ensures i <= j
    decreases |text| - i
  {
    if i >= |text| || EndsBare(text[i]) then i
    else BareStop(text, if text[i] == '\\' then i + 2 else i + 1)
  }

  function Min(a: nat, b: nat): nat { if a <= b then a else b }

  /** `_value_end`. */
  function ValueEnd(text: string, value: nat): (end: Option<nat>)
    ensures end.Some? ==> value < end.value <= |text|
  {
    if value >= |text| then None
    else if IsQuote(text[value]) then Some(Min(QuoteStop(text, value + 1, text[value]) + 1, |text|))
    else if text[value] == '{' then Some(Min(BraceStop(text, value + 1) + 1, |text|))
    else if BareStop(text, value) > value then Some(Min(BareStop(text, value), |text|))
    else None
  }

  /** The three scans of `_value_end` as they run. */
  method FindValueEnd(text: string, value: nat) returns (result: Option<nat>)
    ensures result == ValueEnd(text, value)
  {
    if value >= |text| {
      return None;
    }
    var opener := text[value];
    var end: nat;
    if IsQuote(opener) {
      end := value + 1;
      while end < |text| && text[end] != opener
        invariant QuoteStop(text, end, opener) == QuoteStop(text, value + 1, opener)
      {
        end := if text[end] == '\\' then end + 2 else end + 1;
      }
      return Some(Min(end + 1, |text|));
    }
    if opener == '{' {
      end := value + 1;
      while end < |text|
        invariant BraceStop(text, end) == BraceStop(text, value + 1)
      {
        if text[end] == '}' {
          if end + 1 < |text| && text[end + 1] == '}' {
            end := end + 2;
            continue;
          }
          return Some(end + 1);
        }
        end := end + 1;
      }
      return Some(|text|);
    }
    end := value;
    while end < |text| && !EndsBare(text[end])
      invariant value <= end && BareStop(text, end) == BareStop(text, value)
    {
      end := if text[end] == '\\' then end + 2 else end + 1;
    }
    return if end > value then Some(Min(end, |text|)) else None;
  }

  // ----- the pass -----

  datatype Span = Span(value: nat, end: nat)

  /** The spans replaced, with the matcher at `pos` and everything before `done` already written. */
  function Spans(text: string, pos: nat, done: nat): (spans: seq<Span>)
    requires pos <= |text|
    decreases |text| - pos
  {
    match NextKey(text, pos)
    case None => []
    case Some(key) =>
      if key.start < done then Spans(text, key.end, done) else
        var value := SkipSpace(text, key.end);
        match ValueEnd(text, value)
        case None => Spans(text, key.end, done)
        case Some(end) => [Span(value, end)] + Spans(text, key.end, end)
  }

  /** The text from `done` on, each span written as `***`. */
  function Replace(text: string, done: nat, spans: seq<Span>): string
    requires done <= |text| && InOrder(text, done, spans)
    decreases |spans|
  {
    if spans == [] then text[done..]
    else text[done..spans[0].value] + "***" + Replace(text, spans[0].end, spans[1..])
  }

  /** Spans of `text` past `done`: in bounds, not empty, each past the one before. */
  predicate InOrder(text: string, done: nat, spans: seq<Span>)
    decreases |spans|
  {
    spans == [] || (done <= spans[0].value < spans[0].end <= |text| && InOrder(text, spans[0].end, spans[1..]))
  }

  lemma {:induction false} SpansInOrder(text: string, pos: nat, done: nat)
    requires pos <= |text|
    ensures InOrder(text, done, Spans(text, pos, done))
    decreases |text| - pos
  {
    var key := NextKey(text, pos);
    if key.Some? {
      var value := SkipSpace(text, key.value.end);
      if key.value.start < done || ValueEnd(text, value).None? {
        SpansInOrder(text, key.value.end, done);
      } else {
        SpansInOrder(text, key.value.end, ValueEnd(text, value).value);
        assert Spans(text, pos, done)[1..] == Spans(text, key.value.end, ValueEnd(text, value).value);
      }
    }
  }

  function Scrubbed(text: string, pos: nat, done: nat): string
    requires pos <= |text| && done <= |text|
  {
    SpansInOrder(text, pos, done);
    Replace(text, done, Spans(text, pos, done))
  }

  method ScrubPasswords(text: string) returns (out: string)
    ensures out == Scrubbed(text, 0, 0)
  {
    hide ValueEnd, SkipSpace, NextKey, Spans, Replace, Scrubbed, InOrder;
    out := "";
    var pos: nat, done: nat := 0, 0;
    var key := NextKey(text, pos);
    while key.Some?
      invariant pos <= |text| && done <= |text| && key == NextKey(text, pos)
      invariant out + Scrubbed(text, pos, done) == Scrubbed(text, 0, 0)
      decreases |text| - pos
    {
      ScrubStep(text, pos, done);
      if key.value.start >= done {
        var value := SkipSpace(text, key.value.end);
        var end := FindValueEnd(text, value);
        if end.Some? {
          assert (out + (text[done..value] + "***")) + Scrubbed(text, key.value.end, end.value) ==
                 out + (text[done..value] + "***" + Scrubbed(text, key.value.end, end.value));
          out, done := out + (text[done..value] + "***"), end.value;
        }
      }
      pos := key.value.end;
      key := NextKey(text, pos);
    }
    ScrubStep(text, pos, done);
    out := out + text[done..];
  }

  lemma ScrubStep(text: string, pos: nat, done: nat)
    requires pos <= |text| && done <= |text|
    ensures match NextKey(text, pos)
            case None => Scrubbed(text, pos, done) == text[done..]
            case Some(key) =>
              var value := SkipSpace(text, key.end);
              if key.start < done || ValueEnd(text, value).None?
              then Scrubbed(text, pos, done) == Scrubbed(text, key.end, done)
              else done <= value && Scrubbed(text, pos, done) ==
                   text[done..value] + "***" + Scrubbed(text, key.end, ValueEnd(text, value).value)
  {
    var key := NextKey(text, pos);
    if key.Some? && key.value.start >= done && ValueEnd(text, SkipSpace(text, key.value.end)).Some? {
      var value := SkipSpace(text, key.value.end);
      var end := ValueEnd(text, value).value;
      SpansInOrder(text, pos, done);
      assert Spans(text, pos, done)[1..] == Spans(text, key.value.end, end);
    }
  }
}
