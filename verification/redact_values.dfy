/** What the scrubbed text says of a scrubbed value: nothing, not even its length. */
module RedactValues {
  import opened Characters
  import opened Options
  import opened Redact

  // ----- a key is read no further than its separator -----

  /** Texts that agree up to a separator agree on every key that begins before it. */
  lemma KeyAtLocal(t: string, u: string, m: nat, i: nat)
    requires i < m <= |t| && m <= |u| && t[..m] == u[..m] && IsSeparator(t[m - 1])
    ensures KeyAt(t, i) == KeyAt(u, i)
  {
    hide KeyFrom;
    SameBefore(t, u, m);
    if IsQuote(t[i]) {
      KeyFromLocal(t, u, m, i + 1);
    } else {
      KeyFromLocal(t, u, m, i);
    }
  }

  lemma SameBefore(t: string, u: string, m: nat)
    requires m <= |t| && m <= |u| && t[..m] == u[..m]
    ensures forall k :: 0 <= k < m ==> t[k] == u[k]
  {
    forall k | 0 <= k < m ensures t[k] == u[k] { assert t[..m][k] == u[..m][k]; }
  }

  lemma KeyFromLocal(t: string, u: string, m: nat, i: nat)
    requires i < m <= |t| && m <= |u| && t[..m] == u[..m] && IsSeparator(t[m - 1])
    ensures KeyFrom(t, i) == KeyFrom(u, i)
  {
    hide IsSecret, SkipWord, AfterWord;
    SameBefore(t, u, m);
    WordLocal(t, u, m, i);
    var r := SkipWord(t, i);
    assert t[i..r] == t[..m][i..r] == u[..m][i..r] == u[i..r];
    AfterWordLocal(t, u, m, r);
  }

  lemma AfterWordLocal(t: string, u: string, m: nat, r: nat)
    requires r < m <= |t| && m <= |u| && IsSeparator(t[m - 1]) && forall k :: 0 <= k < m ==> t[k] == u[k]
    ensures AfterWord(t, r) == AfterWord(u, r)
  {
    hide SkipSpace;
    SpaceLocal(t, u, m, SkipQuote(t, r));
  }

  lemma {:induction false} WordLocal(t: string, u: string, m: nat, i: nat)
    requires i < m <= |t| && m <= |u| && IsSeparator(t[m - 1]) && forall k :: 0 <= k < m ==> t[k] == u[k]
    ensures SkipWord(t, i) == SkipWord(u, i) < m
    decreases m - i
  {
    if IsWord(t[i]) { WordLocal(t, u, m, i + 1); }
  }

  lemma {:induction false} SpaceLocal(t: string, u: string, m: nat, i: nat)
    requires i < m <= |t| && m <= |u| && !IsSpace(t[m - 1]) && forall k :: 0 <= k < m ==> t[k] == u[k]
    ensures SkipSpace(t, i) == SkipSpace(u, i) < m
    decreases m - i
  {
    if IsSpace(t[i]) { SpaceLocal(t, u, m, i + 1); }
  }

  lemma {:induction false} NextKeyLocal(t: string, u: string, m: nat, i: nat)
    requires i <= |t| && NextKey(t, i).Some? && NextKey(t, i).value.end <= m <= |t| && m <= |u| && t[..m] == u[..m]
    ensures i <= |u| && NextKey(u, i) == NextKey(t, i)
    decreases |t| - i
  {
    hide KeyAt;
    var end := NextKey(t, i).value.end;
    assert t[..end] == t[..m][..end] == u[..m][..end] == u[..end];
    KeyAtLocal(t, u, end, i);
    if KeyAt(t, i).None? { NextKeyLocal(t, u, m, i + 1); }
  }

  /** A value that ends before `m` ends there whatever follows `m`. */
  lemma ValueLocal(t: string, u: string, m: nat, value: nat)
    requires value < m <= |t| && m <= |u| && t[..m] == u[..m]
    requires ValueEnd(t, value).Some? && ValueEnd(t, value).value < m
    ensures ValueEnd(u, value) == ValueEnd(t, value)
  {
    SameBefore(t, u, m);
    if IsQuote(t[value]) {
      QuoteLocal(t, u, m, value + 1, t[value]);
    } else if t[value] == '{' {
      BraceLocal(t, u, m, value + 1);
    } else {
      BareLocal(t, u, m, value);
    }
  }

  lemma {:induction false} QuoteLocal(t: string, u: string, m: nat, i: nat, quote: char)
    requires i <= m <= |t| && m <= |u| && QuoteStop(t, i, quote) + 1 < m && forall k :: 0 <= k < m ==> t[k] == u[k]
    ensures QuoteStop(u, i, quote) == QuoteStop(t, i, quote)
    decreases m - i
  {
    if t[i] != quote { QuoteLocal(t, u, m, if t[i] == '\\' then i + 2 else i + 1, quote); }
  }

  lemma {:induction false} BraceLocal(t: string, u: string, m: nat, i: nat)
    requires i <= m <= |t| && m <= |u| && BraceStop(t, i) + 1 < m && forall k :: 0 <= k < m ==> t[k] == u[k]
    ensures BraceStop(u, i) == BraceStop(t, i)
    decreases m - i
  {
    if t[i] != '}' {
      BraceLocal(t, u, m, i + 1);
    } else if t[i + 1] == '}' {
      BraceLocal(t, u, m, i + 2);
    }
  }

  lemma {:induction false} BareLocal(t: string, u: string, m: nat, i: nat)
    requires i <= m <= |t| && m <= |u| && BareStop(t, i) < m && forall k :: 0 <= k < m ==> t[k] == u[k]
    ensures BareStop(u, i) == BareStop(t, i)
    decreases m - i
  {
    if !EndsBare(t[i]) { BareLocal(t, u, m, if t[i] == '\\' then i + 2 else i + 1); }
  }

  // ----- what is read from a point on does not depend on where the point is -----

  ghost predicate SameFrom(t: string, p: nat, u: string, q: nat) {
    p <= |t| && q <= |u| && t[p..] == u[q..]
  }

  lemma Bounds(t: string, p: nat, u: string, q: nat)
    requires SameFrom(t, p, u, q)
    ensures p <= |t| && q <= |u| && |t| - p == |u| - q
  {
    assert |t[p..]| == |u[q..]|;
  }

  lemma SliceSame(t: string, p: nat, u: string, q: nat, a: nat, b: nat)
    requires SameFrom(t, p, u, q) && a <= b <= |t| - p
    ensures |t| - p == |u| - q && t[p + a..p + b] == u[q + a..q + b]
  {
    Bounds(t, p, u, q);
    forall i | p + a <= i < p + b ensures t[i] == u[i - p + q] { assert t[p..][i - p] == u[q..][i - p]; }
  }

  lemma SameFromOn(t: string, p: nat, u: string, q: nat, n: nat)
    requires SameFrom(t, p, u, q) && n <= |t| - p
    ensures p <= |t| && q <= |u|
    ensures |t| - p == |u| - q && SameFrom(t, p + n, u, q + n)
    ensures n < |t| - p ==> t[p + n] == u[q + n]
  {
    assert t[p + n..] == t[p..][n..] && u[q + n..] == u[q..][n..];
    if n < |t| - p { assert t[p..][n] == t[p + n] && u[q..][n] == u[q + n]; }
  }

  lemma {:induction false} WordShift(t: string, p: nat, u: string, q: nat)
    requires SameFrom(t, p, u, q)
    ensures SkipWord(t, p) - p == SkipWord(u, q) - q
    decreases |t| - p
  {
    SameFromOn(t, p, u, q, 0);
    if p < |t| && IsWord(t[p]) {
      SameFromOn(t, p, u, q, 1);
      WordShift(t, p + 1, u, q + 1);
    }
  }

  lemma {:induction false} SpaceShift(t: string, p: nat, u: string, q: nat)
    requires SameFrom(t, p, u, q)
    ensures SkipSpace(t, p) - p == SkipSpace(u, q) - q
    decreases |t| - p
  {
    SameFromOn(t, p, u, q, 0);
    if p < |t| && IsSpace(t[p]) {
      SameFromOn(t, p, u, q, 1);
      SpaceShift(t, p + 1, u, q + 1);
    }
  }

  ghost function Moved(end: Option<nat>, p: nat, q: nat): Option<int> {
    if end.None? then None else Some(end.value - p + q)
  }

  lemma QuoteSame(t: string, p: nat, u: string, q: nat)
    requires SameFrom(t, p, u, q)
    ensures p <= |t| && q <= |u| && SkipQuote(t, p) - p == SkipQuote(u, q) - q
  {
    SameFromOn(t, p, u, q, 0);
  }

  lemma AfterWordShift(t: string, p: nat, u: string, q: nat)
    requires SameFrom(t, p, u, q)
    ensures Moved(AfterWord(t, p), p, q) == AfterWord(u, q)
  {
    hide SameFrom, SkipSpace, SkipQuote;
    Bounds(t, p, u, q);
    QuoteSame(t, p, u, q);
    var a, b := SkipQuote(t, p), SkipQuote(u, q);
    SameFromOn(t, p, u, q, a - p);
    SpaceShift(t, a, u, b);
    SameFromOn(t, p, u, q, SkipSpace(t, a) - p);
  }

  lemma KeyFromShift(t: string, p: nat, u: string, q: nat)
    requires SameFrom(t, p, u, q)
    ensures Moved(KeyFrom(t, p), p, q) == KeyFrom(u, q)
  {
    hide IsSecret, SameFrom, SkipWord, AfterWord;
    Bounds(t, p, u, q);
    WordShift(t, p, u, q);
    var n := SkipWord(t, p) - p;
    SameFromOn(t, p, u, q, n);
    SliceSame(t, p, u, q, 0, n);
    AfterWordShift(t, p + n, u, q + n);
  }

  /** Nothing before the point decides whether a key begins at it. */
  ghost predicate Fresh(t: string, p: nat) { 0 < p <= |t| && (!IsWord(t[p - 1]) || (p < |t| && !IsWord(t[p]))) }

  lemma SameCharacter(t: string, p: nat, u: string, q: nat, n: nat)
    requires SameFrom(t, p, u, q) && n < |t| - p
    ensures p + n < |t| && q + n < |u| && t[p + n] == u[q + n]
  {
    hide SameFrom;
    SameFromOn(t, p, u, q, n);
  }

  lemma KeyAtShift(t: string, p: nat, u: string, q: nat, n: nat)
    requires SameFrom(t, p, u, q) && Fresh(t, p) && Fresh(u, q) && n <= |t| - p && n <= |u| - q
    ensures Moved(KeyAt(t, p + n), p, q) == KeyAt(u, q + n)
  {
    hide KeyFrom, SameFrom, IsWord, IsQuote;
    Bounds(t, p, u, q);
    if n < |t| - p {
      SameCharacter(t, p, u, q, n);
      if n > 0 { SameCharacter(t, p, u, q, n - 1); }
      if IsQuote(t[p + n]) {
        SameFromOn(t, p, u, q, n + 1);
        KeyFromShift(t, p + n + 1, u, q + n + 1);
      } else {
        SameFromOn(t, p, u, q, n);
        KeyFromShift(t, p + n, u, q + n);
      }
    }
  }

  lemma {:induction false} NextKeyShift(t: string, p: nat, u: string, q: nat, n: nat)
    requires SameFrom(t, p, u, q) && Fresh(t, p) && Fresh(u, q) && n <= |t| - p && n <= |u| - q
    ensures match NextKey(t, p + n)
            case None => NextKey(u, q + n) == None
            case Some(k) => k.start >= p && NextKey(u, q + n) == Some(Match(k.start - p + q, k.end - p + q))
    decreases |t| - p - n
  {
    hide KeyAt, Fresh;
    SameFromOn(t, p, u, q, n);
    KeyAtShift(t, p, u, q, n);
    if KeyAt(t, p + n).None? && p + n < |t| { NextKeyShift(t, p, u, q, n + 1); }
  }

  lemma ValueShift(t: string, p: nat, u: string, q: nat)
    requires SameFrom(t, p, u, q)
    ensures Moved(ValueEnd(t, p), p, q) == ValueEnd(u, q)
  {
    SameFromOn(t, p, u, q, 0);
    if p < |t| {
      SameFromOn(t, p, u, q, 1);
      QuoteShift(t, p + 1, u, q + 1, t[p]);
      BraceShift(t, p + 1, u, q + 1);
      BareShift(t, p, u, q);
    }
  }

  /** An escape at the very end of the text may step one past it. */
  ghost predicate SameOrPast(t: string, p: nat, u: string, q: nat) {
    SameFrom(t, p, u, q) || (p > |t| && q > |u| && p - |t| == q - |u|)
  }

  lemma EscapeOn(t: string, p: nat, u: string, q: nat)
    requires SameFrom(t, p, u, q) && p < |t|
    ensures q < |u| && t[p] == u[q] && SameFrom(t, p + 1, u, q + 1) && SameOrPast(t, p + 2, u, q + 2)
  {
    SameFromOn(t, p, u, q, 0);
    SameFromOn(t, p, u, q, 1);
    if p + 2 <= |t| { SameFromOn(t, p, u, q, 2); }
  }

  lemma {:induction false} QuoteShift(t: string, p: nat, u: string, q: nat, quote: char)
    requires SameOrPast(t, p, u, q)
    ensures QuoteStop(t, p, quote) - p == QuoteStop(u, q, quote) - q
    ensures QuoteStop(t, p, quote) - |t| == QuoteStop(u, q, quote) - |u|
    decreases |t| - p
  {
    if p < |t| {
      EscapeOn(t, p, u, q);
      var step := if t[p] == '\\' then 2 else 1;
      SameFromOn(t, p, u, q, 0);
      if t[p] != quote { QuoteShift(t, p + step, u, q + step, quote); }
    } else if p == |t| {
      SameFromOn(t, p, u, q, 0);
    }
  }

  lemma {:induction false} BraceShift(t: string, p: nat, u: string, q: nat)
    requires SameFrom(t, p, u, q)
    ensures BraceStop(t, p) - p == BraceStop(u, q) - q
    ensures BraceStop(t, p) - |t| == BraceStop(u, q) - |u|
    decreases |t| - p
  {
    SameFromOn(t, p, u, q, 0);
    if p < |t| {
      SameFromOn(t, p, u, q, 1);
      if t[p] != '}' {
        BraceShift(t, p + 1, u, q + 1);
      } else if p + 1 < |t| && t[p + 1] == '}' {
        SameFromOn(t, p, u, q, 2);
        BraceShift(t, p + 2, u, q + 2);
      }
    }
  }

  lemma {:induction false} BareShift(t: string, p: nat, u: string, q: nat)
    requires SameOrPast(t, p, u, q)
    ensures BareStop(t, p) - p == BareStop(u, q) - q
    ensures BareStop(t, p) - |t| == BareStop(u, q) - |u|
    decreases |t| - p
  {
    if p < |t| {
      EscapeOn(t, p, u, q);
      var step := if t[p] == '\\' then 2 else 1;
      SameFromOn(t, p, u, q, 0);
      if !EndsBare(t[p]) { BareShift(t, p + step, u, q + step); }
    } else if p == |t| {
      SameFromOn(t, p, u, q, 0);
    }
  }

  /** The value after a key that ends at offset `k`, and the text between `done` and it. */
  lemma FieldShift(t: string, p: nat, u: string, q: nat, k: nat, done: nat)
    requires SameFrom(t, p, u, q) && k <= |t| - p && k <= |u| - q
    ensures p + k <= |t| && q + k <= |u|
    ensures var v, w := SkipSpace(t, p + k), SkipSpace(u, q + k);
            && v - p == w - q && Moved(ValueEnd(t, v), p, q) == ValueEnd(u, w)
            && (p + done <= v ==> q + done <= w && t[p + done..v] == u[q + done..w])
  {
    hide SameFrom, SkipSpace, ValueEnd;
    Bounds(t, p, u, q);
    SameFromOn(t, p, u, q, k);
    SpaceShift(t, p + k, u, q + k);
    var v, w := SkipSpace(t, p + k), SkipSpace(u, q + k);
    SameFromOn(t, p, u, q, v - p);
    ValueShift(t, v, u, w);
    if p + done <= v { SliceSame(t, p, u, q, done, v - p); }
  }

  /** A match that is skipped or closed moves the same way in both texts, if what follows it does. */
  lemma StepShift(t: string, p: nat, u: string, q: nat, n: nat, done: nat, next: nat)
    requires SameFrom(t, p, u, q) && |t| - p == |u| - q && p <= |t| && q <= |u| && n <= |t| - p && done <= |t| - p
    requires var a, b := NextKey(t, p + n), NextKey(u, q + n);
             a.Some? && b.Some? && a.value.start >= p && next == a.value.end - p &&
             b.value == Match(a.value.start - p + q, a.value.end - p + q)
    requires var end := ValueEnd(t, SkipSpace(t, p + next));
             var skipped := NextKey(t, p + n).value.start < p + done || end.None?;
             Scrubbed(t, p + next, if skipped then p + done else end.value) ==
             Scrubbed(u, q + next, if skipped then q + done else end.value - p + q)
    ensures Scrubbed(t, p + n, p + done) == Scrubbed(u, q + n, q + done)
  {
    hide NextKey, ValueEnd, SkipSpace, Spans, Replace, Scrubbed, InOrder, SameFrom, KeyAt;
    FieldShift(t, p, u, q, next, done);
    ScrubStep(t, p + n, p + done);
    ScrubStep(u, q + n, q + done);
  }

  lemma TailShift(t: string, p: nat, u: string, q: nat, n: nat, done: nat)
    requires SameFrom(t, p, u, q) && |t| - p == |u| - q && p <= |t| && q <= |u| && n <= |t| - p && done <= |t| - p
    requires NextKey(t, p + n).None? && NextKey(u, q + n).None?
    ensures Scrubbed(t, p + n, p + done) == Scrubbed(u, q + n, q + done)
  {
    hide NextKey, ValueEnd, SkipSpace, Spans, Replace, Scrubbed, InOrder, SameFrom, KeyAt;
    ScrubStep(t, p + n, p + done);
    ScrubStep(u, q + n, q + done);
    SliceSame(t, p, u, q, done, |t| - p);
    assert t[p + done..] == t[p + done..p + (|t| - p)] && u[q + done..] == u[q + done..q + (|t| - p)];
  }

  /** Scrubbing from a fresh point on depends only on the text from there on. */
  lemma {:induction false} ScrubShift(t: string, p: nat, u: string, q: nat, n: nat, done: nat)
    requires SameFrom(t, p, u, q) && Fresh(t, p) && Fresh(u, q) && |t| - p == |u| - q
    requires p <= |t| && q <= |u| && n <= |t| - p && done <= |t| - p
    ensures Scrubbed(t, p + n, p + done) == Scrubbed(u, q + n, q + done)
    decreases |t| - p - n
  {
    hide NextKey, ValueEnd, SkipSpace, Spans, Replace, Scrubbed, InOrder, Fresh, SameFrom, KeyAt;
    NextKeyShift(t, p, u, q, n);
    var key := NextKey(t, p + n);
    if key.None? {
      TailShift(t, p, u, q, n, done);
    } else {
      var k := key.value.end - p;
      var end := ValueEnd(t, SkipSpace(t, p + k));
      ScrubShift(t, p, u, q, k, if key.value.start < p + done || end.None? then done else end.value - p);
      StepShift(t, p, u, q, n, done, k);
    }
  }

  // ----- coming back in step after a skipped match -----

  /** A match is its word, up to `r`, a quote perhaps, spaces up to `e`, and the separator. */
  lemma MatchShape(t: string, s: nat) returns (r: nat, e: nat)
    requires s <= |t| && KeyAt(t, s).Some?
    ensures s < |t| && s <= r <= e < |t| && KeyAt(t, s) == Some(e + 1)
    ensures forall i :: (if IsQuote(t[s]) then s + 1 else s) <= i < r ==> IsWord(t[i])
    ensures SkipQuote(t, r) <= e && (forall i :: SkipQuote(t, r) <= i < e ==> IsSpace(t[i])) && IsSeparator(t[e])
  {
    hide IsSecret, SkipWord, SkipSpace;
    r := SkipWord(t, if IsQuote(t[s]) then s + 1 else s);
    e := SkipSpace(t, SkipQuote(t, r));
  }

  lemma NoStart(t: string, i: nat)
    requires i < |t| && !IsQuote(t[i]) && (!IsWord(t[i]) || (i > 0 && IsWord(t[i - 1])))
    ensures KeyAt(t, i).None?
  {}

  /** Inside a match no other begins, but for its own word where it opens with a quote. */
  lemma NoneInside(t: string, s: nat, i: nat)
    requires s <= |t| && KeyAt(t, s).Some? && s < i < KeyAt(t, s).value
    requires i == s + 1 ==> !IsQuote(t[s])
    ensures KeyAt(t, i).None?
  {
    hide KeyFrom;
    var r, e := MatchShape(t, s);
    if i < r {
      NoStart(t, i);
    } else if i == r && IsQuote(t[r]) {
      NoWordNoKey(t, r + 1);
    } else {
      NoStart(t, i);
    }
  }

  lemma NoWordNoKey(t: string, i: nat)
    requires i <= |t| && (i < |t| ==> !IsWord(t[i]))
    ensures KeyFrom(t, i).None?
  {
    assert Lower("") == "";
    assert !IsSecret("");
    assert t[i..i] == "";
  }

  /** Where a scan may be picked up: no match spans the point with its word beyond it. */
  ghost predicate Cut(t: string, c: nat) {
    c <= |t| && (c < |t| ==> !IsWord(t[c]) || (c > 0 && !IsWord(t[c - 1]) && !IsQuote(t[c - 1])))
  }

  lemma {:induction false} NoKeysBetween(t: string, a: nat, b: nat)
    requires a <= b <= |t| && forall i :: a <= i < b ==> KeyAt(t, i).None?
    ensures NextKey(t, a) == NextKey(t, b)
    decreases b - a
  {
    hide KeyAt;
    if a < b { NoKeysBetween(t, a + 1, b); }
  }

  /** Matches that begin before `done` are skipped; from a cut, nothing else is lost with them. */
  lemma {:induction false} Resync(t: string, p: nat, c: nat, done: nat)
    requires p <= c <= done <= |t| && Cut(t, c)
    ensures Scrubbed(t, p, done) == Scrubbed(t, c, done)
    decreases |t| - p
  {
    hide NextKey, ValueEnd, SkipSpace, Spans, Replace, Scrubbed, InOrder, KeyAt;
    ScrubStep(t, p, done);
    var key := NextKey(t, p);
    FirstKey(t, p);
    if key.None? || key.value.start >= c {
      NoKeysBetween(t, p, c);
      SameKeySameScrub(t, p, c, done);
    } else {
      var k := key.value.end;
      if k <= c {
        Resync(t, k, c, done);
      } else {
        forall i | c <= i < k ensures KeyAt(t, i).None? { CutInside(t, key.value.start, c, i); }
        NoKeysBetween(t, c, k);
        SameKeySameScrub(t, k, c, done);
      }
    }
  }

  lemma CutInside(t: string, s: nat, c: nat, i: nat)
    requires s < c <= i < |t| && KeyAt(t, s).Some? && i < KeyAt(t, s).value && Cut(t, c)
    ensures KeyAt(t, i).None?
  {
    hide KeyFrom, IsSecret;
    if i == s + 1 && IsQuote(t[s]) {
      NoWordNoKey(t, i);
    } else {
      NoneInside(t, s, i);
    }
  }

  lemma {:induction false} FirstKey(t: string, p: nat)
    requires p <= |t|
    ensures var key := NextKey(t, p);
            && (key.Some? ==> forall i :: p <= i < key.value.start ==> KeyAt(t, i).None?)
            && (key.None? ==> forall i :: p <= i <= |t| ==> KeyAt(t, i).None?)
    decreases |t| - p
  {
    hide KeyAt;
    if KeyAt(t, p).None? && p < |t| { FirstKey(t, p + 1); }
  }

  lemma SameKeySameScrub(t: string, a: nat, b: nat, done: nat)
    requires a <= |t| && b <= |t| && done <= |t| && NextKey(t, a) == NextKey(t, b)
    ensures Scrubbed(t, a, done) == Scrubbed(t, b, done)
  {
    hide NextKey, ValueEnd, SkipSpace, Replace;
    assert Spans(t, a, done) == Spans(t, b, done);
  }

  // ----- closed values -----

  datatype Form = Bare | Quoted | Braced

  predicate Has(w: string, f: Form) {
    w != "" &&
    match f
    case Bare => !IsQuote(w[0]) && w[0] != '{'
    case Quoted => IsQuote(w[0])
    case Braced => w[0] == '{'
  }

  /** A value that its own grammar ends exactly at its last character. */
  predicate Closed(w: string, f: Form) {
    Has(w, f) &&
    match f
    case Bare => !IsSpace(w[0]) && BareStop(w, 0) == |w|
    case Quoted => |w| >= 2 && QuoteStop(w, 1, w[0]) == |w| - 1
    case Braced => |w| >= 2 && BraceStop(w, 1) == |w| - 1
  }

  /** What may follow a value of the form without becoming part of it. */
  predicate MayFollow(b: string, f: Form) {
    b != "" ==>
    match f
    case Bare => EndsBare(b[0])
    case Quoted => true
    case Braced => b[0] != '}'
  }

  lemma {:induction false} QuoteInside(w: string, b: string, i: nat, quote: char)
    requires QuoteStop(w, i, quote) < |w|
    ensures QuoteStop(w + b, i, quote) == QuoteStop(w, i, quote)
    decreases |w| - i
  {
    if w[i] != quote { QuoteInside(w, b, if w[i] == '\\' then i + 2 else i + 1, quote); }
  }

  lemma {:induction false} BraceInside(w: string, b: string, i: nat)
    requires BraceStop(w, i) == |w| - 1 && MayFollow(b, Braced)
    ensures BraceStop(w + b, i) == |w| - 1
    decreases |w| - i
  {
    if w[i] != '}' {
      BraceInside(w, b, i + 1);
    } else if i + 1 < |w| {
      BraceInside(w, b, i + 2);
    }
  }

  lemma {:induction false} BareInside(w: string, b: string, i: nat)
    requires BareStop(w, i) == |w| && MayFollow(b, Bare)
    ensures BareStop(w + b, i) == |w|
    decreases |w| - i
  {
    if i < |w| { BareInside(w, b, if w[i] == '\\' then i + 2 else i + 1); }
  }

  /** A closed value is read as itself wherever it stands. */
  lemma ClosedValueEnds(a: string, w: string, b: string, f: Form)
    requires Closed(w, f) && MayFollow(b, f)
    ensures ValueEnd(a + w + b, |a|) == Some(|a| + |w|)
  {
    var t := a + w + b;
    assert t[|a|..] == (w + b)[0..] == w + b;
    ValueShift(w + b, 0, t, |a|);
    match f
    case Bare => BareInside(w, b, 0);
    case Quoted => QuoteInside(w, b, 1, w[0]);
    case Braced => BraceInside(w, b, 1);
  }

  /** What follows a value that does not run to the end of the text may follow any of its form. */
  lemma AfterValue(t: string, v: nat, e: nat, f: Form)
    requires v < e < |t| && ValueEnd(t, v) == Some(e) && Has(t[v..e], f)
    ensures MayFollow(t[e..], f)
    ensures f == Quoted ==> IsQuote(t[e - 1])
    ensures f == Braced ==> t[e - 1] == '}'
  {
    assert t[v..e][0] == t[v] && t[e..][0] == t[e];
    match f
    case Bare => BareEnds(t, v);
    case Quoted => QuoteEnds(t, v + 1, t[v]);
    case Braced => BraceEnds(t, v + 1);
  }

  lemma {:induction false} BareEnds(t: string, i: nat)
    requires BareStop(t, i) < |t|
    ensures EndsBare(t[BareStop(t, i)])
    decreases |t| - i
  {
    if !EndsBare(t[i]) { BareEnds(t, if t[i] == '\\' then i + 2 else i + 1); }
  }

  lemma {:induction false} QuoteEnds(t: string, i: nat, quote: char)
    requires QuoteStop(t, i, quote) < |t|
    ensures t[QuoteStop(t, i, quote)] == quote
    decreases |t| - i
  {
    if t[i] != quote { QuoteEnds(t, if t[i] == '\\' then i + 2 else i + 1, quote); }
  }

  lemma {:induction false} BraceEnds(t: string, i: nat)
    requires BraceStop(t, i) + 1 < |t|
    ensures t[BraceStop(t, i)] == '}' && t[BraceStop(t, i) + 1] != '}'
    decreases |t| - i
  {
    if t[i] != '}' {
      BraceEnds(t, i + 1);
    } else if t[i + 1] == '}' {
      BraceEnds(t, i + 2);
    }
  }

  // ----- the text after a scrubbed value -----

  lemma {:induction false} DoneAll(t: string, p: nat)
    requires p <= |t|
    ensures Scrubbed(t, p, |t|) == ""
    decreases |t| - p
  {
    hide NextKey, ValueEnd, SkipSpace, Spans, Replace, Scrubbed, InOrder;
    ScrubStep(t, p, |t|);
    var key := NextKey(t, p);
    if key.Some? { DoneAll(t, key.value.end); }
  }

  /** From just past a value that ends before the text does, scrubbing goes on as from a fresh start. */
  ghost function Resumed(t: string, e: nat, f: Form): string
    requires 0 < e < |t|
  {
    if f == Quoted && KeyFrom(t, e).Some? then Scrubbed(t, KeyFrom(t, e).value, e) else Scrubbed(t, e, e)
  }

  lemma Resume(t: string, p: nat, e: nat, f: Form)
    requires p < e < |t| && MayFollow(t[e..], f)
    requires f == Quoted ==> IsQuote(t[e - 1])
    requires f == Braced ==> t[e - 1] == '}'
    ensures Scrubbed(t, p, e) == Resumed(t, e, f)
  {
    hide NextKey, ValueEnd, SkipSpace, Spans, Replace, Scrubbed, InOrder, KeyFrom;
    assert t[e..][0] == t[e];
    if f == Quoted {
      Resync(t, p, e - 1, e);
      ScrubStep(t, e - 1, e);
      AtQuote(t, e);
      if KeyFrom(t, e).None? { SameKeySameScrub(t, e - 1, e, e); }
    } else {
      Resync(t, p, e, e);
    }
  }

  lemma AtQuote(t: string, e: nat)
    requires 0 < e < |t| && IsQuote(t[e - 1])
    ensures if KeyFrom(t, e).Some? then NextKey(t, e - 1) == Some(Match(e - 1, KeyFrom(t, e).value))
            else NextKey(t, e - 1) == NextKey(t, e)
  {
    hide KeyFrom;
  }

  lemma ResumedShift(t: string, e: nat, u: string, d: nat, f: Form)
    requires 0 < e < |t| && 0 < d < |u| && t[e..] == u[d..] && MayFollow(t[e..], f)
    requires f == Quoted ==> IsQuote(t[e - 1]) && IsQuote(u[d - 1])
    requires f == Braced ==> t[e - 1] == u[d - 1] == '}'
    ensures Resumed(t, e, f) == Resumed(u, d, f)
  {
    hide KeyFrom, Scrubbed;
    assert |t[e..]| == |u[d..]| && t[e..][0] == t[e] == u[d];
    KeyFromShift(t, e, u, d);
    if f == Quoted && KeyFrom(t, e).Some? {
      ScrubShift(t, e, u, d, KeyFrom(t, e).value - e, 0);
    } else {
      ScrubShift(t, e, u, d, 0, 0);
    }
  }

  /** After the value, the same output whichever closed value of the form stood there. */
  lemma TailAgrees(t: string, u: string, p: nat, v: nat, e: nat, w: string, f: Form)
    requires p <= v < e <= |t| && ValueEnd(t, v) == Some(e) && Has(t[v..e], f) && Closed(w, f)
    requires u == t[..v] + w + t[e..]
    ensures ValueEnd(u, v) == Some(v + |w|)
    ensures Scrubbed(t, p, e) == Scrubbed(u, p, v + |w|)
  {
    hide ValueEnd, Has, Closed, Scrubbed, Resumed;
    var d := v + |w|;
    NotEmpty(w, f);
    assert |t[..v]| == v && u[d..] == t[e..];
    if e == |t| {
      assert MayFollow(t[e..], f);
      ClosedValueEnds(t[..v], w, t[e..], f);
      DoneAll(t, p);
      DoneAll(u, p);
    } else {
      AfterValue(t, v, e, f);
      ClosedValueEnds(t[..v], w, t[e..], f);
      assert u[d - 1] == w[|w| - 1];
      LastCharacter(w, f);
      Resume(t, p, e, f);
      Resume(u, p, d, f);
      ResumedShift(t, e, u, d, f);
    }
  }

  lemma NotEmpty(w: string, f: Form)
    requires Closed(w, f)
    ensures w != ""
  {}

  lemma LastCharacter(w: string, f: Form)
    requires Closed(w, f)
    ensures f == Quoted ==> IsQuote(w[|w| - 1])
    ensures f == Braced ==> w[|w| - 1] == '}'
  {
    match f
    case Bare =>
    case Quoted => QuoteEnds(w, 1, w[0]);
    case Braced => BraceCloses(w, 1);
  }

  lemma {:induction false} BraceCloses(w: string, i: nat)
    requires BraceStop(w, i) < |w|
    ensures w[BraceStop(w, i)] == '}'
    decreases |w| - i
  {
    if w[i] != '}' {
      BraceCloses(w, i + 1);
    } else if i + 1 < |w| && w[i + 1] == '}' {
      BraceCloses(w, i + 2);
    }
  }

  // ----- the whole text -----

  /** A scan from `pos`, with `done` written, scrubs the field whose key ends after `sep` and whose value is `v..e`. */
  ghost predicate Scrubs(t: string, pos: nat, done: nat, sep: nat, v: nat, e: nat)
    requires pos <= |t|
    decreases |t| - pos
  {
    match NextKey(t, pos)
    case None => false
    case Some(key) =>
      var value := SkipSpace(t, key.end);
      if key.start < done || ValueEnd(t, value).None? then Scrubs(t, key.end, done, sep, v, e)
      else (key.end == sep + 1 && value == v && ValueEnd(t, value) == Some(e))
           || Scrubs(t, key.end, ValueEnd(t, value).value, sep, v, e)
  }

  lemma {:induction false} ScrubsFacts(t: string, pos: nat, done: nat, sep: nat, v: nat, e: nat)
    requires pos <= |t| && Scrubs(t, pos, done, sep, v, e)
    ensures pos <= sep && done <= sep < v < e <= |t| && IsSeparator(t[sep])
    ensures SkipSpace(t, sep + 1) == v && ValueEnd(t, v) == Some(e)
    decreases |t| - pos
  {
    hide NextKey, ValueEnd, SkipSpace, KeyAt;
    var key := NextKey(t, pos).value;
    var value := SkipSpace(t, key.end);
    if key.start < done || ValueEnd(t, value).None? {
      ScrubsFacts(t, key.end, done, sep, v, e);
    } else if !(key.end == sep + 1 && value == v && ValueEnd(t, value) == Some(e)) {
      ScrubsFacts(t, key.end, ValueEnd(t, value).value, sep, v, e);
    }
  }

  lemma SpansStep(t: string, pos: nat, done: nat)
    requires pos <= |t|
    ensures match NextKey(t, pos)
            case None => Spans(t, pos, done) == []
            case Some(key) =>
              var value := SkipSpace(t, key.end);
              if key.start < done || ValueEnd(t, value).None? then Spans(t, pos, done) == Spans(t, key.end, done)
              else Spans(t, pos, done) == [Span(value, ValueEnd(t, value).value)] +
                   Spans(t, key.end, ValueEnd(t, value).value)
  {
    hide NextKey, ValueEnd, SkipSpace, KeyAt;
  }

  lemma {:induction false} SpanScrubs(t: string, pos: nat, done: nat, k: nat) returns (sep: nat)
    requires pos <= |t| && k < |Spans(t, pos, done)|
    ensures Scrubs(t, pos, done, sep, Spans(t, pos, done)[k].value, Spans(t, pos, done)[k].end)
    decreases |t| - pos
  {
    hide NextKey, ValueEnd, SkipSpace, KeyAt, Spans;
    SpansStep(t, pos, done);
    var key := NextKey(t, pos).value;
    var value := SkipSpace(t, key.end);
    if key.start < done || ValueEnd(t, value).None? {
      sep := SpanScrubs(t, key.end, done, k);
    } else if k == 0 {
      sep := key.end - 1;
    } else {
      sep := SpanScrubs(t, key.end, ValueEnd(t, value).value, k - 1);
    }
  }

  lemma {:induction false} SpacesTo(u: string, i: nat, v: nat)
    requires i <= v < |u| && (forall k :: i <= k < v ==> IsSpace(u[k])) && !IsSpace(u[v])
    ensures SkipSpace(u, i) == v
    decreases v - i
  {
    if i < v { SpacesTo(u, i + 1, v); }
  }

  lemma SliceBefore(t: string, u: string, v: nat, a: nat, b: nat)
    requires v <= |t| && v <= |u| && t[..v] == u[..v] && a <= b <= v
    ensures t[a..b] == u[a..b] && t[..b] == u[..b]
  {
    assert t[a..b] == t[..v][a..b] && u[a..b] == u[..v][a..b];
    assert t[..b] == t[..v][..b] && u[..b] == u[..v][..b];
  }

  /** An earlier field reads alike in both texts. */
  lemma EarlierField(t: string, u: string, pos: nat, done: nat, sep: nat, v: nat, e: nat)
    requires pos <= |t| && Scrubs(t, pos, done, sep, v, e) && v <= |t| && v <= |u| && t[..v] == u[..v]
    requires NextKey(t, pos).Some?
    requires NextKey(t, pos).value.start >= done && NextKey(t, pos).value.end != sep + 1
    ensures sep < v
    ensures var key := NextKey(t, pos).value;
            var value := SkipSpace(t, key.end);
            && key.end <= |u| && SkipSpace(u, key.end) == value < sep
            && ValueEnd(u, value) == ValueEnd(t, value) && ValueEnd(t, value).Some?
            && Scrubs(t, key.end, ValueEnd(t, value).value, sep, v, e)
            && (done <= value ==> t[done..value] == u[done..value])
  {
    hide NextKey, ValueEnd, SkipSpace, KeyAt, Scrubs;
    ScrubsFacts(t, pos, done, sep, v, e);
    KeyBeforeField(t, pos, done, sep, v, e);
    NextField(t, pos, done, sep, v, e);
    SliceBefore(t, u, v, 0, sep + 1);
    SameBefore(t, u, sep + 1);
    var key := NextKey(t, pos).value;
    SpaceLocal(t, u, sep + 1, key.end);
    var value := SkipSpace(t, key.end);
    ValueLocal(t, u, sep + 1, value);
    if done <= value { SliceBefore(t, u, v, done, value); }
  }

  /** Up to the value the two texts are one, so the scan of one is the scan of the other. */
  lemma {:induction false} SameUpToValue(t: string, u: string, pos: nat, done: nat, sep: nat, v: nat, e: nat, d: nat)
    requires pos <= |t| && Scrubs(t, pos, done, sep, v, e) && done <= |t| && e <= |t| && d <= |u|
    requires sep < v < |u| && v <= |t| && t[..v] == u[..v] && !IsSpace(u[v]) && ValueEnd(u, v) == Some(d)
    requires Scrubbed(t, sep + 1, e) == Scrubbed(u, sep + 1, d)
    ensures pos <= |u| && done <= |u| && Scrubbed(t, pos, done) == Scrubbed(u, pos, done)
    decreases |t| - pos
  {
    hide NextKey, ValueEnd, SkipSpace, Spans, Replace, Scrubbed, InOrder, Scrubs, KeyAt;
    ScrubsFacts(t, pos, done, sep, v, e);
    KeyBeforeField(t, pos, done, sep, v, e);
    var key := NextKey(t, pos).value;
    NextKeyLocal(t, u, v, pos);
    ScrubStep(t, pos, done);
    ScrubStep(u, pos, done);
    if key.start < done {
      SameUpToValue(t, u, key.end, done, sep, v, e, d);
    } else if key.end == sep + 1 {
      SpacesBefore(t, u, v, key.end);
      SliceBefore(t, u, v, done, v);
    } else {
      EarlierField(t, u, pos, done, sep, v, e);
      SameUpToValue(t, u, key.end, ValueEnd(t, SkipSpace(t, key.end)).value, sep, v, e, d);
    }
  }

  lemma SpacesBefore(t: string, u: string, v: nat, i: nat)
    requires i <= v <= |t| && v < |u| && t[..v] == u[..v] && SkipSpace(t, i) == v && !IsSpace(u[v])
    ensures SkipSpace(u, i) == v
  {
    SameBefore(t, u, v);
    SpacesTo(u, i, v);
  }

  /** The next match is the field's key or comes before it. */
  lemma KeyBeforeField(t: string, pos: nat, done: nat, sep: nat, v: nat, e: nat)
    requires pos <= |t| && Scrubs(t, pos, done, sep, v, e)
    ensures NextKey(t, pos).Some?
    ensures var key := NextKey(t, pos).value;
            key.end <= sep + 1 && (key.end == sep + 1 ==> key.start >= done)
            && (key.start < done ==> Scrubs(t, key.end, done, sep, v, e))
  {
    hide NextKey, ValueEnd, SkipSpace, KeyAt;
    var key := NextKey(t, pos).value;
    var value := SkipSpace(t, key.end);
    if key.start < done || ValueEnd(t, value).None? {
      ScrubsFacts(t, key.end, done, sep, v, e);
    } else if !(key.end == sep + 1 && value == v && ValueEnd(t, value) == Some(e)) {
      ScrubsFacts(t, key.end, ValueEnd(t, value).value, sep, v, e);
    }
  }

  /** An earlier field that is itself scrubbed ends before the field's key. */
  lemma NextField(t: string, pos: nat, done: nat, sep: nat, v: nat, e: nat)
    requires pos <= |t| && Scrubs(t, pos, done, sep, v, e) && NextKey(t, pos).Some?
    requires NextKey(t, pos).value.start >= done && NextKey(t, pos).value.end != sep + 1
    ensures var key := NextKey(t, pos).value;
            var value := SkipSpace(t, key.end);
            && value < sep && ValueEnd(t, value).Some? && ValueEnd(t, value).value <= sep
            && Scrubs(t, key.end, ValueEnd(t, value).value, sep, v, e)
  {
    hide NextKey, SkipSpace, KeyAt;
    var key := NextKey(t, pos).value;
    var value := SkipSpace(t, key.end);
    if ValueEnd(t, value).None? {
      ScrubsFacts(t, key.end, done, sep, v, e);
      NoValueAtEnd(t, value);
    } else {
      ScrubsFacts(t, key.end, ValueEnd(t, value).value, sep, v, e);
    }
  }

  /** A field has no value only where nothing but space is left. */
  lemma NoValueAtEnd(t: string, value: nat)
    requires value <= |t| && (value < |t| ==> !IsSpace(t[value])) && ValueEnd(t, value).None?
    ensures value == |t|
  {}

  /** The scrubbed text does not show which closed value a scrubbed field held: replacing the value by
      any other of its form, quotes and escapes included, changes nothing in the output. */
  lemma ValueDoesNotShow(t: string, k: nat, w: string, f: Form)
    requires k < |Spans(t, 0, 0)|
    requires var span := Spans(t, 0, 0)[k];
             span.value < span.end <= |t| ==> Has(t[span.value..span.end], f) && Closed(w, f)
    ensures var span := Spans(t, 0, 0)[k];
            span.value < span.end <= |t| &&
            Scrubbed(t[..span.value] + w + t[span.end..], 0, 0) == Scrubbed(t, 0, 0)
  {
    hide Spans, Scrubbed, Scrubs, ValueEnd, SkipSpace, Has, BareStop, QuoteStop, BraceStop;
    var v, e := Spans(t, 0, 0)[k].value, Spans(t, 0, 0)[k].end;
    var sep := SpanScrubs(t, 0, 0, k);
    ScrubsFacts(t, 0, 0, sep, v, e);
    var u := t[..v] + w + t[e..];
    TailAgrees(t, u, sep + 1, v, e, w, f);
    NotEmpty(w, f);
    FirstNotSpace(w, f);
    assert u[v] == w[0] && u[..v] == t[..v];
    SameUpToValue(t, u, 0, 0, sep, v, e, v + |w|);
  }

  lemma FirstNotSpace(w: string, f: Form)
    requires Closed(w, f)
    ensures w != "" && !IsSpace(w[0])
  {}
}
