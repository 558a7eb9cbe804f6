/** The orders the scripts sort by: strings by code point, records field by field; and `sorted`. */
module Ordering {

  // ----- strings and records -----

  predicate StrLe(a: string, b: string) {
    if a == "" then true
    else if b == "" then false
    else if a[0] != b[0] then a[0] < b[0]
    else StrLe(a[1..], b[1..])
  }

  /** Python's order on tuples of strings. */
  predicate LexLe(a: seq<string>, b: seq<string>) {
    if a == [] then true
    else if b == [] then false
    else if a[0] != b[0] then StrLe(a[0], b[0])
    else LexLe(a[1..], b[1..])
  }

  lemma {:induction false} StrLeTotal(a: string, b: string)
    ensures StrLe(a, b) || StrLe(b, a)
    ensures StrLe(a, b) && StrLe(b, a) ==> a == b
  {
    if a != "" && b != "" && a[0] == b[0] {
      StrLeTotal(a[1..], b[1..]);
      assert a == [a[0]] + a[1..] && b == [b[0]] + b[1..];
    }
  }

  lemma {:induction false} StrLeTrans(a: string, b: string, c: string)
    requires StrLe(a, b) && StrLe(b, c)
    ensures StrLe(a, c)
  {
    if a != "" && b != "" && c != "" && a[0] == b[0] == c[0] {
      StrLeTrans(a[1..], b[1..], c[1..]);
    }
  }

  lemma {:induction false} LexLeTotal(a: seq<string>, b: seq<string>)
    ensures LexLe(a, b) || LexLe(b, a)
    ensures LexLe(a, b) && LexLe(b, a) ==> a == b
  {
    if a != [] && b != [] {
      StrLeTotal(a[0], b[0]);
      if a[0] == b[0] {
        LexLeTotal(a[1..], b[1..]);
        assert a == [a[0]] + a[1..] && b == [b[0]] + b[1..];
      }
    }
  }

  lemma {:induction false} LexLeTrans(a: seq<string>, b: seq<string>, c: seq<string>)
    requires LexLe(a, b) && LexLe(b, c)
    ensures LexLe(a, c)
  {
    if a != [] && b != [] && c != [] {
      if a[0] == b[0] == c[0] {
        LexLeTrans(a[1..], b[1..], c[1..]);
      } else if a[0] != b[0] && b[0] != c[0] {
        StrLeTrans(a[0], b[0], c[0]);
        StrLeTotal(a[0], b[0]);
      }
    }
  }

  // ----- sorting a list -----

  // The laws below are stated on marked pairs and triples, so that a proof uses them only where it
  // asks: `Trans`, `Total` and `Antisym` mark one instance each.

  ghost predicate Pair<T>(a: T, b: T) { true }

  ghost predicate Triple<T>(a: T, b: T, c: T) { true }

  ghost predicate Preorder<T(!new)>(le: (T, T) -> bool) {
    && (forall a, b {:trigger Pair(a, b)} :: Pair(a, b) ==> le(a, b) || le(b, a))
    && (forall a, b, c {:trigger Triple(a, b, c)} :: Triple(a, b, c) && le(a, b) && le(b, c) ==> le(a, c))
  }

  ghost predicate Order<T(!new)>(le: (T, T) -> bool) {
    Preorder(le) && forall a, b {:trigger Pair(a, b)} :: Pair(a, b) && le(a, b) && le(b, a) ==> a == b
  }

  lemma Total<T(!new)>(le: (T, T) -> bool, a: T, b: T)
    requires Preorder(le)
    ensures le(a, b) || le(b, a)
  {
    assert Pair(a, b);
  }

  lemma Trans<T(!new)>(le: (T, T) -> bool, a: T, b: T, c: T)
    requires Preorder(le) && le(a, b) && le(b, c)
    ensures le(a, c)
  {
    assert Triple(a, b, c);
  }

  lemma Antisym<T(!new)>(le: (T, T) -> bool, a: T, b: T)
    requires Order(le) && le(a, b) && le(b, a)
    ensures a == b
  {
    assert Pair(a, b);
  }

  /** Records compared by a key of strings that tells them apart are in order. */
  lemma OrderByKey<T(!new)>(le: (T, T) -> bool, key: T -> seq<string>)
    requires forall a, b :: le(a, b) <==> LexLe(key(a), key(b))
    requires forall a, b :: key(a) == key(b) ==> a == b
    ensures Order(le)
  {
    forall a, b ensures (le(a, b) || le(b, a)) && (le(a, b) && le(b, a) ==> a == b) { LexLeTotal(key(a), key(b)); }
    forall a, b, c | le(a, b) && le(b, c) ensures le(a, c) { LexLeTrans(key(a), key(b), key(c)); }
  }

  lemma StringOrder()
    ensures Order(StrLe)
  {
    forall a, b ensures (StrLe(a, b) || StrLe(b, a)) && (StrLe(a, b) && StrLe(b, a) ==> a == b) { StrLeTotal(a, b); }
    forall a, b, c | StrLe(a, b) && StrLe(b, c) ensures StrLe(a, c) { StrLeTrans(a, b, c); }
  }

  ghost predicate Sorted<T>(le: (T, T) -> bool, s: seq<T>) {
    forall i, j :: 0 <= i < j < |s| ==> le(s[i], s[j])
  }

  function Insert<T>(le: (T, T) -> bool, x: T, s: seq<T>): seq<T> {
    if s == [] then [x]
    else if le(x, s[0]) then [x] + s
    else [s[0]] + Insert(le, x, s[1..])
  }

  /** `sorted(s)`: stable, so equal keys keep their order. */
  function Sort<T>(le: (T, T) -> bool, s: seq<T>): seq<T> {
    if s == [] then [] else Insert(le, s[0], Sort(le, s[1..]))
  }

  lemma {:induction false} InsertContents<T>(le: (T, T) -> bool, x: T, s: seq<T>)
    ensures multiset(Insert(le, x, s)) == multiset(s) + multiset{x}
    ensures forall y :: y in Insert(le, x, s) ==> y == x || y in s
  {
    if s != [] && !le(x, s[0]) {
      InsertContents(le, x, s[1..]);
      assert s == [s[0]] + s[1..];
    }
  }

  lemma {:induction false} InsertSorted<T(!new)>(le: (T, T) -> bool, x: T, s: seq<T>)
    requires Preorder(le)
    requires Sorted(le, s)
    ensures Sorted(le, Insert(le, x, s))
  {
    if s != [] && !le(x, s[0]) {
      InsertSorted(le, x, s[1..]);
      InsertContents(le, x, s[1..]);
      Total(le, x, s[0]);
      var r := Insert(le, x, s[1..]);
      forall j | 0 <= j < |r| ensures le(s[0], r[j]) {
        assert r[j] in r;
      }
    } else if s != [] {
      forall j | 0 < j < |s| ensures le(x, s[j]) { Trans(le, x, s[0], s[j]); }
    }
  }

  lemma {:induction false} SortContents<T>(le: (T, T) -> bool, s: seq<T>)
    ensures multiset(Sort(le, s)) == multiset(s)
  {
    if s != [] {
      SortContents(le, s[1..]);
      InsertContents(le, s[0], Sort(le, s[1..]));
      assert s == [s[0]] + s[1..];
    }
  }

  lemma {:induction false} SortSorted<T(!new)>(le: (T, T) -> bool, s: seq<T>)
    requires Preorder(le)
    ensures Sorted(le, Sort(le, s))
  {
    if s != [] {
      SortSorted(le, s[1..]);
      InsertSorted(le, s[0], Sort(le, s[1..]));
    }
  }

  lemma SameContents<T>(s: seq<T>, t: seq<T>)
    requires multiset(s) == multiset(t)
    ensures |s| == |t| && forall x :: x in s <==> x in t
  {
    assert |multiset(s)| == |s| && |multiset(t)| == |t|;
    forall x ensures x in s <==> x in t { assert x in multiset(s) <==> x in multiset(t); }
  }

  lemma SortSorts<T(!new)>(le: (T, T) -> bool, s: seq<T>)
    requires Preorder(le)
    ensures Sorted(le, Sort(le, s))
    ensures multiset(Sort(le, s)) == multiset(s)
    ensures |Sort(le, s)| == |s| && forall x :: x in Sort(le, s) <==> x in s
  {
    SortSorted(le, s);
    SortContents(le, s);
    SameContents(Sort(le, s), s);
  }

  // ----- sorting the keys of a dictionary -----

  ghost predicate Ascending<T>(le: (T, T) -> bool, s: seq<T>) {
    forall i, j :: 0 <= i < j < |s| ==> le(s[i], s[j]) && s[i] != s[j]
  }

  predicate Least<T(==)>(le: (T, T) -> bool, s: set<T>, m: T) {
    m in s && forall x :: x in s ==> le(m, x)
  }

  lemma {:induction false} LeastExists<T(!new)>(le: (T, T) -> bool, s: set<T>)
    requires Preorder(le) && s != {}
    ensures exists m :: Least(le, s, m)
  {
    var y :| y in s;
    if s == {y} {
      Total(le, y, y);
      assert Least(le, s, y);
    } else {
      LeastExists(le, s - {y});
      var m :| Least(le, s - {y}, m);
      Total(le, m, y);
      if le(m, y) {
        assert Least(le, s, m);
      } else {
        Total(le, y, y);
        forall x | x in s - {y} ensures le(y, x) { Trans(le, y, m, x); }
        assert Least(le, s, y);
      }
    }
  }

  /** `sorted(keys)` of a dictionary: its keys, least first. */
  function SortSet<T(!new, ==)>(le: (T, T) -> bool, s: set<T>): (q: seq<T>)
    requires Order(le)
    ensures Ascending(le, q)
    ensures forall x :: x in q <==> x in s
    decreases |s|
  {
    if s == {} then [] else
      LeastExists(le, s);
      assert forall a, b :: Least(le, s, a) && Least(le, s, b) ==> a == b by {
        forall a, b | Least(le, s, a) && Least(le, s, b) ensures a == b { Antisym(le, a, b); }
      }
      var m :| Least(le, s, m);
      var rest := SortSet(le, s - {m});
      assert forall j :: 0 <= j < |rest| ==> rest[j] in s - {m};
      [m] + rest
  }

  lemma {:induction false} AscendingUnique<T(!new)>(le: (T, T) -> bool, s: seq<T>, t: seq<T>)
    requires Order(le) && Ascending(le, s) && Ascending(le, t)
    requires forall x :: x in s <==> x in t
    ensures s == t
  {
    assert s != [] ==> s[0] in t;
    assert t != [] ==> t[0] in s;
    if s != [] && t != [] {
      var a, b := s[0], t[0];
      Total(le, a, a);
      assert a in t && b in s;
      if a != b { Antisym(le, a, b); }
      forall x | x in s[1..] ensures x in t[1..] { assert x in s && x != a; }
      forall x | x in t[1..] ensures x in s[1..] { assert x in t && x != b; }
      AscendingUnique(le, s[1..], t[1..]);
      assert s == [a] + s[1..] && t == [b] + t[1..];
    }
  }

  ghost predicate Distinct<T>(s: seq<T>) {
    forall i, j :: 0 <= i < j < |s| ==> s[i] != s[j]
  }

  lemma {:induction false} DistinctByCount<T>(s: seq<T>)
    ensures Distinct(s) <==> forall x :: multiset(s)[x] <= 1
  {
    if s != [] {
      DistinctByCount(s[1..]);
      assert s == [s[0]] + s[1..];
      assert multiset(s) == multiset{s[0]} + multiset(s[1..]);
      if Distinct(s) {
        forall x ensures multiset(s)[x] <= 1 {
          if x == s[0] { assert x !in s[1..]; assert x !in multiset(s[1..]); }
          assert Distinct(s[1..]);
        }
      }
      if forall x :: multiset(s)[x] <= 1 {
        assert forall x :: multiset(s[1..])[x] <= multiset(s)[x];
        forall j | 0 < j < |s| ensures s[0] != s[j] {
          assert s[j] in s[1..];
          assert s[j] in multiset(s[1..]);
          assert s[0] == s[j] ==> multiset(s)[s[0]] >= 2;
        }
        forall i, j | 0 <= i < j < |s| ensures s[i] != s[j] {
          if i > 0 { assert s[i] == s[1..][i - 1] && s[j] == s[1..][j - 1]; }
        }
      }
    }
  }

  /** Sorting a list without repeats is sorting its set of elements. */
  lemma SortDistinct<T(!new)>(le: (T, T) -> bool, s: seq<T>, elements: set<T>)
    requires Order(le) && Distinct(s) && forall x :: x in s <==> x in elements
    ensures Sort(le, s) == SortSet(le, elements)
  {
    SortSorts(le, s);
    DistinctByCount(s);
    DistinctByCount(Sort(le, s));
    AscendingUnique(le, Sort(le, s), SortSet(le, elements));
  }
}
